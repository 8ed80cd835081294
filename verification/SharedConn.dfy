/** One connection and any number of goroutines that write frames to it under one mutex
    (internal/wscarrier): first the connection alone, then the callers of a wsConn. Each frame takes two
    separate writes, and the goroutines are interleaved in every possible way. */
module SharedConn {
  import opened ByteSeq
  import opened Frames
  import opened Options

  /** A goroutine that writes. */
  type Owner = nat

  /** How much of the frame under the lock has been written. */
  datatype Progress = Nothing | HeaderOut | BothOut

  datatype Lock = Free | Held(owner: Owner, sent: Sent, progress: Progress)

  /** A frame on the connection and who wrote it. */
  datatype Entry = Entry(owner: Owner, sent: Sent)

  /** `failed` is set by the first write that does not succeed. */
  datatype Conn = Conn(lock: Lock, wire: Bytes, log: seq<Entry>, failed: bool)

  const UNUSED := Conn(Free, [], [], false)

  datatype ConnStep =
    | Acquire(owner: Owner, frame: Frame, key: Option<Key>)   // writeMu.Lock and the header buffer
    | WriteHeader
    | WriteBody
    | Release                                                  // writeMu.Unlock
    | FailWrite(n: nat)                                        // the next write takes n bytes and fails

  predicate Holds(lock: Lock, w: Owner) {
    lock.Held? && lock.owner == w
  }

  predicate CanStep(c: Conn, step: ConnStep, client: bool) {
    match step
    case Acquire(_, _, key) => c.lock.Free? && key.Some? == client
    case WriteHeader => c.lock.Held? && c.lock.progress.Nothing?
    case WriteBody => c.lock.Held? && c.lock.progress.HeaderOut?
    case Release => c.lock.Held? && c.lock.progress.BothOut?
    case FailWrite(n) => c.lock.Held? && !c.lock.progress.BothOut? && n <= |NextPart(c.lock)|
  }

  /** What the next write of the lock holder hands to the connection. */
  function NextPart(lock: Lock): Bytes
    requires lock.Held?
  {
    var x := lock.sent;
    if lock.progress.Nothing? then Header(x.frame.opcode, |x.frame.payload|, x.key) else Body(x.frame.payload, x.key)
  }

  function StepConn(c: Conn, step: ConnStep, client: bool): Conn
    requires CanStep(c, step, client)
  {
    match step
    case Acquire(w, f, key) => c.(lock := Held(w, Sent(f, key), Nothing))
    case WriteHeader =>
      var c' := c.(wire := c.wire + NextPart(c.lock), lock := c.lock.(progress := HeaderOut));
      if c.lock.sent.frame.payload == [] then LogHeld(c') else c'
    case WriteBody =>
      var c' := c.(wire := c.wire + NextPart(c.lock), lock := c.lock.(progress := BothOut));
      if c.lock.sent.frame.payload == [] then c' else LogHeld(c')
    case Release => c.(lock := Free)
    case FailWrite(n) => c.(wire := c.wire + NextPart(c.lock)[..n], lock := Free, failed := true)
  }

  /** The last byte of the frame under the lock is out. */
  function LogHeld(c: Conn): Conn
    requires c.lock.Held?
  {
    c.(log := c.log + [Entry(c.lock.owner, c.lock.sent)])
  }

  // ---------- What the bytes on the connection are ----------

  function SentOf(log: seq<Entry>): (xs: seq<Sent>)
    ensures |xs| == |log|
  {
    seq(|log|, i requires 0 <= i < |log| => log[i].sent)
  }

  function FramesBy(log: seq<Entry>, w: Owner): seq<Frame> {
    if log == [] then []
    else
      var last := log[|log| - 1];
      FramesBy(log[..|log| - 1], w) + (if last.owner == w then [last.sent.frame] else [])
  }

  predicate Unlogged(lock: Lock) {
    lock.Held? && (lock.progress.Nothing? || (lock.progress.HeaderOut? && lock.sent.frame.payload != []))
  }

  /** The frame w has taken the lock for and not finished. */
  function InHand(lock: Lock, w: Owner): seq<Frame> {
    if Unlogged(lock) && lock.owner == w then [lock.sent.frame] else []
  }

  /** Every frame w has taken the lock for, in order. */
  function Begun(c: Conn, w: Owner): seq<Frame> {
    FramesBy(c.log, w) + InHand(c.lock, w)
  }

  /** The bytes of the one frame that is begun and not finished. */
  function Torn(lock: Lock): Bytes {
    if Unlogged(lock) && lock.progress.HeaderOut? then
      Header(lock.sent.frame.opcode, |lock.sent.frame.payload|, lock.sent.key)
    else []
  }

  /** Whole logged frames, then the unfinished one. */
  ghost predicate ConnOk(c: Conn, client: bool) {
    && c.wire == EncodeLog(SentOf(c.log)) + Torn(c.lock)
    && LogOk(SentOf(c.log), client)
    && (c.lock.Held? ==> Carriable(c.lock.sent.frame) && c.lock.sent.key.Some? == client)
  }

  lemma UnusedIsOk(client: bool)
    ensures ConnOk(UNUSED, client) && forall w :: Begun(UNUSED, w) == []
  {}

  // ---------- Every step keeps it ----------

  lemma FrameInTwo(x: Sent)
    ensures EncodeSent(x) == Header(x.frame.opcode, |x.frame.payload|, x.key) + Body(x.frame.payload, x.key)
    ensures x.frame.payload == [] ==> Body(x.frame.payload, x.key) == []
    ensures x.frame.payload == [] ==> EncodeSent(x) == Header(x.frame.opcode, |x.frame.payload|, x.key)
  {}

  lemma LogSnoc(log: seq<Entry>, e: Entry)
    ensures SentOf(log + [e]) == SentOf(log) + [e.sent]
    ensures FramesOf(SentOf(log + [e])) == FramesOf(SentOf(log)) + [e.sent.frame]
    ensures EncodeLog(SentOf(log + [e])) == EncodeLog(SentOf(log)) + EncodeSent(e.sent)
    ensures forall w :: FramesBy(log + [e], w) == FramesBy(log, w) + (if e.owner == w then [e.sent.frame] else [])
  {
    hide EncodeSent;
    assert SentOf(log + [e]) == SentOf(log) + [e.sent];
    assert (SentOf(log) + [e.sent])[..|log|] == SentOf(log);
    assert (log + [e])[..|log|] == log;
  }

  lemma LogOkSnoc(xs: seq<Sent>, x: Sent, masked: bool)
    requires LogOk(xs, masked) && Carriable(x.frame) && x.key.Some? == masked
    ensures LogOk(xs + [x], masked)
  {}

  lemma StepKeepsConn(c: Conn, step: ConnStep, client: bool)
    requires ConnOk(c, client) && CanStep(c, step, client) && !step.FailWrite?
    requires step.Acquire? ==> Carriable(step.frame)
    ensures ConnOk(StepConn(c, step, client), client)
  {
    hide EncodeLog, Header, Body, EncodeSent, SentOf, LogOk, Carriable;
    if step.WriteHeader? || step.WriteBody? {
      WriteKeepsConn(c, step, client);
    }
  }

  /** A write extends the whole frames or the unfinished one, never anything else. */
  lemma WriteKeepsConn(c: Conn, step: ConnStep, client: bool)
    requires ConnOk(c, client) && CanStep(c, step, client) && (step.WriteHeader? || step.WriteBody?)
    ensures ConnOk(StepConn(c, step, client), client)
  {
    hide EncodeLog, Header, Body, EncodeSent, SentOf, LogOk, Carriable, FramesOf, FramesBy;
    var x := c.lock.sent;
    FrameInTwo(x);
    LogSnoc(c.log, Entry(c.lock.owner, x));
    LogOkSnoc(SentOf(c.log), x, client);
    WholeAndTorn(EncodeLog(SentOf(c.log)), Torn(c.lock), NextPart(c.lock));
  }

  lemma WholeAndTorn(whole: Bytes, torn: Bytes, next: Bytes)
    ensures (whole + torn) + next == whole + (torn + next)
    ensures whole + (torn + next) == (whole + (torn + next)) + []
    ensures torn + [] == torn && [] + next == next
  {}

  /** A step adds to what w has begun exactly the frame it takes the lock for. */
  lemma StepBegins(c: Conn, step: ConnStep, client: bool, w: Owner)
    requires CanStep(c, step, client) && !step.FailWrite?
    ensures Begun(StepConn(c, step, client), w) ==
            if step.Acquire? && step.owner == w then Begun(c, w) + [step.frame] else Begun(c, w)
  {
    hide FramesBy, Header, Body, SentOf, EncodeLog, FramesOf;
    if c.lock.Held? {
      LogSnoc(c.log, Entry(c.lock.owner, c.lock.sent));
    }
    BeginEnds(FramesBy(c.log, w), if c.lock.Held? then [c.lock.sent.frame] else []);
  }

  lemma BeginEnds(logged: seq<Frame>, hand: seq<Frame>)
    ensures (logged + hand) + [] == logged + hand && logged + [] == logged
  {}

  lemma TornIsNoFrame(lock: Lock, expectMasked: bool)
    requires lock.Held? ==> Carriable(lock.sent.frame)
    ensures DecodeAll(Torn(lock), expectMasked) == ([], Torn(lock))
    ensures Torn(lock) != [] ==> lock.Held? && Torn(lock) < EncodeSent(lock.sent)
  {
    hide Decode;
    if Torn(lock) != [] {
      var x := lock.sent;
      StrictPrefixIsNoFrame(x.frame.opcode, x.frame.payload, x.key, |Torn(lock)|, expectMasked);
      assert EncodeSent(x)[..|Torn(lock)|] == Torn(lock);
    } else {
      EmptyIsNoFrame(expectMasked);
    }
  }

  /** A peer that decodes the connection finds exactly the logged frames, and then at most one unfinished
      frame, which belongs to the lock holder. */
  lemma ConnDecodes(c: Conn, client: bool)
    requires ConnOk(c, client)
    ensures DecodeAll(c.wire, client) == (FramesOf(SentOf(c.log)), Torn(c.lock))
    ensures DecodeAll(Torn(c.lock), client) == ([], Torn(c.lock))
    ensures Torn(c.lock) != [] ==> c.lock.Held? && Torn(c.lock) < EncodeSent(c.lock.sent)
  {
    hide Decode, DecodeAll, EncodeLog, Torn, SentOf, FramesOf, EncodeSent, LogOk;
    TornIsNoFrame(c.lock, client);
    DecodeAllOfLog(SentOf(c.log), Torn(c.lock), client, client);
  }

  /** A write that fails after n bytes leaves the whole frames, and of the unfinished one what was out before
      and those n bytes; it lets go of the lock. */
  lemma FailureLeavesAPrefix(c: Conn, n: nat, client: bool)
    requires ConnOk(c, client) && CanStep(c, FailWrite(n), client)
    ensures var c' := StepConn(c, FailWrite(n), client);
            var whole, frame := EncodeLog(SentOf(c.log)), EncodeSent(c.lock.sent);
            && c'.failed && c'.lock.Free? && c'.log == c.log
            && (Unlogged(c.lock) ==>
                  |Torn(c.lock)| + n <= |frame| && c'.wire == whole + frame[..|Torn(c.lock)| + n])
            && (!Unlogged(c.lock) ==> c'.wire == whole)
  {
    hide EncodeLog, SentOf, Header, Body, EncodeSent;
    var x := c.lock.sent;
    FrameInTwo(x);
    var torn, next := Torn(c.lock), NextPart(c.lock);
    if Unlogged(c.lock) {
      assert EncodeSent(x)[..|torn| + n] == torn + next[..n];
      WholeAndTorn(EncodeLog(SentOf(c.log)), torn, next[..n]);
    } else {
      assert next[..n] == [] && c.wire + [] == c.wire;
      assert EncodeLog(SentOf(c.log)) + [] == EncodeLog(SentOf(c.log));
    }
  }

  // ---------- The callers of a wsConn ----------

  /** The connection, the frame each waiting caller wants to write, and every frame asked for so far. */
  datatype Shared = Shared(conn: Conn, waiting: map<Owner, Frame>, asked: map<Owner, seq<Frame>>)

  const QUIET := Shared(UNUSED, map[], map[])

  /** Ask is a call of Write, a ping met by Read, or a call of Close, up to writeMu.Lock. */
  datatype CallStep = Ask(owner: Owner, frame: Frame) | Take(owner: Owner, key: Option<Key>) | OnConn(step: ConnStep)

  predicate CanCall(s: Shared, step: CallStep, client: bool) {
    match step
    case Ask(w, f) => w !in s.waiting && !Holds(s.conn.lock, w) && Carriable(f)
    case Take(w, key) => w in s.waiting && CanStep(s.conn, Acquire(w, s.waiting[w], key), client)
    case OnConn(step) => !step.Acquire? && CanStep(s.conn, step, client)
  }

  function Asked(s: Shared, w: Owner): seq<Frame> {
    if w in s.asked then s.asked[w] else []
  }

  function Waiting(s: Shared, w: Owner): seq<Frame> {
    if w in s.waiting then [s.waiting[w]] else []
  }

  /** A step that cannot be taken changes nothing, so every sequence of steps is a run. */
  function NextCall(s: Shared, step: CallStep, client: bool): Shared {
    if !CanCall(s, step, client) then s
    else
      match step
      case Ask(w, f) => s.(waiting := s.waiting[w := f], asked := s.asked[w := Asked(s, w) + [f]])
      case Take(w, key) =>
        s.(conn := StepConn(s.conn, Acquire(w, s.waiting[w], key), client), waiting := s.waiting - {w})
      case OnConn(step) => s.(conn := StepConn(s.conn, step, client))
  }

  function CallsFrom(s: Shared, steps: seq<CallStep>, client: bool): Shared {
    if steps == [] then s else NextCall(CallsFrom(s, steps[..|steps| - 1], client), steps[|steps| - 1], client)
  }

  function RunCalls(steps: seq<CallStep>, client: bool): Shared {
    CallsFrom(QUIET, steps, client)
  }

  ghost predicate CallsOk(s: Shared, client: bool) {
    && ConnOk(s.conn, client)
    && (forall w :: Asked(s, w) == Begun(s.conn, w) + Waiting(s, w))
    && (forall w | w in s.waiting :: Carriable(s.waiting[w]))
  }

  lemma NextCallKeeps(s: Shared, step: CallStep, client: bool)
    requires CallsOk(s, client) && CanCall(s, step, client) && !(step.OnConn? && step.step.FailWrite?)
    ensures CallsOk(NextCall(s, step, client), client)
  {
    hide ConnOk, Begun, Carriable, StepConn;
    var s' := NextCall(s, step, client);
    match step
    case Ask(w, f) =>
      AskedGrows(Begun(s.conn, w), f);
    case Take(w, key) =>
      var take := Acquire(w, s.waiting[w], key);
      StepKeepsConn(s.conn, take, client);
      forall v ensures Asked(s', v) == Begun(s'.conn, v) + Waiting(s', v) {
        StepBegins(s.conn, take, client, v);
        AskedGrows(Begun(s.conn, v), s.waiting[w]);
      }
    case OnConn(inner) =>
      StepKeepsConn(s.conn, inner, client);
      forall v ensures Asked(s', v) == Begun(s'.conn, v) + Waiting(s', v) {
        StepBegins(s.conn, inner, client, v);
      }
  }

  lemma AskedGrows(begun: seq<Frame>, f: Frame)
    ensures begun + [] == begun && (begun + [f]) + [] == begun + [f]
  {}

  lemma {:induction false} RunCallsOk(steps: seq<CallStep>, client: bool)
    ensures var s := RunCalls(steps, client); !s.conn.failed ==> CallsOk(s, client)
    decreases |steps|
  {
    hide CallsOk, CanStep, StepConn;
    if steps == [] {
      QuietIsOk(client);
    } else {
      var before, step := RunCalls(steps[..|steps| - 1], client), steps[|steps| - 1];
      RunCallsOk(steps[..|steps| - 1], client);
      FailureIsRemembered(before, step, client);
      if CallsOk(before, client) && CanCall(before, step, client) && !(step.OnConn? && step.step.FailWrite?) {
        NextCallKeeps(before, step, client);
      }
    }
  }

  lemma QuietIsOk(client: bool)
    ensures CallsOk(QUIET, client)
  {
    UnusedIsOk(client);
  }

  lemma FailureIsRemembered(s: Shared, step: CallStep, client: bool)
    ensures NextCall(s, step, client).conn.failed ==
            (s.conn.failed || (CanCall(s, step, client) && step.OnConn? && step.step.FailWrite?))
  {}

  /** Any number of goroutines in Read, Write and Close of one wsConn, in any interleaving: as long as no
      write fails the peer finds whole frames and at most one unfinished one; each caller's frames are on
      the connection in its own order; and a caller whose calls have all returned has all of them there. */
  lemma CallersNeverTear(steps: seq<CallStep>, client: bool)
    ensures var s := RunCalls(steps, client);
            !s.conn.failed ==>
              && DecodeAll(s.conn.wire, client) == (FramesOf(SentOf(s.conn.log)), Torn(s.conn.lock))
              && (Torn(s.conn.lock) != [] ==> s.conn.lock.Held? && Torn(s.conn.lock) < EncodeSent(s.conn.lock.sent))
              && (forall w :: FramesBy(s.conn.log, w) <= Asked(s, w))
              && (forall w | w !in s.waiting && !Holds(s.conn.lock, w) :: FramesBy(s.conn.log, w) == Asked(s, w))
  {
    hide RunCalls, DecodeAll, SentOf, FramesOf, FramesBy, Torn, EncodeSent, ConnOk;
    var s := RunCalls(steps, client);
    RunCallsOk(steps, client);
    if !s.conn.failed {
      ConnDecodes(s.conn, client);
    }
  }

  // ---------- No caller gets stuck ----------

  ghost predicate Leads(s: Shared, s': Shared, client: bool) {
    exists steps :: CallsFrom(s, steps, client) == s'
  }

  lemma LeadsNext(s: Shared, step: CallStep, client: bool)
    ensures Leads(s, NextCall(s, step, client), client)
  {
    hide NextCall;
    assert [step][..0] == [];
    assert CallsFrom(s, [step], client) == NextCall(CallsFrom(s, [], client), step, client);
  }

  lemma LeadsItself(s: Shared, client: bool)
    ensures Leads(s, s, client)
  {
    assert CallsFrom(s, [], client) == s;
  }

  lemma {:induction false} CallsConcat(s: Shared, a: seq<CallStep>, b: seq<CallStep>, client: bool)
    ensures CallsFrom(s, a + b, client) == CallsFrom(CallsFrom(s, a, client), b, client)
    decreases |b|
  {
    hide NextCall;
    if b == [] {
      assert a + b == a;
    } else {
      CallsConcat(s, a, b[..|b| - 1], client);
      assert (a + b)[..|a + b| - 1] == a + b[..|b| - 1];
    }
  }

  lemma LeadsOn(s: Shared, s': Shared, s'': Shared, client: bool)
    requires Leads(s, s', client) && Leads(s', s'', client)
    ensures Leads(s, s'', client)
  {
    hide CallsFrom;
    var a :| CallsFrom(s, a, client) == s';
    var b :| CallsFrom(s', b, client) == s'';
    CallsConcat(s, a, b, client);
  }

  /** The holder of the lock can finish its frame and let go. */
  lemma LetGo(s: Shared, client: bool) returns (s': Shared)
    requires !s.conn.failed
    ensures Leads(s, s', client) && s' == s.(conn := s'.conn) && !s'.conn.failed && s'.conn.lock.Free?
  {
    hide Leads, Header, Body;
    s' := s;
    LeadsItself(s, client);
    if s'.conn.lock.Held? && s'.conn.lock.progress.Nothing? {
      LeadsNext(s', OnConn(WriteHeader), client);
      s' := NextCall(s', OnConn(WriteHeader), client);
    }
    if s'.conn.lock.Held? && s'.conn.lock.progress.HeaderOut? {
      LeadsNext(s', OnConn(WriteBody), client);
      LeadsOn(s, s', NextCall(s', OnConn(WriteBody), client), client);
      s' := NextCall(s', OnConn(WriteBody), client);
    }
    if s'.conn.lock.Held? {
      LeadsNext(s', OnConn(Release), client);
      LeadsOn(s, s', NextCall(s', OnConn(Release), client), client);
      s' := NextCall(s', OnConn(Release), client);
    }
  }

  /** Every waiting caller can take its turn. */
  lemma {:induction false} AllTakeTurns(s: Shared, client: bool) returns (s': Shared)
    requires !s.conn.failed
    ensures Leads(s, s', client) && !s'.conn.failed && s'.conn.lock.Free? && s'.waiting == map[]
    ensures s'.asked == s.asked
    decreases |s.waiting|
  {
    hide Leads, Header, Body;
    var s1 := LetGo(s, client);
    if s1.waiting == map[] {
      return s1;
    }
    var w :| w in s1.waiting;
    var take := Take(w, if client then Some([0, 0, 0, 0]) else None);
    var s2 := NextCall(s1, take, client);
    LeadsNext(s1, take, client);
    s' := AllTakeTurns(s2, client);
    LeadsOn(s, s1, s2, client);
    LeadsOn(s, s2, s', client);
  }

  /** Before a failure no caller is stuck: some continuation without further calls lets all of them return,
      with every frame asked for on the connection. */
  lemma CallersCanReturn(steps: seq<CallStep>, client: bool)
    ensures var s := RunCalls(steps, client);
            !s.conn.failed ==>
              exists more :: var s' := RunCalls(steps + more, client);
                && !s'.conn.failed && s'.waiting == map[] && s'.conn.lock.Free?
                && forall w :: FramesBy(s'.conn.log, w) == Asked(s, w)
  {
    hide NextCall, FramesBy;
    var s := RunCalls(steps, client);
    if !s.conn.failed {
      var s' := AllTakeTurns(s, client);
      var more :| CallsFrom(s, more, client) == s';
      CallsConcat(QUIET, steps, more, client);
      CallersNeverTear(steps + more, client);
      hide CallsFrom;
      forall w
        ensures FramesBy(s'.conn.log, w) == Asked(s, w)
      {
        assert Asked(s', w) == Asked(s, w);
      }
    }
  }
}
