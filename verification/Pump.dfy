/** The two goroutines of pump in internal/wscarrier, interleaved in every possible way. The forwarder
    turns plainIn into data frames and ends with a close; the answerer reads the peer's frames and
    answers pings. Both write to one connection. */
module Pump {
  import opened ByteSeq
  import opened Carrier
  import opened Frames
  import opened Options
  import opened SharedConn

  const FORWARDER: Owner := 0
  const ANSWERER: Owner := 1

  /** `decided` and `taken` are histories: the frames the forwarder has set out to write and the frames
      the answerer has read. `forwards` and `answers` are what each has decided and not begun. */
  datatype State = State(
    plainIn: Bytes, decided: seq<Frame>, forwards: seq<Frame>, forwarderDone: bool,
    input: Bytes, taken: seq<Frame>, answers: seq<Frame>, answererDone: bool, plainOut: Bytes,
    conn: Conn)

  function Init(plainIn: Bytes, input: Bytes): State {
    State(plainIn, [], [], false, input, [], [], false, [], UNUSED)
  }

  datatype Step =
    | ReadPlain(n: nat, err: bool)          // plainIn.Read
    | ReadPeer                              // readFrame, and plainOut.Write for data
    | Begin(owner: Owner, key: Option<Key>) // writeMu.Lock for the next frame
    | Write(step: ConnStep)                 // the rest of writeFrame, and writeMu.Unlock

  /** The forwarder's buffer. */
  const CHUNK := 32 * 1024

  function Pending(s: State, w: Owner): seq<Frame> {
    if w == FORWARDER then s.forwards else if w == ANSWERER then s.answers else []
  }

  predicate Enabled(s: State, step: Step, client: bool) {
    match step
    case ReadPlain(n, _) =>
      !s.forwarderDone && s.forwards == [] && !Holds(s.conn.lock, FORWARDER) && n <= CHUNK && n <= |s.plainIn|
    case ReadPeer => !s.answererDone && s.answers == [] && !Holds(s.conn.lock, ANSWERER)
    case Begin(w, key) => Pending(s, w) != [] && CanStep(s.conn, Acquire(w, Pending(s, w)[0], key), client)
    case Write(step) => !step.Acquire? && CanStep(s.conn, step, client)
  }

  /** What the forwarder writes for one Read: n bytes, and a close after an error. */
  function Forwards(plain: Bytes, n: nat, err: bool): seq<Frame>
    requires n <= |plain|
  {
    (if n > 0 then [Frame(2, plain[..n])] else []) + (if err then [Frame(8, [])] else [])
  }

  /** A step that is not enabled changes nothing, so every sequence of steps is a run. */
  function Next(s: State, step: Step, client: bool): State {
    if !Enabled(s, step, client) then s
    else
      match step
      case ReadPlain(n, err) =>
        var more := Forwards(s.plainIn, n, err);
        s.(plainIn := s.plainIn[n..], decided := s.decided + more, forwards := more, forwarderDone := err)
      case ReadPeer =>
        var d := Decode(s.input, !client);
        if d.Bad? then s.(answererDone := true)
        else
          var s' := s.(input := d.rest, taken := s.taken + [d.frame]);
          if IsData(d.frame) then s'.(plainOut := s.plainOut + d.frame.payload)
          else if d.frame.opcode == 8 then s'.(answererDone := true)
          else if d.frame.opcode == 9 then s'.(answers := [Frame(10, d.frame.payload)])
          else s'
      case Begin(w, key) =>
        var s' := s.(conn := StepConn(s.conn, Acquire(w, Pending(s, w)[0], key), client));
        if w == FORWARDER then s'.(forwards := s.forwards[1..]) else s'.(answers := s.answers[1..])
      case Write(step) => s.(conn := StepConn(s.conn, step, client))
  }

  function From(s: State, steps: seq<Step>, client: bool): State {
    if steps == [] then s else Next(From(s, steps[..|steps| - 1], client), steps[|steps| - 1], client)
  }

  function Exec(plainIn: Bytes, input: Bytes, steps: seq<Step>, client: bool): State {
    From(Init(plainIn, input), steps, client)
  }

  // ---------- The invariant, one fact per part of the state ----------

  predicate ForwarderFrame(f: Frame) {
    f == Frame(8, []) || (f.opcode == 2 && |f.payload| <= CHUNK)
  }

  predicate AnswererFrame(f: Frame) {
    f.opcode == 10 && |f.payload| <= MAX_PAYLOAD
  }

  /** A close is decided when the forwarder is done, and then it is the last frame. */
  predicate Closing(decided: seq<Frame>, done: bool) {
    if done then EndsInClose(decided) else NoClose(decided)
  }

  /** The forwarder: what it has begun and still has to write is what it decided, and that carries exactly
      what it has read. */
  ghost predicate ForwarderOk(s: State, plainIn: Bytes) {
    && s.decided == Begun(s.conn, FORWARDER) + s.forwards
    && plainIn == DataOf(s.decided) + s.plainIn
    && Closing(s.decided, s.forwarderDone)
    && (forall i | 0 <= i < |s.forwards| :: ForwarderFrame(s.forwards[i]))
  }

  /** The answerer: one pong per ping read, in order; data goes to plainOut. */
  ghost predicate AnswererOk(s: State, input: Bytes, client: bool) {
    && PongsFor(PingsOf(s.taken)) == Begun(s.conn, ANSWERER) + s.answers
    && Consumes(input, s.taken, s.input, !client)
    && s.plainOut == DataOf(s.taken)
    && (forall i | 0 <= i < |s.answers| :: AnswererFrame(s.answers[i]))
  }

  /** It goes on up to the first close or the first bytes that are no frame, and no further. */
  ghost predicate AnswererEnds(s: State, client: bool) {
    if s.answererDone then
      && s.answers == [] && !Holds(s.conn.lock, ANSWERER)
      && (EndsInClose(s.taken) || (NoClose(s.taken) && Decode(s.input, !client).Bad?))
    else NoClose(s.taken)
  }

  /** Everybody but the forwarder writes pongs only. */
  predicate OnlyPongs(log: seq<Entry>) {
    forall i | 0 <= i < |log| :: log[i].owner == FORWARDER || log[i].sent.frame.opcode == 10
  }

  predicate PongHeld(lock: Lock) {
    lock.Held? ==> lock.owner == FORWARDER || lock.sent.frame.opcode == 10
  }

  ghost predicate Inv(s: State, plainIn: Bytes, input: Bytes, client: bool) {
    && ConnOk(s.conn, client)
    && ForwarderOk(s, plainIn)
    && AnswererOk(s, input, client)
    && AnswererEnds(s, client)
    && OnlyPongs(s.conn.log) && PongHeld(s.conn.lock)
  }

  // ---------- Every step keeps it ----------

  lemma InitInv(plainIn: Bytes, input: Bytes, client: bool)
    ensures Inv(Init(plainIn, input), plainIn, input, client)
  {
    hide Decode, ConnOk, Begun;
    UnusedIsOk(client);
  }

  lemma ReadPlainInv(s: State, n: nat, err: bool, plainIn: Bytes, input: Bytes, client: bool)
    requires Inv(s, plainIn, input, client) && Enabled(s, ReadPlain(n, err), client)
    ensures Inv(Next(s, ReadPlain(n, err), client), plainIn, input, client)
  {
    hide Decode, ConnOk, Consumes, Begun, DataOf, PongsFor, PingsOf, Forwards, Closing, ForwarderFrame;
    var more := Forwards(s.plainIn, n, err);
    assert s.decided == Begun(s.conn, FORWARDER);
    ForwardsAre(s.plainIn, n, err);
    ClosingGrows(s.decided, s.plainIn, n, err);
    DataOfConcat(s.decided, more);
    ConcatAssociates(DataOf(s.decided), s.plainIn[..n], s.plainIn[n..]);
    assert s.plainIn[..n] + s.plainIn[n..] == s.plainIn;
  }

  lemma ForwardsAre(plain: Bytes, n: nat, err: bool)
    requires n <= |plain| && n <= CHUNK
    ensures var more := Forwards(plain, n, err);
            DataOf(more) == plain[..n] && forall i | 0 <= i < |more| :: ForwarderFrame(more[i])
  {
    var a := if n > 0 then [Frame(2, plain[..n])] else [];
    var b := if err then [Frame(8, [])] else [];
    DataOfConcat(a, b);
    assert [Frame(2, plain[..n])][..0] == [] && [Frame(8, [])][..0] == [];
    assert DataOf(a) == plain[..n] && DataOf(b) == [];
  }

  lemma ClosingGrows(decided: seq<Frame>, plain: Bytes, n: nat, err: bool)
    requires n <= |plain| && Closing(decided, false)
    ensures Closing(decided + Forwards(plain, n, err), err)
  {
    var data := if n > 0 then [Frame(2, plain[..n])] else [];
    var all := decided + Forwards(plain, n, err);
    if err {
      assert all[..|all| - 1] == decided + data;
    }
  }

  lemma ReadPeerInv(s: State, plainIn: Bytes, input: Bytes, client: bool)
    requires Inv(s, plainIn, input, client) && Enabled(s, ReadPeer, client)
    ensures Inv(Next(s, ReadPeer, client), plainIn, input, client)
  {
    hide Decode, ConnOk, Consumes, Begun, DataOf, PongsFor, PingsOf, Closing, ForwarderFrame, Forwards;
    var d := Decode(s.input, !client);
    if d.Got? {
      TakenGrows(input, s.taken, s.input, client);
      assert Begun(s.conn, ANSWERER) + [] == Begun(s.conn, ANSWERER);
    }
  }

  lemma TakenGrows(input: Bytes, taken: seq<Frame>, rest: Bytes, client: bool)
    requires Consumes(input, taken, rest, !client) && Decode(rest, !client).Got?
    ensures var d := Decode(rest, !client);
            var taken' := taken + [d.frame];
            && Consumes(input, taken', d.rest, !client)
            && (NoClose(taken) ==> if d.frame.opcode == 8 then EndsInClose(taken') else NoClose(taken'))
            && DataOf(taken') == (if IsData(d.frame) then DataOf(taken) + d.frame.payload else DataOf(taken))
            && PongsFor(PingsOf(taken')) ==
               PongsFor(PingsOf(taken)) + (if d.frame.opcode == 9 then [Frame(10, d.frame.payload)] else [])
  {
    hide Decode, Consumes, DataOf, PongsFor, PingsOf;
    var d := Decode(rest, !client);
    ConsumesOne(rest, !client);
    ConsumesConcat(input, taken, rest, [d.frame], d.rest, !client);
    DataOfSnoc(taken, d.frame);
    assert (taken + [d.frame])[..|taken|] == taken;
    if d.frame.opcode == 9 {
      PongsSnoc(taken, d.frame);
    }
    assert DataOf(taken) + [] == DataOf(taken) && PingsOf(taken) + [] == PingsOf(taken);
    assert PongsFor(PingsOf(taken)) + [] == PongsFor(PingsOf(taken));
  }

  lemma BeginInv(s: State, w: Owner, key: Option<Key>, plainIn: Bytes, input: Bytes, client: bool)
    requires Inv(s, plainIn, input, client) && Enabled(s, Begin(w, key), client)
    ensures Inv(Next(s, Begin(w, key), client), plainIn, input, client)
  {
    hide Decode, ConnOk, Consumes, Begun, DataOf, PongsFor, PingsOf, Closing, StepConn;
    var acquire := Acquire(w, Pending(s, w)[0], key);
    StepKeepsConn(s.conn, acquire, client);
    StepBegins(s.conn, acquire, client, FORWARDER);
    StepBegins(s.conn, acquire, client, ANSWERER);
    StepLogs(s.conn, acquire, client);
    TakeFromQueue(Begun(s.conn, w), Pending(s, w));
  }

  lemma TakeFromQueue(begun: seq<Frame>, q: seq<Frame>)
    requires q != []
    ensures begun + q == (begun + [q[0]]) + q[1..]
  {}

  lemma WriteInv(s: State, step: ConnStep, plainIn: Bytes, input: Bytes, client: bool)
    requires Inv(s, plainIn, input, client) && Enabled(s, Write(step), client) && !step.FailWrite?
    ensures Inv(Next(s, Write(step), client), plainIn, input, client)
  {
    hide Decode, ConnOk, Consumes, Begun, DataOf, PongsFor, PingsOf, Closing, StepConn;
    StepKeepsConn(s.conn, step, client);
    StepBegins(s.conn, step, client, FORWARDER);
    StepBegins(s.conn, step, client, ANSWERER);
    StepLogs(s.conn, step, client);
  }

  /** Only the frame under the lock is logged. */
  lemma StepLogs(c: Conn, step: ConnStep, client: bool)
    requires CanStep(c, step, client) && OnlyPongs(c.log) && PongHeld(c.lock)
    requires step.Acquire? ==> step.owner == FORWARDER || step.frame.opcode == 10
    ensures var c' := StepConn(c, step, client);
            && OnlyPongs(c'.log) && PongHeld(c'.lock) && c'.failed == (c.failed || step.FailWrite?)
            && forall w :: Holds(c'.lock, w) ==> Holds(c.lock, w) || (step.Acquire? && step.owner == w)
  {
    hide Header, Body;
  }

  lemma NextInv(s: State, step: Step, plainIn: Bytes, input: Bytes, client: bool)
    ensures Next(s, step, client).conn.failed ==
            (s.conn.failed || (step.Write? && step.step.FailWrite? && Enabled(s, step, client)))
    ensures Inv(s, plainIn, input, client) && !Next(s, step, client).conn.failed ==>
              Inv(Next(s, step, client), plainIn, input, client)
  {
    hide Inv, Decode, Forwards;
    if Inv(s, plainIn, input, client) && Enabled(s, step, client) {
      match step
      case ReadPlain(n, err) => ReadPlainInv(s, n, err, plainIn, input, client);
      case ReadPeer => ReadPeerInv(s, plainIn, input, client);
      case Begin(w, key) => BeginInv(s, w, key, plainIn, input, client);
      case Write(inner) =>
        if !inner.FailWrite? {
          WriteInv(s, inner, plainIn, input, client);
        }
    }
  }

  lemma {:induction false} ExecInv(plainIn: Bytes, input: Bytes, steps: seq<Step>, client: bool)
    ensures var s := Exec(plainIn, input, steps, client);
            !s.conn.failed ==> Inv(s, plainIn, input, client)
    decreases |steps|
  {
    hide Inv, Next;
    if steps == [] {
      InitInv(plainIn, input, client);
    } else {
      ExecInv(plainIn, input, steps[..|steps| - 1], client);
      NextInv(Exec(plainIn, input, steps[..|steps| - 1], client), steps[|steps| - 1], plainIn, input, client);
    }
  }

  // ---------- Data on the connection ----------

  /** All data comes from the forwarder. */
  lemma {:induction false} LogData(log: seq<Entry>)
    requires OnlyPongs(log)
    ensures DataOf(FramesOf(SentOf(log))) == DataOf(FramesBy(log, FORWARDER))
    decreases |log|
  {
    if log != [] {
      hide DataOf, FramesBy, FramesOf, SentOf, EncodeLog;
      var front, e := log[..|log| - 1], log[|log| - 1];
      LogData(front);
      LogSnoc(front, e);
      assert front + [e] == log;
      DataOfSnoc(FramesOf(SentOf(front)), e.sent.frame);
      DataOfSnoc(FramesBy(front, FORWARDER), e.sent.frame);
      assert DataOf(FramesOf(SentOf(front))) + [] == DataOf(FramesOf(SentOf(front)));
      assert FramesBy(front, FORWARDER) + [] == FramesBy(front, FORWARDER);
    }
  }

  lemma DataIsPrefix(s: State, plainIn: Bytes)
    requires ForwarderOk(s, plainIn) && OnlyPongs(s.conn.log)
    ensures FramesBy(s.conn.log, FORWARDER) <= s.decided
    ensures DataOf(FramesOf(SentOf(s.conn.log))) <= plainIn
  {
    hide FramesBy, DataOf, SentOf, FramesOf, OnlyPongs;
    var mine := FramesBy(s.conn.log, FORWARDER);
    var rest := InHand(s.conn.lock, FORWARDER) + s.forwards;
    LogData(s.conn.log);
    assert s.decided == mine + rest;
    DataOfConcat(mine, rest);
    ConcatAssociates(DataOf(mine), DataOf(rest), s.plainIn);
  }

  lemma {:induction false} FramesByPrefix(log: seq<Entry>, n: nat, w: Owner)
    requires n <= |log|
    ensures FramesBy(log[..n], w) <= FramesBy(log, w)
    decreases |log|
  {
    if n == |log| {
      assert log[..n] == log;
    } else {
      FramesByPrefix(log[..|log| - 1], n, w);
      assert log[..|log| - 1][..n] == log[..n];
    }
  }

  /** Once a close is on the connection, everything the forwarder decided is. */
  lemma {:induction false} CloseComesLast(log: seq<Entry>, k: nat, decided: seq<Frame>, done: bool)
    requires OnlyPongs(log) && k < |log| && log[k].sent.frame.opcode == 8
    requires FramesBy(log, FORWARDER) <= decided && Closing(decided, done)
    ensures FramesBy(log[..k + 1], FORWARDER) == decided
  {
    hide FramesBy;
    var upTo := FramesBy(log[..k + 1], FORWARDER);
    FramesByPrefix(log, k + 1, FORWARDER);
    FramesByLast(log[..k + 1]);
    var n := |upTo| - 1;
    assert decided[n] == upTo[n] == log[k].sent.frame;
    assert forall i | 0 <= i < |decided| - 1 :: decided[..|decided| - 1][i] == decided[i];
  }

  lemma FramesByLast(log: seq<Entry>)
    requires log != [] && log[|log| - 1].owner == FORWARDER
    ensures var fs := FramesBy(log, FORWARDER); fs != [] && fs[|fs| - 1] == log[|log| - 1].sent.frame
  {}

  // ---------- Nothing gets stuck ----------

  ghost predicate Leads(s: State, s': State, client: bool) {
    exists steps :: From(s, steps, client) == s'
  }

  lemma LeadsItself(s: State, client: bool)
    ensures Leads(s, s, client)
  {
    assert From(s, [], client) == s;
  }

  lemma LeadsNext(s: State, step: Step, client: bool)
    ensures Leads(s, Next(s, step, client), client)
  {
    hide Next;
    assert [step][..0] == [];
    assert From(s, [step], client) == Next(From(s, [], client), step, client);
  }

  lemma {:induction false} FromConcat(s: State, a: seq<Step>, b: seq<Step>, client: bool)
    ensures From(s, a + b, client) == From(From(s, a, client), b, client)
    decreases |b|
  {
    hide Next;
    if b == [] {
      assert a + b == a;
    } else {
      FromConcat(s, a, b[..|b| - 1], client);
      assert (a + b)[..|a + b| - 1] == a + b[..|b| - 1];
    }
  }

  lemma LeadsOn(s: State, s': State, s'': State, client: bool)
    requires Leads(s, s', client) && Leads(s', s'', client)
    ensures Leads(s, s'', client)
  {
    hide From;
    var a :| From(s, a, client) == s';
    var b :| From(s', b, client) == s'';
    FromConcat(s, a, b, client);
  }

  /** A good state before any failure; its lock is free. */
  ghost predicate Open(s: State, plainIn: Bytes, input: Bytes, client: bool) {
    Inv(s, plainIn, input, client) && !s.conn.failed && s.conn.lock.Free?
  }

  lemma OneWrite(s: State, step: ConnStep, plainIn: Bytes, input: Bytes, client: bool) returns (s': State)
    requires Inv(s, plainIn, input, client) && !s.conn.failed
    requires Enabled(s, Write(step), client) && !step.FailWrite?
    ensures Leads(s, s', client) && Inv(s', plainIn, input, client) && !s'.conn.failed
    ensures s' == s.(conn := StepConn(s.conn, step, client))
  {
    hide Leads, Inv, StepConn;
    s' := Next(s, Write(step), client);
    LeadsNext(s, Write(step), client);
    NextInv(s, Write(step), plainIn, input, client);
  }

  /** The holder of the lock can finish its frame and let go. */
  lemma LetGo(s: State, plainIn: Bytes, input: Bytes, client: bool) returns (s': State)
    requires Inv(s, plainIn, input, client) && !s.conn.failed
    ensures Leads(s, s', client) && Open(s', plainIn, input, client) && s' == s.(conn := s'.conn)
  {
    hide Leads, Inv, Header, Body;
    s' := s;
    LeadsItself(s, client);
    if s'.conn.lock.Held? && s'.conn.lock.progress.Nothing? {
      s' := OneWrite(s', WriteHeader, plainIn, input, client);
    }
    if s'.conn.lock.Held? && s'.conn.lock.progress.HeaderOut? {
      var s1 := OneWrite(s', WriteBody, plainIn, input, client);
      LeadsOn(s, s', s1, client);
      s' := s1;
    }
    if s'.conn.lock.Held? {
      var s1 := OneWrite(s', Release, plainIn, input, client);
      LeadsOn(s, s', s1, client);
      s' := s1;
    }
  }

  /** Begin a frame that is due, and finish it. */
  lemma OneFrame(s: State, w: Owner, plainIn: Bytes, input: Bytes, client: bool) returns (s': State)
    requires Open(s, plainIn, input, client) && (w == FORWARDER || w == ANSWERER) && Pending(s, w) != []
    ensures Leads(s, s', client) && Open(s', plainIn, input, client)
    ensures w == FORWARDER ==> s' == s.(forwards := s.forwards[1..], conn := s'.conn)
    ensures w == ANSWERER ==> s' == s.(answers := s.answers[1..], conn := s'.conn)
  {
    hide Leads, Inv, Header, Body;
    var key: Option<Key> := if client then Some([0, 0, 0, 0]) else None;
    var s1 := Next(s, Begin(w, key), client);
    LeadsNext(s, Begin(w, key), client);
    NextInv(s, Begin(w, key), plainIn, input, client);
    hide Next;
    s' := LetGo(s1, plainIn, input, client);
    LeadsOn(s, s1, s', client);
  }

  /** Everything a goroutine has decided and not begun can be written. */
  lemma {:induction false} Drain(s: State, w: Owner, plainIn: Bytes, input: Bytes, client: bool) returns (s': State)
    requires Open(s, plainIn, input, client) && (w == FORWARDER || w == ANSWERER)
    ensures Leads(s, s', client) && Open(s', plainIn, input, client)
    ensures s' == if w == FORWARDER then s.(forwards := [], conn := s'.conn) else s.(answers := [], conn := s'.conn)
    decreases |Pending(s, w)|
  {
    if Pending(s, w) == [] {
      LeadsItself(s, client);
      return s;
    }
    hide Leads, Open;
    var s1 := OneFrame(s, w, plainIn, input, client);
    s' := Drain(s1, w, plainIn, input, client);
    LeadsOn(s, s1, s', client);
  }

  lemma {:induction false} ForwarderFinishes(s: State, plainIn: Bytes, input: Bytes, client: bool) returns (s': State)
    requires Open(s, plainIn, input, client)
    ensures Leads(s, s', client) && Open(s', plainIn, input, client)
    ensures s'.forwarderDone && s'.forwards == [] && s'.plainIn == if s.forwarderDone then s.plainIn else []
    decreases if s.forwarderDone then 0 else 1, |s.plainIn|
  {
    hide Leads, Inv, Forwards;
    var s1 := Drain(s, FORWARDER, plainIn, input, client);
    if s.forwarderDone {
      return s1;
    }
    var n := if |s.plainIn| <= CHUNK then |s.plainIn| else CHUNK;
    var read := ReadPlain(n, n == |s.plainIn|);
    var s2 := Next(s1, read, client);
    LeadsNext(s1, read, client);
    NextInv(s1, read, plainIn, input, client);
    s' := ForwarderFinishes(s2, plainIn, input, client);
    LeadsOn(s, s1, s2, client);
    LeadsOn(s, s2, s', client);
  }

  lemma {:induction false} AnswererFinishes(s: State, plainIn: Bytes, input: Bytes, client: bool) returns (s': State)
    requires Open(s, plainIn, input, client)
    ensures Leads(s, s', client) && Open(s', plainIn, input, client) && s'.answererDone
    ensures s'.forwarderDone == s.forwarderDone && s'.forwards == s.forwards && s'.plainIn == s.plainIn
    decreases if s.answererDone then 0 else 1, |s.input|
  {
    hide Leads, Inv, Decode;
    var s1 := Drain(s, ANSWERER, plainIn, input, client);
    if s.answererDone {
      return s1;
    }
    var s2 := Next(s1, ReadPeer, client);
    LeadsNext(s1, ReadPeer, client);
    NextInv(s1, ReadPeer, plainIn, input, client);
    s' := AnswererFinishes(s2, plainIn, input, client);
    LeadsOn(s, s1, s2, client);
    LeadsOn(s, s2, s', client);
  }

  // ---------- The main theorems ----------

  /** In every interleaving, as long as no write fails: a peer that decodes the connection finds exactly
      the logged frames and then at most one unfinished frame, which belongs to the lock holder; each
      writer's frames are in its own order; the data is a prefix of plainIn; the pongs answer the pings
      read, in order. */
  lemma FramingIsNeverTorn(plainIn: Bytes, input: Bytes, steps: seq<Step>, client: bool)
    ensures var s := Exec(plainIn, input, steps, client);
            var frames := FramesOf(SentOf(s.conn.log));
            !s.conn.failed ==>
              && DecodeAll(s.conn.wire, client) == (frames, Torn(s.conn.lock))
              && (Torn(s.conn.lock) != [] ==> s.conn.lock.Held? && Torn(s.conn.lock) < EncodeSent(s.conn.lock.sent))
              && FramesBy(s.conn.log, FORWARDER) <= s.decided
              && DataOf(frames) <= plainIn
              && FramesBy(s.conn.log, ANSWERER) <= PongsFor(PingsOf(s.taken))
              && Consumes(input, s.taken, s.input, !client) && s.plainOut == DataOf(s.taken)
  {
    hide Exec, Decode, DecodeAll, ConnOk, Consumes, FramesBy, DataOf, PongsFor, PingsOf, Torn, SentOf, FramesOf,
         EncodeSent;
    var s := Exec(plainIn, input, steps, client);
    ExecInv(plainIn, input, steps, client);
    if !s.conn.failed {
      ConnDecodes(s.conn, client);
      DataIsPrefix(s, plainIn);
    }
  }

  /** The other direction: plainOut has got a prefix of the data that the peer sent before its first close, or
      before the first bytes that are no frame; a finished answerer has delivered exactly that data, and has
      put exactly one pong per ping before that point on the connection. */
  lemma AnswererDelivers(plainIn: Bytes, input: Bytes, steps: seq<Step>, client: bool)
    ensures var s := Exec(plainIn, input, steps, client);
            var upTo := UpToClose(DecodeAll(input, !client).0);
            !s.conn.failed ==>
              && s.plainOut <= DataOf(upTo)
              && (s.answererDone ==> s.plainOut == DataOf(upTo))
              && (s.answererDone ==> FramesBy(s.conn.log, ANSWERER) == PongsFor(PingsOf(upTo)))
  {
    hide Exec, Decode, DecodeAll, ConnOk, ForwarderOk, Consumes, FramesBy, DataOf, PongsFor, PingsOf, UpToClose;
    var s := Exec(plainIn, input, steps, client);
    ExecInv(plainIn, input, steps, client);
    if !s.conn.failed {
      var taken, more := s.taken, DecodeAll(s.input, !client).0;
      ConsumesIsPrefix(input, taken, s.input, !client);
      UpToCloseIs(taken, more);
      DecodeAllStuck(s.input, !client);
      assert taken + [] == taken;
      var upTo := UpToClose(taken + more);
      DataOfConcat(taken, upTo[|taken|..]);
      assert upTo == taken + upTo[|taken|..];
      assert FramesBy(s.conn.log, ANSWERER) + [] + [] == FramesBy(s.conn.log, ANSWERER);
    }
  }

  /** No state that a run reaches before a failure is stuck: some continuation finishes both goroutines, with
      everything that was or will be read from plainIn on the connection, and everything delivered that the
      peer sent. */
  lemma EverythingCanBeDelivered(plainIn: Bytes, input: Bytes, steps: seq<Step>, client: bool)
    ensures var s := Exec(plainIn, input, steps, client);
            !s.conn.failed ==>
              exists more :: var s' := Exec(plainIn, input, steps + more, client);
                && !s'.conn.failed && s'.forwarderDone && s'.answererDone && ForwarderIdle(s')
                && (!s.forwarderDone ==> s'.plainIn == [])
                && s'.plainOut == DataOf(UpToClose(DecodeAll(input, !client).0))
  {
    var s := Exec(plainIn, input, steps, client);
    ExecInv(plainIn, input, steps, client);
    if !s.conn.failed {
      hide Inv, From, DecodeAll, DataOf, UpToClose;
      var s1 := LetGo(s, plainIn, input, client);
      var s2 := ForwarderFinishes(s1, plainIn, input, client);
      var s3 := AnswererFinishes(s2, plainIn, input, client);
      LeadsOn(s, s1, s2, client);
      LeadsOn(s, s2, s3, client);
      var more :| From(s, more, client) == s3;
      FromConcat(Init(plainIn, input), steps, more, client);
      AnswererDelivers(plainIn, input, steps + more, client);
    }
  }

  /** Nothing the forwarder has read is still on its way. */
  predicate ForwarderIdle(s: State) {
    s.forwards == [] && InHand(s.conn.lock, FORWARDER) == []
  }

  /** End to end: whatever the interleaving on this side and whatever buffer sizes the peer reads with, the
      peer's bytes are a prefix of plainIn. A peer that sees the end of the stream has everything that was
      read from plainIn; so has one that reads to the end of the connection while the forwarder is idle. */
  lemma PeerReadsAPrefix(plainIn: Bytes, input: Bytes, steps: seq<Step>, client: bool, sizes: seq<nat>)
    ensures var s := Exec(plainIn, input, steps, client);
            var run := RunReads(s.conn.wire, sizes, client);
            !s.conn.failed ==>
              && run.out <= plainIn
              && (run.ended == Some(Eof) ==> s.forwarderDone && plainIn == run.out + s.plainIn)
              && (ForwarderIdle(s) && run.ended.Some? && run.ended.value.Fault? ==> plainIn == run.out + s.plainIn)
  {
    hide Exec, Decode, DecodeAll, EncodeLog, Consumes, FramesBy, DataOf, PongsFor, PingsOf, Torn, RunReads,
         SentOf,
         FramesOf, OnlyPongs, Closing, LogOk;
    var s := Exec(plainIn, input, steps, client);
    ExecInv(plainIn, input, steps, client);
    if !s.conn.failed {
      var log := s.conn.log;
      var run := RunReads(s.conn.wire, sizes, client);
      ConnDecodes(s.conn, client);
      ReadWhatWasWritten(SentOf(log), Torn(s.conn.lock), client, sizes, client);
      DataIsPrefix(s, plainIn);
      assert FramesBy(log, FORWARDER) + [] + [] == FramesBy(log, FORWARDER);
      LogData(log);
      if run.ended == Some(Eof) {
        DataUpToClose(s, plainIn, run.state.frames);
      }
    }
  }

  /** Once the forwarder is done and idle, a peer whose buffers are not empty gets everything and then the end
      of the stream, with at most one Read more than there are bytes. */
  lemma PeerReadsEverything(plainIn: Bytes, input: Bytes, steps: seq<Step>, client: bool, sizes: seq<nat>)
    requires Positive(sizes) && |sizes| > |plainIn|
    ensures var s := Exec(plainIn, input, steps, client);
            var run := RunReads(s.conn.wire, sizes, client);
            !s.conn.failed && s.forwarderDone && ForwarderIdle(s) ==>
              run.ended == Some(Eof) && plainIn == run.out + s.plainIn
  {
    hide Exec, Decode, DecodeAll, EncodeLog, AnswererOk, FramesBy, DataOf, Torn, RunReads, SentOf, FramesOf, OnlyPongs,
         LogOk, UpToClose, EndsInClose, NoClose;
    var s := Exec(plainIn, input, steps, client);
    ExecInv(plainIn, input, steps, client);
    if !s.conn.failed && s.forwarderDone && ForwarderIdle(s) {
      var log := s.conn.log;
      DataIsPrefix(s, plainIn);
      assert FramesBy(log, FORWARDER) + [] + [] == FramesBy(log, FORWARDER);
      CloseIsThere(log, s.decided);
      UpToCloseIsShorter(FramesOf(SentOf(log)));
      ConnDecodes(s.conn, client);
      EnoughReadsEnd(s.conn.wire, sizes, client);
      ReadsAreExact(s.conn.wire, sizes, client);
      PeerReadsAPrefix(plainIn, input, steps, client, sizes);
    }
  }

  lemma {:induction false} CloseIsThere(log: seq<Entry>, decided: seq<Frame>)
    requires FramesBy(log, FORWARDER) == decided && EndsInClose(decided)
    ensures !NoClose(FramesOf(SentOf(log)))
    decreases |log|
  {
    if log != [] {
      var front, last := log[..|log| - 1], log[|log| - 1];
      if last.owner != FORWARDER {
        CloseIsThere(front, decided);
        assert FramesOf(SentOf(front)) <= FramesOf(SentOf(log));
        assert forall i | 0 <= i < |front| :: FramesOf(SentOf(front))[i] == FramesOf(SentOf(log))[i];
      } else {
        assert FramesOf(SentOf(log))[|log| - 1] == decided[|decided| - 1];
      }
    }
  }

  lemma UpToCloseIsShorter(fs: seq<Frame>)
    ensures |DataOf(UpToClose(fs))| <= |DataOf(fs)|
  {
    hide DataOf;
    var upTo := UpToClose(fs);
    assert fs == upTo + fs[|upTo|..];
    DataOfConcat(upTo, fs[|upTo|..]);
  }

  lemma DataUpToClose(s: State, plainIn: Bytes, fs: seq<Frame>)
    requires ForwarderOk(s, plainIn) && OnlyPongs(s.conn.log)
    requires fs <= FramesOf(SentOf(s.conn.log)) && EndsInClose(fs)
    ensures s.forwarderDone && DataOf(fs) == DataOf(s.decided)
  {
    hide FramesBy, DataOf;
    var log, k := s.conn.log, |fs| - 1;
    assert fs[k] == log[k].sent.frame;
    assert fs == FramesOf(SentOf(log[..k + 1]));
    DataIsPrefix(s, plainIn);
    CloseComesLast(log, k, s.decided, s.forwarderDone);
    LogData(log[..k + 1]);
    assert FramesBy(log[..k + 1], FORWARDER) <= s.decided;
    FramesByLast(log[..k + 1]);
  }
}
