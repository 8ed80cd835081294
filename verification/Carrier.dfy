/** The byte-stream connection of internal/wscarrier: readFrame and writeFrame over a reader and a
    writer, and wsConn, which turns frames back into a stream. Each method is proved against the
    frame format; the lemmas at the end speak about whole sequences of Read calls. */
module Carrier {
  import opened ByteSeq
  import opened Frames
  import opened Options

  // ---------- The two ends of a connection ----------

  /** The buffered reader: the bytes the peer has sent and nobody has consumed. */
  class ByteReader {
    var pending: Bytes

    constructor (input: Bytes)
      ensures pending == input
    {
      pending := input;
    }

    method ReadByte() returns (b: Option<Byte>)
      modifies this
      ensures old(pending) == [] ==> b == None && pending == []
      ensures old(pending) != [] ==> b == Some(old(pending)[0]) && pending == old(pending)[1..]
    {
      if pending == [] {
        return None;
      }
      b := Some(pending[0]);
      pending := pending[1..];
    }

    /** io.ReadFull: n bytes, or an error after consuming all there is. */
    method ReadFull(n: nat) returns (r: Option<Bytes>)
      modifies this
      ensures |old(pending)| < n ==> r == None && pending == []
      ensures |old(pending)| >= n ==> r == Some(old(pending)[..n]) && pending == old(pending)[n..]
    {
      if |pending| < n {
        pending := [];
        return None;
      }
      r := Some(pending[..n]);
      pending := pending[n..];
    }
  }

  /** The writing side. `clean` says that no Write and no draw of random bytes has failed so far;
      while it holds, what was written is exactly the frames of `log`. */
  class Wire {
    var written: Bytes
    var clean: bool
    ghost var log: seq<Sent>

    ghost predicate Valid()
      reads this
    {
      clean ==> written == EncodeLog(log)
    }

    constructor ()
      ensures Valid() && clean && log == []
    {
      written := [];
      clean := true;
      log := [];
    }

    /** A Write either takes everything or fails after taking some prefix. */
    method Write(p: Bytes) returns (ok: bool)
      modifies this`written, this`clean
      ensures ok ==> written == old(written) + p && clean == old(clean)
      ensures !ok ==> !clean && exists n: nat :: n <= |p| && written == old(written) + p[..n]
    {
      ok := *;
      if ok {
        written := written + p;
      } else {
        var n: nat :| n <= |p|;
        written := written + p[..n];
        clean := false;
      }
    }

    /** crypto/rand: any four bytes, or a failure. */
    method DrawKey() returns (key: Option<Key>)
      modifies this`clean
      ensures key.Some? ==> clean == old(clean)
      ensures key.None? ==> !clean
    {
      var ok: bool := *;
      if ok {
        var k: Key := *;
        key := Some(k);
      } else {
        key := None;
        clean := false;
      }
    }
  }

  // ---------- writeFrame and readFrame ----------

  /** The first bytes of writeFrame's header buffer, before the masking key. */
  method StartHeader(opcode: Byte, l: nat, mask: bool) returns (hdr: Bytes)
    ensures hdr == [0x80 + opcode % 16, SecondByte(mask, ShortLength(l))] + BigEndian(ExtensionLength(l), l)
  {
    hdr := [0x80 + opcode % 16];
    var maskBit := if mask then 0x80 else 0;
    if l < 126 {
      hdr := hdr + [maskBit + l];
    } else if l <= 0xffff {
      hdr := hdr + [maskBit + 126] + BigEndian(2, l);
    } else {
      hdr := hdr + [maskBit + 127] + BigEndian(8, l);
    }
  }

  /** The masking loop of writeFrame, which fills a new slice. */
  method MaskCopy(payload: Bytes, key: Key) returns (out: Bytes)
    ensures out == Mask(payload, key)
    ensures Masks(out, payload, Some(key))
  {
    BodyMasks(payload, Some(key));
    var a := new Byte[|payload|];
    for i := 0 to a.Length
      invariant forall j | 0 <= j < i :: a[j] == Xor(payload[j], key[j % 4])
    {
      a[i] := Xor(payload[i], key[i % 4]);
    }
    out := a[..];
  }

  /** On success the connection has exactly the bytes of one more frame, in two Writes; a failure is never
      silent. */
  method WriteFrame(w: Wire, opcode: Byte, payload: Bytes, mask: bool) returns (ok: bool)
    requires w.Valid() && |payload| < LENGTH_LIMIT
    modifies w
    ensures w.Valid()
    ensures !ok ==> !w.clean && w.log == old(w.log)
    ensures ok ==> w.clean == old(w.clean) && Logged(old(w.log), w.log, Frame(opcode % 16, payload), mask)
    ensures ok ==> old(w.written) <= w.written
    ensures ok ==> IsFrame(w.written[|old(w.written)|..], Frame(opcode % 16, payload), mask)
  {
    hide Xor, BigEndian, Mask, Masks, IsFrame, EncodeLog;
    var hdr := StartHeader(opcode, |payload|, mask);
    var key: Option<Key> := None;
    var out := payload;
    if mask {
      key := w.DrawKey();
      if key.None? {
        return false;
      }
      hdr := hdr + key.value;
      out := MaskCopy(payload, key.value);
    }
    assert hdr == Header(opcode, |payload|, key);
    assert out == Body(payload, key);
    ok := w.Write(hdr);
    if !ok {
      return;
    }
    ok := w.Write(out);
    if !ok {
      return;
    }
    ghost var x := Sent(Frame(opcode % 16, payload), key);
    w.log := w.log + [x];
    WrittenInTwo(old(w.log), x, hdr, out, old(w.written));
    FrameWritten(old(w.written), hdr, out, opcode, payload, key);
  }

  lemma FrameWritten(before: Bytes, hdr: Bytes, out: Bytes, opcode: Byte, payload: Bytes, key: Option<Key>)
    requires |payload| < LENGTH_LIMIT && hdr + out == Encode(opcode, payload, key)
    ensures var after := before + hdr + out;
            before <= after && IsFrame(after[|before|..], Frame(opcode % 16, payload), key.Some?)
  {
    hide IsFrame, Encode;
    EncodeIsFrame(opcode, payload, key);
    assert (before + hdr + out)[|before|..] == hdr + out;
  }

  /** The log grew by one frame, masked or not as asked. */
  ghost predicate Logged(before: seq<Sent>, after: seq<Sent>, f: Frame, mask: bool) {
    |after| == |before| + 1 && after[..|before|] == before && after[|before|].frame == f
      && after[|before|].key.Some? == mask
  }

  lemma WrittenInTwo(log: seq<Sent>, x: Sent, hdr: Bytes, out: Bytes, written: Bytes)
    requires hdr + out == EncodeSent(x)
    ensures written == EncodeLog(log) ==> (written + hdr) + out == EncodeLog(log + [x])
  {
    hide EncodeSent;
    assert (log + [x])[..|log|] == log;
    ConcatAssociates(written, hdr, out);
  }

  datatype ReadFrameResult = Ok(frame: Frame) | Err(error: FrameError)

  method ReadFrame(r: ByteReader, expectMasked: bool) returns (res: ReadFrameResult)
    modifies r
    ensures Decode(old(r.pending), expectMasked) ==
            if res.Ok? then Got(res.frame, r.pending) else Bad(res.error, r.pending)
    ensures res.Ok? ==> StartsWith(old(r.pending), res.frame, r.pending)
  {
    hide Mask, DeclaredLength, StartsWith;
    ghost var s := r.pending;
    var b1 := r.ReadByte();
    if b1.None? {
      return Err(Truncated);
    }
    var b2 := r.ReadByte();
    if b2.None? {
      return Err(Truncated);
    }
    var masked := b2.value >= 0x80;
    if expectMasked && !masked {
      return Err(ExpectedMasked);
    }
    var payload := ReadRest(r, s, b2.value);
    if payload.NoPayload? {
      return Err(payload.error);
    }
    res := Ok(Frame(b1.value % 16, payload.payload));
    DecodeIsExact(s, expectMasked, res.frame, r.pending);
  }

  datatype PayloadResult = Payload(payload: Bytes) | NoPayload(error: FrameError)

  /** readFrame from the length switch on; s is the input from the frame's first byte. */
  method ReadRest(r: ByteReader, ghost s: Bytes, b2: Byte) returns (res: PayloadResult)
    requires |s| >= 2 && s[1] == b2 && r.pending == s[2..]
    modifies r
    ensures Decode(s, IsMasked(b2)) ==
            if res.Payload? then Got(Frame(s[0] % 16, res.payload), r.pending) else Bad(res.error, r.pending)
  {
    hide Mask, BigEndianValue;
    var masked := b2 >= 0x80;
    var length := ReadLength(r, b2 % 128);
    if length.None? {
      return NoPayload(Truncated);
    }
    var l := length.value;
    ghost var off := PayloadOffset(s[1]);
    DropDrop(s, 2, DeclaredExtension(s[1]));
    var maskKey: Key := [0, 0, 0, 0];
    if masked {
      var k := r.ReadFull(4);
      if k.None? {
        return NoPayload(Truncated);
      }
      maskKey := k.value;
      DropDrop(s, off - 4, 4);
    }
    if l > MAX_PAYLOAD {
      return NoPayload(TooLarge);
    }
    if |s| >= off + l {
      DropDrop(s, off, l);
    }
    var payload := ReadPayload(r, l, masked, maskKey);
    if payload.None? {
      return NoPayload(Truncated);
    }
    res := Payload(payload.value);
  }

  method ReadPayload(r: ByteReader, l: nat, masked: bool, key: Key) returns (payload: Option<Bytes>)
    modifies r
    ensures |old(r.pending)| < l ==> payload == None && r.pending == []
    ensures |old(r.pending)| >= l ==>
              && r.pending == old(r.pending)[l..]
              && payload == Some(if masked then Mask(old(r.pending)[..l], key) else old(r.pending)[..l])
  {
    payload := r.ReadFull(l);
    if payload.Some? && masked {
      var unmasked := Unmask(payload.value, key);
      payload := Some(unmasked);
    }
  }

  /** The length switch of readFrame. */
  method ReadLength(r: ByteReader, short: nat) returns (l: Option<nat>)
    requires short < 128
    modifies r
    ensures var ext := if short == 126 then 2 else if short == 127 then 8 else 0;
            && (l.None? <==> |old(r.pending)| < ext)
            && (l.None? ==> r.pending == [])
            && (l.Some? ==> r.pending == old(r.pending)[ext..])
            && (l.Some? ==> l.value == if ext == 0 then short else BigEndianValue(old(r.pending)[..ext]))
  {
    if short == 126 || short == 127 {
      var ext := r.ReadFull(if short == 126 then 2 else 8);
      if ext.None? {
        return None;
      }
      return Some(BigEndianValue(ext.value));
    }
    l := Some(short);
  }

  lemma DropDrop(s: Bytes, i: nat, n: nat)
    requires i + n <= |s|
    ensures s[i..][..n] == s[i..i + n]
    ensures s[i..][n..] == s[i + n..]
  {}

  /** The XOR loop of readFrame, over the payload in place. */
  method Unmask(body: Bytes, key: Key) returns (payload: Bytes)
    ensures payload == Mask(body, key)
    ensures Masks(payload, body, Some(key))
  {
    BodyMasks(body, Some(key));
    var a := new Byte[|body|](i requires 0 <= i < |body| => body[i]);
    for i := 0 to a.Length
      invariant forall j | 0 <= j < i :: a[j] == Xor(body[j], key[j % 4])
      invariant forall j | i <= j < a.Length :: a[j] == body[j]
    {
      a[i] := Xor(a[i], key[i % 4]);
    }
    payload := a[..];
  }

  // ---------- Read calls as steps on values ----------

  datatype Outcome = Data(bytes: Bytes) | Eof | Fault(error: FrameError)

  /** Where a scan for data ended, and every frame it consumed on the way. */
  datatype Scanned = Scanned(outcome: Outcome, rest: Bytes, frames: seq<Frame>)

  function Scan(input: Bytes, expectMasked: bool): (r: Scanned)
    ensures |r.rest| <= |input|
    decreases |input|
  {
    match Decode(input, expectMasked)
    case Bad(error, rest) => Scanned(Fault(error), rest, [])
    case Got(f, rest) =>
      if IsData(f) && f.payload != [] then Scanned(Data(f.payload), rest, [f])
      else if f.opcode == 8 then Scanned(Eof, rest, [f])
      else
        var later := Scan(rest, expectMasked);
        later.(frames := [f] + later.frames)
  }

  /** A reader between calls: unread input, readBuf, and the frames consumed so far. */
  datatype ReadState = ReadState(pending: Bytes, buffered: Bytes, frames: seq<Frame>)

  function Min(a: nat, b: nat): nat {
    if a <= b then a else b
  }

  /** One Read into a buffer of n bytes. */
  function ReadStep(st: ReadState, n: nat, expectMasked: bool): (ReadState, Outcome) {
    if st.buffered != [] then
      var k := Min(n, |st.buffered|);
      (st.(buffered := st.buffered[k..]), Data(st.buffered[..k]))
    else
      var s := Scan(st.pending, expectMasked);
      if s.outcome.Data? then
        var k := Min(n, |s.outcome.bytes|);
        (ReadState(s.rest, s.outcome.bytes[k..], st.frames + s.frames), Data(s.outcome.bytes[..k]))
      else
        (ReadState(s.rest, [], st.frames + s.frames), s.outcome)
  }

  function PongsFor(pings: seq<Bytes>): (fs: seq<Frame>)
    ensures |fs| == |pings|
  {
    seq(|pings|, i requires 0 <= i < |pings| => Frame(10, pings[i]))
  }

  // ---------- wsConn ----------

  class WsConn {
    const client: bool
    const br: ByteReader
    const conn: Wire
    var readBuf: Bytes
    ghost var frames: seq<Frame>

    ghost predicate Valid()
      reads this, br, conn
    {
      conn.Valid()
    }

    ghost function State(): ReadState
      reads this, br
    {
      ReadState(br.pending, readBuf, frames)
    }

    constructor (br: ByteReader, conn: Wire, client: bool)
      requires conn.Valid()
      ensures Valid() && this.br == br && this.conn == conn && this.client == client
      ensures State() == ReadState(br.pending, [], [])
    {
      this.client := client;
      this.br := br;
      this.conn := conn;
      readBuf := [];
      frames := [];
    }

    /** Drains readBuf into p, as bytes.Buffer.Read does. */
    method Drain(p: array<Byte>) returns (n: nat)
      modifies this`readBuf, p
      ensures n <= p.Length && n == Min(p.Length, |old(readBuf)|) <= |old(readBuf)|
      ensures p[..n] == old(readBuf)[..n] && p[n..] == old(p[n..])
      ensures readBuf == old(readBuf)[n..]
      ensures n == p.Length || readBuf == []
      ensures p.Length > 0 && old(readBuf) != [] ==> n > 0
    {
      n := Min(p.Length, |readBuf|);
      forall i | 0 <= i < n {
        p[i] := readBuf[i];
      }
      readBuf := readBuf[n..];
    }

    /** The result and the new state are those of ReadStep; the caller's buffer receives the data
        and nothing else changes in it, and data fills it or empties readBuf; the connection gets exactly
        one pong per ping consumed, with the same payload and in the same order. */
    method Read(p: array<Byte>) returns (n: nat, outcome: Outcome)
      requires Valid()
      modifies this`readBuf, this`frames, br, conn, p
      ensures Valid()
      ensures (State(), outcome) == ReadStep(old(State()), p.Length, !client)
      ensures n == (if outcome.Data? then |outcome.bytes| else 0) <= p.Length
      ensures outcome.Data? ==> p[..n] == outcome.bytes
      ensures outcome.Data? ==> n == p.Length || readBuf == []
      ensures outcome.Data? && p.Length > 0 ==> n > 0
      ensures p[n..] == old(p[n..])
      ensures old(frames) <= frames
      ensures conn.clean ==> old(conn.clean)
      ensures conn.clean ==> Answered(old(conn.log), conn.log, frames[|old(frames)|..], client)
    {
      hide Min, IsFrame, StartsWith, Decode, Answered, Resumes, EncodeLog, Logged, FramesOf, PingsOf, DataOf,
           Wire.Valid;
      ghost var log0 := conn.log;
      AnsweredNone(log0, client);
      if |readBuf| > 0 {
        assert frames[|old(frames)|..] == [];
        n := Drain(p);
        outcome := Data(p[..n]);
        return;
      }
      ghost var whole := Scan(br.pending, !client);
      ghost var fs: seq<Frame> := [];
      ScanStarts(br.pending, !client);
      hide Scan;
      while true
        invariant Valid() && readBuf == [] && p[..] == old(p[..])
        invariant frames == old(frames) + fs
        invariant Resumes(whole, fs, br.pending, !client)
        invariant conn.clean ==> old(conn.clean) && Answered(log0, conn.log, fs, client)
        decreases |br.pending|
      {
        ghost var input := br.pending;
        var res := ReadFrame(br, !client);
        if res.Err? {
          ScanStops(whole, fs, input, !client);
          assert frames[|old(frames)|..] == fs;
          return 0, Fault(res.error);
        }
        var f := res.frame;
        ghost var before := fs;
        fs := fs + [f];
        frames := frames + [f];
        assert frames == old(frames) + fs && frames[|old(frames)|..] == fs;
        if f.opcode == 1 || f.opcode == 2 {
          if |f.payload| != 0 {
            ScanStops(whole, before, input, !client);
            AnsweredSkip(log0, conn.log, before, f, client);
            readBuf := f.payload;
            n := Drain(p);
            outcome := Data(p[..n]);
            assert frames == old(frames) + whole.frames;
            return;
          }
        } else if f.opcode == 8 {
          ScanStops(whole, before, input, !client);
          AnsweredSkip(log0, conn.log, before, f, client);
          assert frames == old(frames) + whole.frames;
          return 0, Eof;
        }
        ScanSkips(whole, before, input, !client);
        if f.opcode == 9 {
          ghost var log1 := conn.log;
          var ok := WriteFrame(conn, 10, f.payload, client);
          AnsweredPing(log0, log1, conn.log, before, f, client);
        } else {
          AnsweredSkip(log0, conn.log, before, f, client);
        }
      }
    }

    method Write(p: Bytes) returns (n: nat, ok: bool)
      requires Valid() && |p| < LENGTH_LIMIT
      modifies conn
      ensures Valid()
      ensures n == if ok then |p| else 0
      ensures ok ==> conn.clean == old(conn.clean) && Logged(old(conn.log), conn.log, Frame(2, p), client)
      ensures !ok ==> !conn.clean
    {
      ok := WriteFrame(conn, 2, p, client);
      n := if ok then |p| else 0;
    }

    method Close()
      requires Valid()
      modifies conn
      ensures Valid()
      ensures conn.clean ==> old(conn.clean) && Logged(old(conn.log), conn.log, Frame(8, []), client)
    {
      var ok := WriteFrame(conn, 8, [], client);
    }
  }

  // ---------- Steps of the Read loop ----------

  /** Since log0 the connection got exactly one pong per ping in fs: same payload, same order. */
  ghost predicate Answered(log0: seq<Sent>, log: seq<Sent>, fs: seq<Frame>, client: bool) {
    && log0 <= log
    && FramesOf(log[|log0|..]) == PongsFor(PingsOf(fs))
    && forall i | |log0| <= i < |log| :: log[i].key.Some? == client
  }

  lemma AnsweredNone(log0: seq<Sent>, client: bool)
    ensures Answered(log0, log0, [], client)
  {}

  lemma AnsweredSkip(log0: seq<Sent>, log: seq<Sent>, fs: seq<Frame>, f: Frame, client: bool)
    requires f.opcode != 9
    ensures Answered(log0, log, fs, client) ==> Answered(log0, log, fs + [f], client)
  {
    DataOfSnoc(fs, f);
    assert PingsOf(fs + [f]) == PingsOf(fs);
  }

  lemma AnsweredPing(log0: seq<Sent>, log1: seq<Sent>, log2: seq<Sent>, fs: seq<Frame>, f: Frame, client: bool)
    requires f.opcode == 9
    ensures Answered(log0, log1, fs, client) && Logged(log1, log2, Frame(10, f.payload), client)
            ==> Answered(log0, log2, fs + [f], client)
  {
    if Answered(log0, log1, fs, client) && Logged(log1, log2, Frame(10, f.payload), client) {
      PongsSnoc(fs, f);
      var more := log2[|log0|..];
      assert more == log1[|log0|..] + [log2[|log1|]];
      assert FramesOf(more) == FramesOf(log1[|log0|..]) + [Frame(10, f.payload)];
    }
  }

  lemma PongsSnoc(fs: seq<Frame>, f: Frame)
    requires f.opcode == 9
    ensures PongsFor(PingsOf(fs + [f])) == PongsFor(PingsOf(fs)) + [Frame(10, f.payload)]
  {
    DataOfSnoc(fs, f);
  }

  // ---------- Any number of Reads ----------

  /** One Read on a working connection: the log around it and the frames it consumed. */
  datatype ReadCall = ReadCall(before: seq<Sent>, after: seq<Sent>, frames: seq<Frame>)

  /** Each call is as Read ensures, and the log only grows from one to the next, by what others write. */
  ghost predicate SuccessiveReads(calls: seq<ReadCall>, client: bool) {
    && (forall i | 0 <= i < |calls| :: Answered(calls[i].before, calls[i].after, calls[i].frames, client))
    && (forall i | 0 < i < |calls| :: calls[i - 1].after <= calls[i].before)
  }

  predicate NothingBetween(calls: seq<ReadCall>) {
    forall i | 0 < i < |calls| :: calls[i - 1].after == calls[i].before
  }

  function Consumed(calls: seq<ReadCall>): seq<Frame> {
    if calls == [] then [] else Consumed(calls[..|calls| - 1]) + calls[|calls| - 1].frames
  }

  /** What the calls themselves add to the log. */
  function Added(calls: seq<ReadCall>): seq<Sent>
    requires forall i | 0 <= i < |calls| :: calls[i].before <= calls[i].after
  {
    if calls == [] then []
    else
      var c := calls[|calls| - 1];
      Added(calls[..|calls| - 1]) + c.after[|c.before|..]
  }

  /** Any number of Reads, with any writes of others in between: the frames they add are exactly one pong per
      ping consumed, in order. With nothing written in between, these are the log's growth. */
  lemma OnePongPerPing(calls: seq<ReadCall>, client: bool)
    requires SuccessiveReads(calls, client)
    ensures FramesOf(Added(calls)) == PongsFor(PingsOf(Consumed(calls)))
    ensures forall i | 0 <= i < |Added(calls)| :: Added(calls)[i].key.Some? == client
    ensures calls != [] && NothingBetween(calls) ==>
              Answered(calls[0].before, calls[|calls| - 1].after, Consumed(calls), client)
  {
    AddedAnswer(calls, client);
    if calls != [] && NothingBetween(calls) {
      LogGrows(calls);
      var log0, log := calls[0].before, calls[|calls| - 1].after;
      assert log[|log0|..] == Added(calls);
      hide FramesOf, PingsOf, PongsFor, Added, Consumed;
      forall i | |log0| <= i < |log|
        ensures log[i].key.Some? == client
      {
        assert log[i] == Added(calls)[i - |log0|];
      }
    }
  }

  lemma {:induction false} AddedAnswer(calls: seq<ReadCall>, client: bool)
    requires SuccessiveReads(calls, client)
    ensures FramesOf(Added(calls)) == PongsFor(PingsOf(Consumed(calls)))
    ensures forall i | 0 <= i < |Added(calls)| :: Added(calls)[i].key.Some? == client
    decreases |calls|
  {
    if calls != [] {
      var front, c := calls[..|calls| - 1], calls[|calls| - 1];
      AddedAnswer(front, client);
      assert Answered(c.before, c.after, c.frames, client);
      hide Answered, PingsOf, PongsFor, FramesOf;
      var more := c.after[|c.before|..];
      PongsConcat(Consumed(front), c.frames);
      FramesOfConcat(Added(front), more);
      forall i | 0 <= i < |more|
        ensures more[i].key.Some? == client
      {
        assert more[i] == c.after[|c.before| + i];
      }
    }
  }

  lemma {:induction false} LogGrows(calls: seq<ReadCall>)
    requires forall i | 0 <= i < |calls| :: calls[i].before <= calls[i].after
    requires calls != [] && NothingBetween(calls)
    ensures calls[|calls| - 1].after == calls[0].before + Added(calls)
    decreases |calls|
  {
    var front, c := calls[..|calls| - 1], calls[|calls| - 1];
    var more := c.after[|c.before|..];
    assert c.after == c.before + more;
    assert Added(calls) == Added(front) + more;
    if front != [] {
      assert front[|front| - 1] == calls[|calls| - 2];
      LogGrows(front);
    } else {
      assert Added(front) == [];
    }
  }

  lemma FramesOfConcat(a: seq<Sent>, b: seq<Sent>)
    ensures FramesOf(a + b) == FramesOf(a) + FramesOf(b)
  {}

  lemma PongsConcat(a: seq<Frame>, b: seq<Frame>)
    ensures PongsFor(PingsOf(a + b)) == PongsFor(PingsOf(a)) + PongsFor(PingsOf(b))
  {
    PingsOfConcat(a, b);
    hide PingsOf;
    var ps, qs := PingsOf(a), PingsOf(b);
    assert forall i | 0 <= i < |ps + qs| :: PongsFor(ps + qs)[i] == (PongsFor(ps) + PongsFor(qs))[i];
  }

  /** After consuming fs the scan goes on from `pending`. */
  ghost predicate Resumes(whole: Scanned, fs: seq<Frame>, pending: Bytes, expectMasked: bool) {
    var s := Scan(pending, expectMasked);
    whole == Scanned(s.outcome, s.rest, fs + s.frames)
  }

  lemma ScanStarts(pending: Bytes, expectMasked: bool)
    ensures Resumes(Scan(pending, expectMasked), [], pending, expectMasked)
  {
    hide Decode, Scan;
  }

  lemma ScanSkips(whole: Scanned, fs: seq<Frame>, pending: Bytes, expectMasked: bool)
    requires Resumes(whole, fs, pending, expectMasked)
    requires Decode(pending, expectMasked).Got?
    requires var f := Decode(pending, expectMasked).frame; f.opcode != 8 && (IsData(f) ==> f.payload == [])
    ensures var d := Decode(pending, expectMasked);
            Resumes(whole, fs + [d.frame], d.rest, expectMasked)
  {
    hide Decode;
    var d := Decode(pending, expectMasked);
    var later := Scan(d.rest, expectMasked);
    assert fs + ([d.frame] + later.frames) == (fs + [d.frame]) + later.frames;
  }

  lemma ScanStops(whole: Scanned, fs: seq<Frame>, pending: Bytes, expectMasked: bool)
    requires Resumes(whole, fs, pending, expectMasked)
    ensures match Decode(pending, expectMasked)
            case Bad(error, rest) => whole == Scanned(Fault(error), rest, fs)
            case Got(f, rest) =>
              (IsData(f) && f.payload != [] ==> whole == Scanned(Data(f.payload), rest, fs + [f])) &&
              (f.opcode == 8 ==> whole == Scanned(Eof, rest, fs + [f]))
  {
    hide Decode;
  }

  // ---------- Any sequence of Read calls ----------

  /** The input begins with exactly the frames fs and continues with rest. */
  ghost predicate Consumes(input: Bytes, fs: seq<Frame>, rest: Bytes, expectMasked: bool)
    decreases |fs|
  {
    if fs == [] then input == rest
    else
      var d := Decode(input, expectMasked);
      d.Got? && d.frame == fs[0] && Consumes(d.rest, fs[1..], rest, expectMasked)
  }

  lemma {:induction false} ConsumesConcat(a: Bytes, f1: seq<Frame>, b: Bytes, f2: seq<Frame>, c: Bytes,
      expectMasked: bool)
    requires Consumes(a, f1, b, expectMasked) && Consumes(b, f2, c, expectMasked)
    ensures Consumes(a, f1 + f2, c, expectMasked)
    decreases |f1|
  {
    hide Decode;
    if f1 == [] {
      assert f1 + f2 == f2;
    } else {
      ConsumesConcat(Decode(a, expectMasked).rest, f1[1..], b, f2, c, expectMasked);
      assert (f1 + f2)[1..] == f1[1..] + f2;
    }
  }

  predicate NoClose(fs: seq<Frame>) {
    forall i | 0 <= i < |fs| :: fs[i].opcode != 8
  }

  /** The last frame is the only close. */
  predicate EndsInClose(fs: seq<Frame>) {
    fs != [] && NoClose(fs[..|fs| - 1]) && fs[|fs| - 1].opcode == 8
  }

  /** The frames up to the first close, or all of them if there is none. */
  function UpToClose(fs: seq<Frame>): (r: seq<Frame>)
    ensures r <= fs && if NoClose(fs) then r == fs else EndsInClose(r)
  {
    if fs == [] || NoClose(fs[..|fs| - 1]) then fs else UpToClose(fs[..|fs| - 1])
  }

  lemma {:induction false} UpToCloseIs(taken: seq<Frame>, more: seq<Frame>)
    ensures NoClose(taken) ==> taken <= UpToClose(taken + more)
    ensures EndsInClose(taken) ==> UpToClose(taken + more) == taken
    decreases |more|
  {
    var all := taken + more;
    if more == [] {
      assert all == taken;
    } else {
      UpToCloseIs(taken, more[..|more| - 1]);
      assert all[..|all| - 1] == taken + more[..|more| - 1];
      assert EndsInClose(taken) ==> all[..|all| - 1][|taken| - 1].opcode == 8;
    }
  }

  /** What one scan consumes: the data it hands over is all the data in the frames it took. */
  ghost predicate ScanTook(input: Bytes, s: Scanned, expectMasked: bool) {
    match s.outcome
    case Data(bytes) => Consumes(input, s.frames, s.rest, expectMasked) && DataOf(s.frames) == bytes
      && NoClose(s.frames)
    case Eof =>
      Consumes(input, s.frames, s.rest, expectMasked) && DataOf(s.frames) == [] && EndsInClose(s.frames)
    case Fault(error) =>
      && DataOf(s.frames) == [] && NoClose(s.frames)
      && exists tail :: Consumes(input, s.frames, tail, expectMasked)
           && Decode(tail, expectMasked) == Bad(error, s.rest)
  }

  lemma {:induction false} ScanConsumes(input: Bytes, expectMasked: bool)
    ensures ScanTook(input, Scan(input, expectMasked), expectMasked)
    decreases |input|
  {
    hide Decode, Consumes, DataOf;
    ConsumesOne(input, expectMasked);
    var d := Decode(input, expectMasked);
    if d.Got? && !(IsData(d.frame) && d.frame.payload != []) && d.frame.opcode != 8 {
      hide ScanTook;
      ScanConsumes(d.rest, expectMasked);
      ScanTookSkip(input, expectMasked);
    }
  }

  lemma ScanTookSkip(input: Bytes, expectMasked: bool)
    requires Decode(input, expectMasked).Got?
    requires var f := Decode(input, expectMasked).frame; f.opcode != 8 && (IsData(f) ==> f.payload == [])
    requires var d := Decode(input, expectMasked); ScanTook(d.rest, Scan(d.rest, expectMasked), expectMasked)
    ensures var d := Decode(input, expectMasked);
            var later := Scan(d.rest, expectMasked);
            ScanTook(input, Scanned(later.outcome, later.rest, [d.frame] + later.frames), expectMasked)
  {
    hide Decode, Consumes, DataOf, Scan;
    ConsumesSkip(input, expectMasked);
  }

  /** The step of ScanConsumes over a frame that yields no data. */
  lemma ConsumesSkip(input: Bytes, expectMasked: bool)
    requires Decode(input, expectMasked).Got?
    ensures var d := Decode(input, expectMasked);
            var later := Scan(d.rest, expectMasked).frames;
            && DataOf([d.frame] + later) == (if IsData(d.frame) then d.frame.payload else []) + DataOf(later)
            && forall tail | Consumes(d.rest, later, tail, expectMasked) ::
                 Consumes(input, [d.frame] + later, tail, expectMasked)
  {
    hide Decode, Scan;
    var d := Decode(input, expectMasked);
    var later := Scan(d.rest, expectMasked).frames;
    DataOfSnoc([], d.frame);
    assert [] + [d.frame] == [d.frame];
    DataOfConcat([d.frame], later);
    assert ([d.frame] + later)[1..] == later;
  }

  lemma ConsumesOne(input: Bytes, expectMasked: bool)
    ensures Consumes(input, [], input, expectMasked) && DataOf([]) == []
    ensures var d := Decode(input, expectMasked);
            d.Got? ==> && Consumes(input, [d.frame], d.rest, expectMasked)
                       && DataOf([d.frame]) == if IsData(d.frame) then d.frame.payload else []
  {
    hide Decode, DataOf;
    NoData();
    var d := Decode(input, expectMasked);
    if d.Got? {
      DataOfOne(d.frame);
      assert [d.frame][1..] == [];
    }
  }

  lemma NoData()
    ensures DataOf([]) == []
  {}

  lemma DataOfOne(f: Frame)
    ensures DataOf([f]) == if IsData(f) then f.payload else []
  {
    DataOfSnoc([], f);
    assert [] + [f] == [f];
  }

  /** Where a run of Read calls stands: the reader, the bytes handed out so far, and the outcome that
      ended the run, if one did. */
  datatype Run = Run(state: ReadState, out: Bytes, ended: Option<Outcome>)

  function Start(input: Bytes): Run {
    Run(ReadState(input, [], []), [], None)
  }

  /** One Read per buffer size, until a Read reports the end of the stream or an error. */
  function RunReads(input: Bytes, sizes: seq<nat>, expectMasked: bool): Run {
    if sizes == [] then Start(input)
    else NextRead(RunReads(input, sizes[..|sizes| - 1], expectMasked), sizes[|sizes| - 1], expectMasked)
  }

  function NextRead(run: Run, n: nat, expectMasked: bool): Run {
    if run.ended.Some? then run
    else
      var (st, outcome) := ReadStep(run.state, n, expectMasked);
      if outcome.Data? then Run(st, run.out + outcome.bytes, None) else Run(st, run.out, Some(outcome))
  }

  /** What every run keeps: nothing lost, nothing duplicated, nothing reordered, and an end reported
      only for a close frame or for input that is no frame. */
  ghost predicate Conserves(input: Bytes, run: Run, expectMasked: bool) {
    var fs := run.state.frames;
    && run.out + run.state.buffered == DataOf(fs)
    && match run.ended
       case None => Consumes(input, fs, run.state.pending, expectMasked) && NoClose(fs)
       case Some(Data(_)) => false
       case Some(Eof) =>
         Consumes(input, fs, run.state.pending, expectMasked) && run.state.buffered == [] && EndsInClose(fs)
       case Some(Fault(error)) =>
         && run.state.buffered == [] && NoClose(fs)
         && exists tail :: Consumes(input, fs, tail, expectMasked)
              && Decode(tail, expectMasked) == Bad(error, run.state.pending)
  }

  /** For any input at all and any sequence of buffer sizes, the bytes returned followed by readBuf are
      the concatenation of the data payloads of exactly the frames consumed. */
  lemma {:induction false} ReadsConserve(input: Bytes, sizes: seq<nat>, expectMasked: bool)
    ensures Conserves(input, RunReads(input, sizes, expectMasked), expectMasked)
    decreases |sizes|
  {
    if sizes == [] {
      ConsumesOne(input, expectMasked);
    } else {
      ReadsConserve(input, sizes[..|sizes| - 1], expectMasked);
      NextReadConserves(input, RunReads(input, sizes[..|sizes| - 1], expectMasked), sizes[|sizes| - 1], expectMasked);
    }
  }

  lemma NextReadConserves(input: Bytes, run: Run, n: nat, expectMasked: bool)
    requires Conserves(input, run, expectMasked)
    ensures Conserves(input, NextRead(run, n, expectMasked), expectMasked)
  {
    hide Consumes, DataOf, Scan, Decode;
    if run.ended.None? {
      var st := run.state;
      if st.buffered != [] {
        SplitAppends(run.out, st.buffered, Min(n, |st.buffered|));
      } else {
        var s := Scan(st.pending, expectMasked);
        ScanConsumes(st.pending, expectMasked);
        DataOfConcat(st.frames, s.frames);
        assert run.out + [] == run.out;
        match s.outcome
        case Data(bytes) =>
          SplitAppends(run.out, bytes, Min(n, |bytes|));
          ConsumesConcat(input, st.frames, st.pending, s.frames, s.rest, expectMasked);
        case Eof =>
          ConsumesConcat(input, st.frames, st.pending, s.frames, s.rest, expectMasked);
          var fs := st.frames + s.frames;
          assert fs[..|fs| - 1] == st.frames + s.frames[..|s.frames| - 1];
        case Fault(error) =>
          var tail :| Consumes(st.pending, s.frames, tail, expectMasked)
            && Decode(tail, expectMasked) == Bad(error, s.rest);
          ConsumesConcat(input, st.frames, st.pending, s.frames, tail, expectMasked);
      }
    }
  }

  lemma SplitAppends(out: Bytes, b: Bytes, k: nat)
    requires k <= |b|
    ensures (out + b[..k]) + b[k..] == out + b
  {
    assert b[..k] + b[k..] == b;
    ConcatAssociates(out, b[..k], b[k..]);
  }

  // ---------- Reads come to an end ----------

  /** A Read into a buffer that is not empty hands over at least one byte, or ends the run. */
  lemma ReadMakesProgress(run: Run, n: nat, expectMasked: bool)
    requires n > 0 && run.ended.None?
    ensures var run' := NextRead(run, n, expectMasked); run'.ended.Some? || |run'.out| > |run.out|
  {
    ScanHasData(run.state.pending, expectMasked);
    hide Scan, Decode;
  }

  lemma {:induction false} ScanHasData(input: Bytes, expectMasked: bool)
    ensures var r := Scan(input, expectMasked); r.outcome.Data? ==> r.outcome.bytes != []
    decreases |input|
  {
    hide Decode;
    if Decode(input, expectMasked).Got? {
      ScanHasData(Decode(input, expectMasked).rest, expectMasked);
    }
  }

  predicate Positive(sizes: seq<nat>) {
    forall i | 0 <= i < |sizes| :: sizes[i] > 0
  }

  lemma {:induction false} ReadsMakeProgress(input: Bytes, sizes: seq<nat>, expectMasked: bool)
    requires Positive(sizes)
    ensures var run := RunReads(input, sizes, expectMasked); run.ended.Some? || |run.out| >= |sizes|
    decreases |sizes|
  {
    hide NextRead;
    if sizes != [] {
      var front, n := sizes[..|sizes| - 1], sizes[|sizes| - 1];
      ReadsMakeProgress(input, front, expectMasked);
      var run := RunReads(input, front, expectMasked);
      if run.ended.None? {
        ReadMakesProgress(run, n, expectMasked);
      } else {
        EndedStays(run, n, expectMasked);
      }
    }
  }

  lemma EndedStays(run: Run, n: nat, expectMasked: bool)
    ensures run.ended.Some? ==> NextRead(run, n, expectMasked) == run
  {}

  /** What a run of Reads over any input has to do with the frames in it. Before its end it has handed over
      a prefix of the data up to the first close, at its end exactly that data; and it ends in the end of
      the stream exactly if there is a close, in an error otherwise. */
  lemma ReadsAreExact(input: Bytes, sizes: seq<nat>, expectMasked: bool)
    ensures var run := RunReads(input, sizes, expectMasked);
            var all := DecodeAll(input, expectMasked).0;
            && run.out <= DataOf(UpToClose(all))
            && (run.ended.Some? ==> run.out == DataOf(UpToClose(all)))
            && (run.ended.Some? ==> (run.ended == Some(Eof) <==> !NoClose(all)))
  {
    hide Decode, DecodeAll, Consumes, DataOf, RunReads, UpToClose;
    var run := RunReads(input, sizes, expectMasked);
    var fs := run.state.frames;
    ReadsConserve(input, sizes, expectMasked);
    var tail :| Consumes(input, fs, tail, expectMasked) &&
                (run.ended.Some? && run.ended.value.Fault? ==> Decode(tail, expectMasked).Bad?);
    ConsumesIsPrefix(input, fs, tail, expectMasked);
    var more := DecodeAll(tail, expectMasked).0;
    var upTo := UpToClose(fs + more);
    UpToCloseIs(fs, more);
    DecodeAllStuck(tail, expectMasked);
    assert fs + [] == fs && run.out + [] == run.out;
    if fs <= upTo {
      DataOfConcat(fs, upTo[|fs|..]);
      assert upTo == fs + upTo[|fs|..];
      assert run.out <= run.out + run.state.buffered;
    }
    if EndsInClose(fs) {
      assert (fs + more)[|fs| - 1].opcode == 8;
    }
  }

  /** With buffers that are not empty, as many Reads as there are data bytes up to the close, and one more,
      are enough: the run has ended, so it has handed over all of them. */
  lemma EnoughReadsEnd(input: Bytes, sizes: seq<nat>, expectMasked: bool)
    requires Positive(sizes)
    requires |sizes| > |DataOf(UpToClose(DecodeAll(input, expectMasked).0))|
    ensures var run := RunReads(input, sizes, expectMasked);
            run.ended.Some? && run.out == DataOf(UpToClose(DecodeAll(input, expectMasked).0))
  {
    hide DecodeAll, DataOf, RunReads, UpToClose;
    ReadsMakeProgress(input, sizes, expectMasked);
    ReadsAreExact(input, sizes, expectMasked);
  }

  // ---------- Reading what a peer wrote ----------

  /** Frames consumed from an input are a prefix of what DecodeAll finds in it. */
  lemma {:induction false} ConsumesIsPrefix(input: Bytes, fs: seq<Frame>, rest: Bytes, expectMasked: bool)
    requires Consumes(input, fs, rest, expectMasked)
    ensures DecodeAll(input, expectMasked) == (fs + DecodeAll(rest, expectMasked).0, DecodeAll(rest, expectMasked).1)
    decreases |fs|
  {
    hide Decode;
    var more := DecodeAll(rest, expectMasked).0;
    if fs == [] {
      assert [] + more == more;
    } else {
      ConsumesIsPrefix(Decode(input, expectMasked).rest, fs[1..], rest, expectMasked);
      assert fs + more == [fs[0]] + (fs[1..] + more);
    }
  }

  /** Whatever buffer sizes the reader uses on frames written by writeFrame (and on an unfinished one
      after them), it gets a prefix of the data payloads in order. It has all of them when an error is
      reported, and all that come before the close frame when the end of the stream is. */
  lemma ReadWhatWasWritten(log: seq<Sent>, torn: Bytes, masked: bool, sizes: seq<nat>, expectMasked: bool)
    requires LogOk(log, masked) && (expectMasked ==> masked)
    requires DecodeAll(torn, expectMasked) == ([], torn)
    ensures var run := RunReads(EncodeLog(log) + torn, sizes, expectMasked);
            && run.state.frames <= FramesOf(log)
            && run.out <= DataOf(FramesOf(log))
            && (run.ended == Some(Eof) ==> run.out == DataOf(run.state.frames) && EndsInClose(run.state.frames))
            && (run.ended.Some? && run.ended.value.Fault? ==> run.out == DataOf(FramesOf(log)))
  {
    hide Decode, DecodeAll, Consumes, DataOf, RunReads;
    var input := EncodeLog(log) + torn;
    var run := RunReads(input, sizes, expectMasked);
    var fs := run.state.frames;
    ReadsConserve(input, sizes, expectMasked);
    DecodeAllOfLog(log, torn, masked, expectMasked);
    var tail :| Consumes(input, fs, tail, expectMasked) &&
                (run.ended.Some? && run.ended.value.Fault? ==> Decode(tail, expectMasked).Bad?);
    ConsumesIsPrefix(input, fs, tail, expectMasked);
    var more := DecodeAll(tail, expectMasked).0;
    assert FramesOf(log) == fs + more;
    DataOfConcat(fs, more);
    assert run.out <= run.out + run.state.buffered;
    if run.ended.Some? && run.ended.value.Fault? {
      DecodeAllStuck(tail, expectMasked);
      assert fs + [] == fs && run.out + [] == run.out;
    } else if run.ended == Some(Eof) {
      assert run.out + [] == run.out;
    }
  }

  /** After enough Reads one of the two has happened, and the reader has all data up to the first close. */
  lemma EnoughReadsGetAll(log: seq<Sent>, torn: Bytes, masked: bool, sizes: seq<nat>, expectMasked: bool)
    requires LogOk(log, masked) && (expectMasked ==> masked)
    requires DecodeAll(torn, expectMasked) == ([], torn)
    requires Positive(sizes) && |sizes| > |DataOf(UpToClose(FramesOf(log)))|
    ensures var run := RunReads(EncodeLog(log) + torn, sizes, expectMasked);
            run.ended.Some? && run.out == DataOf(UpToClose(FramesOf(log)))
  {
    hide DecodeAll, DataOf, RunReads, UpToClose, EncodeLog, LogOk;
    DecodeAllOfLog(log, torn, masked, expectMasked);
    EnoughReadsEnd(EncodeLog(log) + torn, sizes, expectMasked);
  }

  lemma DecodeAllStuck(s: Bytes, expectMasked: bool)
    ensures Decode(s, expectMasked).Bad? <==> DecodeAll(s, expectMasked).0 == []
    ensures Decode(s, expectMasked).Bad? ==> DecodeAll(s, expectMasked) == ([], s)
  {
    hide Decode;
  }
}
