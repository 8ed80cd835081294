/** The WebSocket frame format of internal/wscarrier (section 5.2 of RFC 6455): what writeFrame
    puts on the wire, what readFrame makes of any bytes, and how the two fit together.
    Bytes are numbers below 256, on which `b & 0x0f` is `b % 16`, `b & 0x7f` is `b % 128`, `b & 0x80` is the
    test `b >= 0x80`, and `0x80 | n` for a smaller n is `0x80 + n`; exclusive or is Xor below. */
module Frames {
  import opened ByteSeq
  import opened Options

  type Key = k: Bytes | |k| == 4 witness [0, 0, 0, 0]

  /** The largest payload readFrame accepts. */
  const MAX_PAYLOAD := 16 * 1024 * 1024

  /** One more than the largest length a Go slice can have. */
  const LENGTH_LIMIT := 0x8000_0000_0000_0000

  datatype Frame = Frame(opcode: Byte, payload: Bytes)

  /** Truncated stands for io.EOF and io.ErrUnexpectedEOF alike. */
  datatype FrameError = Truncated | ExpectedMasked | TooLarge

  /** `rest` is what the reader has not consumed, after a frame and after an error. */
  datatype Decoded = Got(frame: Frame, rest: Bytes) | Bad(error: FrameError, rest: Bytes)

  // ---------- Big-endian numbers ----------

  function Pow256(n: nat): (p: nat)
    ensures p > 0
  {
    if n == 0 then 1 else 256 * Pow256(n - 1)
  }

  /** The low `n` bytes of `v`, most significant first. */
  function BigEndian(n: nat, v: nat): (s: Bytes)
    ensures |s| == n
  {
    if n == 0 then [] else BigEndian(n - 1, v / 256) + [v % 256]
  }

  function BigEndianValue(s: Bytes): nat {
    if s == [] then 0 else 256 * BigEndianValue(s[..|s| - 1]) + s[|s| - 1]
  }

  lemma BigEndianValueSnoc(s: Bytes, x: Byte)
    ensures BigEndianValue(s + [x]) == 256 * BigEndianValue(s) + x
  {
    var t := s + [x];
    assert t[..|t| - 1] == s;
  }

  lemma {:induction false} BigEndianRoundTrip(n: nat, v: nat)
    requires v < Pow256(n)
    ensures BigEndianValue(BigEndian(n, v)) == v
  {
    if n > 0 {
      BigEndianRoundTrip(n - 1, v / 256);
      BigEndianValueSnoc(BigEndian(n - 1, v / 256), v % 256);
    }
  }

  lemma {:induction false} BigEndianBound(s: Bytes)
    ensures BigEndianValue(s) < Pow256(|s|)
  {
    if s != [] {
      BigEndianBound(s[..|s| - 1]);
    }
  }

  lemma PowersOf256()
    ensures Pow256(2) == 0x1_0000
    ensures Pow256(8) == 0x1_0000_0000_0000_0000
  {
    assert Pow256(4) == 0x1_0000_0000;
    assert Pow256(6) == 0x1_0000_0000_0000;
  }

  // ---------- Masking ----------

  /** Exclusive or of the low n bits, bit by bit. */
  function Bitwise(n: nat, a: nat, b: nat): (r: nat)
    requires a < Pow2(n) && b < Pow2(n)
    ensures r < Pow2(n)
  {
    if n == 0 then 0
    else (if a % 2 == b % 2 then 0 else 1) + 2 * Bitwise(n - 1, a / 2, b / 2)
  }

  function Pow2(n: nat): (p: nat)
    ensures p > 0
  {
    if n == 0 then 1 else 2 * Pow2(n - 1)
  }

  function Xor(a: Byte, b: Byte): Byte {
    EightBits();
    Bitwise(8, a, b)
  }

  lemma EightBits()
    ensures Pow2(8) == 256
  {
    assert Pow2(4) == 16;
  }

  lemma {:induction false} BitwiseTwice(n: nat, a: nat, k: nat)
    requires a < Pow2(n) && k < Pow2(n)
    ensures Bitwise(n, Bitwise(n, a, k), k) == a
  {
    if n > 0 {
      BitwiseTwice(n - 1, a / 2, k / 2);
      var r := Bitwise(n, a, k);
      assert r / 2 == Bitwise(n - 1, a / 2, k / 2);
      assert r % 2 == if a % 2 == k % 2 then 0 else 1;
    }
  }

  /** Binary digit j of x, from the low end. */
  function Bit(x: nat, j: nat): nat
    decreases j
  {
    if j == 0 then x % 2 else Bit(x / 2, j - 1)
  }

  /** Bit by bit, r is the exclusive or of a and b. */
  predicate XorBits(r: Byte, a: Byte, b: Byte) {
    forall j | 0 <= j < 8 :: Bit(r, j) == 1 <==> Bit(a, j) != Bit(b, j)
  }

  lemma XorIsBitwise(a: Byte, b: Byte)
    ensures XorBits(Xor(a, b), a, b)
  {
    EightBits();
    forall j | 0 <= j < 8
      ensures Bit(Xor(a, b), j) == 1 <==> Bit(a, j) != Bit(b, j)
    {
      BitOfBitwise(8, a, b, j);
    }
  }

  lemma {:induction false} BitOfBitwise(n: nat, a: nat, b: nat, j: nat)
    requires a < Pow2(n) && b < Pow2(n) && j < n
    ensures Bit(Bitwise(n, a, b), j) == 1 <==> Bit(a, j) != Bit(b, j)
    decreases n
  {
    var r := Bitwise(n, a, b);
    assert r % 2 == (if a % 2 == b % 2 then 0 else 1) && r / 2 == Bitwise(n - 1, a / 2, b / 2);
    if j > 0 {
      BitOfBitwise(n - 1, a / 2, b / 2, j - 1);
    }
  }

  /** A number is its digits, so the exclusive or of two bytes is the only byte with those. */
  lemma {:induction false} DigitsAreTheNumber(n: nat, a: nat, b: nat)
    requires a < Pow2(n) && b < Pow2(n) && forall j | 0 <= j < n :: Bit(a, j) == Bit(b, j)
    ensures a == b
    decreases n
  {
    if n > 0 {
      forall j | 0 <= j < n - 1
        ensures Bit(a / 2, j) == Bit(b / 2, j)
      {
        assert Bit(a, j + 1) == Bit(b, j + 1);
      }
      DigitsAreTheNumber(n - 1, a / 2, b / 2);
      assert Bit(a, 0) == Bit(b, 0);
    }
  }

  function Mask(p: Bytes, key: Key): (r: Bytes)
    ensures |r| == |p|
  {
    seq(|p|, i requires 0 <= i < |p| => Xor(p[i], key[i % 4]))
  }

  lemma MaskTwice(p: Bytes, key: Key)
    ensures Mask(Mask(p, key), key) == p
  {
    forall i | 0 <= i < |p|
      ensures Mask(Mask(p, key), key)[i] == p[i]
    {
      EightBits();
      BitwiseTwice(8, p[i], key[i % 4]);
    }
  }

  // ---------- What writeFrame writes ----------

  /** How many extra length bytes a payload of `l` bytes needs. */
  function ExtensionLength(l: nat): nat {
    if l < 126 then 0 else if l <= 0xffff then 2 else 8
  }

  function ShortLength(l: nat): (b: nat)
    ensures b < 128
  {
    if l < 126 then l else if l <= 0xffff then 126 else 127
  }

  function SecondByte(masked: bool, short: nat): Byte
    requires short < 128
  {
    (if masked then 0x80 else 0) + short
  }

  function KeyBytes(key: Option<Key>): Bytes {
    if key.Some? then key.value else []
  }

  function Header(opcode: Byte, l: nat, key: Option<Key>): (h: Bytes)
    ensures |h| == 2 + ExtensionLength(l) + |KeyBytes(key)|
  {
    [0x80 + opcode % 16, SecondByte(key.Some?, ShortLength(l))] + BigEndian(ExtensionLength(l), l) + KeyBytes(key)
  }

  function Body(payload: Bytes, key: Option<Key>): (b: Bytes)
    ensures |b| == |payload|
  {
    if key.Some? then Mask(payload, key.value) else payload
  }

  /** A whole frame. writeFrame hands the header and the body to the connection separately. */
  function Encode(opcode: Byte, payload: Bytes, key: Option<Key>): Bytes {
    Header(opcode, |payload|, key) + Body(payload, key)
  }

  // ---------- What readFrame makes of its input ----------

  function IsMasked(b: Byte): bool {
    b >= 0x80
  }

  function DeclaredShort(b: Byte): (r: nat)
    ensures r < 128
  {
    b % 128
  }

  function DeclaredExtension(b: Byte): nat {
    var short := DeclaredShort(b);
    if short == 126 then 2 else if short == 127 then 8 else 0
  }

  /** The payload length announced by input whose second byte is b. */
  function DeclaredLength(s: Bytes): nat
    requires |s| >= 2 && |s| >= 2 + DeclaredExtension(s[1])
  {
    var ext := DeclaredExtension(s[1]);
    if ext == 0 then DeclaredShort(s[1]) else BigEndianValue(s[2..2 + ext])
  }

  /** Where the payload starts. */
  function PayloadOffset(b: Byte): nat {
    2 + DeclaredExtension(b) + (if IsMasked(b) then 4 else 0)
  }

  /** The rest of a frame whose header ends at `off` and announces `l` bytes. */
  function DecodePayload(s: Bytes, off: nat, l: nat): (d: Decoded)
    requires 2 <= off <= |s| && (IsMasked(s[1]) ==> 4 <= off)
    ensures d.Got? ==> |d.rest| + 2 <= |s| && |d.frame.payload| == l <= MAX_PAYLOAD && d.frame.opcode < 16
    ensures |d.rest| <= |s| && d.rest == s[|s| - |d.rest|..]
  {
    if l > MAX_PAYLOAD then Bad(TooLarge, s[off..])
    else if |s| < off + l then Bad(Truncated, [])
    else
      var body := s[off..off + l];
      Got(Frame(s[0] % 16, if IsMasked(s[1]) then Mask(body, s[off - 4..off]) else body), s[off + l..])
  }

  function Decode(s: Bytes, expectMasked: bool): (d: Decoded)
    ensures d.Got? ==> |d.rest| + 2 <= |s| && |d.frame.payload| <= MAX_PAYLOAD && d.frame.opcode < 16
    ensures |d.rest| <= |s| && d.rest == s[|s| - |d.rest|..]
  {
    if |s| < 2 then Bad(Truncated, [])
    else if expectMasked && !IsMasked(s[1]) then Bad(ExpectedMasked, s[2..])
    else if |s| < PayloadOffset(s[1]) then Bad(Truncated, [])
    else DecodePayload(s, PayloadOffset(s[1]), DeclaredLength(s))
  }

  // ---------- The format, byte by byte ----------

  /** A number in base 256. */
  function TwoDigits(a: nat, b: nat): nat {
    256 * a + b
  }

  function EightDigits(a: nat, b: nat, c: nat, d: nat, e: nat, f: nat, g: nat, h: nat): nat {
    0x100_0000_0000_0000 * a + 0x1_0000_0000_0000 * b + 0x100_0000_0000 * c + 0x1_0000_0000 * d
    + 0x100_0000 * e + 0x1_0000 * f + 0x100 * g + h
  }

  /** The three length forms, most significant byte first. */
  function AnnouncedLength(s: Bytes): nat
    requires |s| >= 2 && (s[1] % 128 == 126 ==> |s| >= 4) && (s[1] % 128 == 127 ==> |s| >= 10)
  {
    if s[1] % 128 < 126 then s[1] % 128
    else if s[1] % 128 == 126 then TwoDigits(s[2], s[3])
    else EightDigits(s[2], s[3], s[4], s[5], s[6], s[7], s[8], s[9])
  }

  /** Where a payload starts: after two bytes, the longer length if there is one, and the key. */
  function BehindHeader(s: Bytes): nat
    requires |s| >= 2
  {
    2 + (if s[1] % 128 == 126 then 2 else if s[1] % 128 == 127 then 8 else 0) + (if s[1] >= 0x80 then 4 else 0)
  }

  /** With a key, every bit of out is the exclusive or of a bit of p and the key's bit for its position. */
  predicate Masks(out: Bytes, p: Bytes, key: Option<Key>) {
    && |out| == |p|
    && forall i | 0 <= i < |p| :: if key.Some? then XorBits(out[i], p[i], key.value[i % 4]) else out[i] == p[i]
  }

  /** The bytes s are a frame, in any of the three length forms and masked or not, and then rest. */
  predicate StartsWith(s: Bytes, f: Frame, rest: Bytes) {
    && |s| >= 2 && |s| >= BehindHeader(s) + |f.payload|
    && s[0] % 16 == f.opcode && |f.payload| == AnnouncedLength(s)
    && Masks(f.payload, s[BehindHeader(s)..BehindHeader(s) + |f.payload|], KeyIn(s))
    && rest == s[BehindHeader(s) + |f.payload|..]
  }

  /** The last four bytes of the header if the high bit of the second is set. */
  function KeyIn(s: Bytes): Option<Key>
    requires |s| >= 2 && |s| >= BehindHeader(s)
  {
    if s[1] >= 0x80 then Some(s[BehindHeader(s) - 4..BehindHeader(s)]) else None
  }

  /** One final frame with the shortest length form, and nothing behind it. */
  predicate IsFrame(s: Bytes, f: Frame, masked: bool) {
    && StartsWith(s, f, [])
    && s[0] >= 0x80 && (s[1] >= 0x80 <==> masked)
    && (|f.payload| < 126 <==> s[1] % 128 < 126) && (|f.payload| < 0x1_0000 <==> s[1] % 128 < 127)
  }

  /** What is decoded is what is there: a frame comes out exactly when the bytes start with it, it is masked
      if it has to be, and it is within the limit. */
  lemma DecodeIsExact(s: Bytes, expectMasked: bool, f: Frame, rest: Bytes)
    ensures Decode(s, expectMasked) == Got(f, rest) <==>
            StartsWith(s, f, rest) && (expectMasked ==> s[1] >= 0x80) && |f.payload| <= MAX_PAYLOAD
  {
    if |s| >= 2 && |s| >= BehindHeader(s) {
      DeclaredIsAnnounced(s);
      hide StartsWith, DeclaredLength, AnnouncedLength, Mask;
      if |s| >= BehindHeader(s) + AnnouncedLength(s) {
        OnlyFrame(s, f, rest);
      } else {
        TooShort(s, f, rest);
      }
    }
  }

  lemma TooShort(s: Bytes, f: Frame, rest: Bytes)
    requires |s| >= 2 && |s| >= BehindHeader(s) && |s| < BehindHeader(s) + AnnouncedLength(s)
    ensures !StartsWith(s, f, rest)
  {}

  lemma OnlyFrame(s: Bytes, f: Frame, rest: Bytes)
    requires |s| >= 2 && |s| >= BehindHeader(s) && |s| >= BehindHeader(s) + AnnouncedLength(s)
    ensures var off, l := BehindHeader(s), AnnouncedLength(s);
            StartsWith(s, f, rest) <==> f == Frame(s[0] % 16, Body(s[off..off + l], KeyIn(s))) && rest == s[off + l..]
  {
    var off, l := BehindHeader(s), AnnouncedLength(s);
    BodyIsOnly(s[off..off + l], KeyIn(s), f.payload);
    hide AnnouncedLength, Masks, Body;
  }

  lemma DeclaredIsAnnounced(s: Bytes)
    requires |s| >= 2 && |s| >= BehindHeader(s)
    ensures PayloadOffset(s[1]) == BehindHeader(s) && DeclaredLength(s) == AnnouncedLength(s)
  {
    var ext := DeclaredExtension(s[1]);
    if ext == 2 {
      TwoBytes(s[2..4]);
    } else if ext == 8 {
      EightBytes(s[2..10]);
    }
    hide BigEndianValue;
  }

  lemma TwoBytes(b: Bytes)
    requires |b| == 2
    ensures BigEndianValue(b) == TwoDigits(b[0], b[1])
  {
    assert b[..1][..0] == [] && BigEndianValue([]) == 0;
    assert BigEndianValue(b[..1]) == b[0];
  }

  lemma EightBytes(b: Bytes)
    requires |b| == 8
    ensures BigEndianValue(b) == EightDigits(b[0], b[1], b[2], b[3], b[4], b[5], b[6], b[7])
  {
    LastTwo(b);
    LastTwo(b[..6]);
    LastTwo(b[..4]);
    TwoBytes(b[..2]);
    hide BigEndianValue;
    assert b[..6][..4] == b[..4] && b[..4][..2] == b[..2];
  }

  lemma LastTwo(b: Bytes)
    requires |b| >= 2
    ensures BigEndianValue(b) == 0x1_0000 * BigEndianValue(b[..|b| - 2]) + TwoDigits(b[|b| - 2], b[|b| - 1])
  {
    assert b[..|b| - 1][..|b| - 2] == b[..|b| - 2];
  }

  lemma BodyMasks(p: Bytes, key: Option<Key>)
    ensures Masks(Body(p, key), p, key)
  {
    if key.Some? {
      forall i | 0 <= i < |p|
        ensures XorBits(Body(p, key)[i], p[i], key.value[i % 4])
      {
        XorIsBitwise(p[i], key.value[i % 4]);
      }
    }
  }

  lemma BodyIsOnly(p: Bytes, key: Option<Key>, out: Bytes)
    ensures Masks(out, p, key) <==> out == Body(p, key)
  {
    BodyMasks(p, key);
    if Masks(out, p, key) {
      forall i | 0 <= i < |p|
        ensures out[i] == Body(p, key)[i]
      {
        if key.Some? {
          SameBits(out[i], Body(p, key)[i], p[i], key.value[i % 4]);
        }
      }
    }
  }

  lemma SameBits(r: Byte, r': Byte, a: Byte, b: Byte)
    requires XorBits(r, a, b) && XorBits(r', a, b)
    ensures r == r'
  {
    EightBits();
    forall j | 0 <= j < 8
      ensures Bit(r, j) == Bit(r', j)
    {
      BitIsBinary(r, j);
      BitIsBinary(r', j);
      assert Bit(r, j) == 1 <==> Bit(r', j) == 1;
    }
    DigitsAreTheNumber(8, r, r');
  }

  lemma {:induction false} BitIsBinary(x: nat, j: nat)
    ensures Bit(x, j) == 0 || Bit(x, j) == 1
    decreases j
  {
    if j > 0 {
      BitIsBinary(x / 2, j - 1);
    }
  }

  // ---------- The round trip ----------

  /** What the header of an encoded frame announces. */
  lemma HeaderFields(opcode: Byte, l: nat, key: Option<Key>, s: Bytes)
    requires l < LENGTH_LIMIT
    requires Header(opcode, l, key) <= s
    ensures |s| >= 2 && s[0] % 16 == opcode % 16
    ensures IsMasked(s[1]) == key.Some?
    ensures DeclaredExtension(s[1]) == ExtensionLength(l)
    ensures PayloadOffset(s[1]) == |Header(opcode, l, key)| <= |s|
    ensures DeclaredLength(s) == l
    ensures key.Some? ==> s[PayloadOffset(s[1]) - 4..PayloadOffset(s[1])] == key.value
  {
    var h := Header(opcode, l, key);
    assert s[0] == h[0] && s[1] == h[1];
    HeaderSlices(opcode, l, key, s);
    LengthField(l, s);
  }

  /** The length field reads back as the length. */
  lemma LengthField(l: nat, s: Bytes)
    requires l < LENGTH_LIMIT && |s| >= 2 + ExtensionLength(l)
    requires s[1] % 128 == ShortLength(l)
    requires s[2..2 + ExtensionLength(l)] == BigEndian(ExtensionLength(l), l)
    ensures DeclaredExtension(s[1]) == ExtensionLength(l)
    ensures DeclaredLength(s) == l
  {
    hide BigEndian, BigEndianValue;
    PowersOf256();
    if ExtensionLength(l) > 0 {
      BigEndianRoundTrip(ExtensionLength(l), l);
    }
  }

  lemma HeaderSlices(opcode: Byte, l: nat, key: Option<Key>, s: Bytes)
    requires Header(opcode, l, key) <= s
    ensures var ext := ExtensionLength(l);
            && s[2..2 + ext] == BigEndian(ext, l)
            && s[2 + ext..2 + ext + |KeyBytes(key)|] == KeyBytes(key)
  {
    hide BigEndian, KeyBytes;
    var h := Header(opcode, l, key);
    var ext := ExtensionLength(l);
    assert s[2..2 + ext] == h[2..2 + ext];
    assert s[2 + ext..2 + ext + |KeyBytes(key)|] == h[2 + ext..];
  }

  /** readFrame on writeFrame's output, whatever follows it: the same payload, the low four opcode
      bits, and not a byte more consumed, exactly when the payload is within the limit and the mask
      bit is what the reader expects. */
  lemma RoundTrip(opcode: Byte, payload: Bytes, key: Option<Key>, following: Bytes, expectMasked: bool)
    requires |payload| < LENGTH_LIMIT
    ensures var d := Decode(Encode(opcode, payload, key) + following, expectMasked);
            var fits := |payload| <= MAX_PAYLOAD && (expectMasked ==> key.Some?);
            && d.Got? == fits
            && (fits ==> d == Got(Frame(opcode % 16, payload), following))
            && (!fits ==> d.error == if expectMasked && key.None? then ExpectedMasked else TooLarge)
  {
    hide Header, Mask, DeclaredLength, BigEndian;
    var h := Header(opcode, |payload|, key);
    var s := Encode(opcode, payload, key) + following;
    assert s == h + (Body(payload, key) + following);
    HeaderFields(opcode, |payload|, key, s);
    var off := |h|;
    if |payload| <= MAX_PAYLOAD {
      assert s[off..off + |payload|] == Body(payload, key);
      assert s[off + |payload|..] == following;
      if key.Some? {
        MaskTwice(payload, key.value);
      }
    }
  }

  /** What is written is one frame: the opcode's low four bits with the final bit, the shortest length form,
      most significant byte first, a key exactly if there is one, and every payload bit masked with it. */
  lemma EncodeIsFrame(opcode: Byte, payload: Bytes, key: Option<Key>)
    requires |payload| < LENGTH_LIMIT
    ensures IsFrame(Encode(opcode, payload, key), Frame(opcode % 16, payload), key.Some?)
  {
    var s := Encode(opcode, payload, key);
    EncodedParts(opcode, payload, key);
    hide Encode, Body, KeyIn, AnnouncedLength, BehindHeader, Masks;
    BodyMasks(Body(payload, key), key);
    BodyTwice(payload, key);
  }

  lemma EncodedParts(opcode: Byte, payload: Bytes, key: Option<Key>)
    requires |payload| < LENGTH_LIMIT
    ensures var s, l := Encode(opcode, payload, key), |payload|;
            && |s| >= 2 && s[0] == 0x80 + opcode % 16 && (s[1] >= 0x80 <==> key.Some?)
            && s[1] % 128 == (if l < 126 then l else if l <= 0xffff then 126 else 127)
            && |s| == BehindHeader(s) + l && AnnouncedLength(s) == l && KeyIn(s) == key
            && s[BehindHeader(s)..BehindHeader(s) + l] == Body(payload, key)
  {
    hide Header, AnnouncedLength, DeclaredLength, Body;
    var s, h := Encode(opcode, payload, key), Header(opcode, |payload|, key);
    assert h <= s;
    FirstBytes(opcode, |payload|, key, s);
    HeaderFields(opcode, |payload|, key, s);
    DeclaredIsAnnounced(s);
    assert s[|h|..|h| + |payload|] == Body(payload, key);
  }

  lemma FirstBytes(opcode: Byte, l: nat, key: Option<Key>, s: Bytes)
    requires Header(opcode, l, key) <= s
    ensures |s| >= 2 && s[0] == 0x80 + opcode % 16 && (s[1] >= 0x80 <==> key.Some?)
    ensures s[1] % 128 == if l < 126 then l else if l <= 0xffff then 126 else 127
  {
    hide BigEndian;
    var h := Header(opcode, l, key);
    assert s[0] == h[0] && s[1] == h[1];
  }

  lemma BodyTwice(payload: Bytes, key: Option<Key>)
    ensures Body(Body(payload, key), key) == payload
  {
    hide Mask;
    if key.Some? {
      MaskTwice(payload, key.value);
    }
  }

  /** The round trip as stated for opcodes that fit the four bits. */
  lemma RoundTripOpcode(opcode: Byte, payload: Bytes, key: Option<Key>, following: Bytes, expectMasked: bool)
    requires opcode < 16 && |payload| <= MAX_PAYLOAD && (expectMasked ==> key.Some?)
    ensures Decode(Encode(opcode, payload, key) + following, expectMasked) == Got(Frame(opcode, payload), following)
  {
    hide Decode, Encode;
    RoundTrip(opcode, payload, key, following, expectMasked);
  }

  /** No strict prefix of a written frame is ever taken for a frame. */
  lemma StrictPrefixIsNoFrame(opcode: Byte, payload: Bytes, key: Option<Key>, n: nat, expectMasked: bool)
    requires |payload| < LENGTH_LIMIT
    requires n < |Encode(opcode, payload, key)|
    ensures var d := Decode(Encode(opcode, payload, key)[..n], expectMasked);
            && d.Bad?
            && (|payload| <= MAX_PAYLOAD && (expectMasked ==> key.Some?) ==> d == Bad(Truncated, []))
  {
    var h := Header(opcode, |payload|, key);
    var whole := Encode(opcode, payload, key);
    var s := whole[..n];
    assert h <= whole;
    HeaderFields(opcode, |payload|, key, whole);
    if n >= |h| {
      PrefixOfPrefix(h, whole, n);
      HeaderFields(opcode, |payload|, key, s);
    } else if n >= 2 {
      assert s[1] == whole[1];
    }
  }

  lemma PrefixOfPrefix(h: Bytes, whole: Bytes, n: nat)
    requires h <= whole && |h| <= n <= |whole|
    ensures h <= whole[..n]
  {}

  /** The length form is the shortest: any input that decodes to the same payload with the same
      masking takes at least as many bytes. */
  lemma EncodeIsShortest(s: Bytes, expectMasked: bool, opcode: Byte, key: Option<Key>)
    requires Decode(s, expectMasked).Got?
    requires IsMasked(s[1]) == key.Some?
    ensures var d := Decode(s, expectMasked);
            |Encode(opcode, d.frame.payload, key)| <= |s| - |d.rest|
  {
    DecodedSize(s, expectMasked);
    hide Decode, BigEndian, BigEndianValue, Mask;
    PowersOf256();
    if DeclaredExtension(s[1]) > 0 {
      BigEndianBound(s[2..2 + DeclaredExtension(s[1])]);
    }
  }

  lemma DecodedSize(s: Bytes, expectMasked: bool)
    requires Decode(s, expectMasked).Got?
    ensures |s| >= PayloadOffset(s[1])
    ensures var d := Decode(s, expectMasked);
            |d.frame.payload| == DeclaredLength(s) && |s| - |d.rest| == PayloadOffset(s[1]) + DeclaredLength(s)
  {
    hide Mask, DeclaredLength;
  }

  /** A frame already decoded is not changed by bytes that arrive later. */
  lemma DecodeIsStable(s: Bytes, more: Bytes, expectMasked: bool)
    requires Decode(s, expectMasked).Got?
    ensures var d := Decode(s, expectMasked);
            Decode(s + more, expectMasked) == Got(d.frame, d.rest + more)
  {
    var t := s + more;
    var off := PayloadOffset(s[1]);
    DeclaredLengthIsStable(s, more);
    var l := DeclaredLength(s);
    SliceOfConcat(s, more, off, off + l);
    if IsMasked(s[1]) {
      SliceOfConcat(s, more, off - 4, off);
    }
    assert t[off + l..] == s[off + l..] + more;
  }

  lemma SliceOfConcat(s: Bytes, more: Bytes, i: nat, j: nat)
    requires i <= j <= |s|
    ensures (s + more)[i..j] == s[i..j]
  {}

  lemma DeclaredLengthIsStable(s: Bytes, more: Bytes)
    requires |s| >= 2 && |s| >= 2 + DeclaredExtension(s[1])
    ensures DeclaredLength(s + more) == DeclaredLength(s)
  {
    SliceOfConcat(s, more, 2, 2 + DeclaredExtension(s[1]));
  }

  /** A decoded frame depends on no byte behind it. */
  lemma DecodeIsLocal(s: Bytes, expectMasked: bool)
    requires Decode(s, expectMasked).Got?
    ensures var d := Decode(s, expectMasked);
            Decode(s[..|s| - |d.rest|], expectMasked) == Got(d.frame, [])
  {
    DecodedSize(s, expectMasked);
    var n := PayloadOffset(s[1]) + DeclaredLength(s);
    var t, more := s[..n], s[n..];
    assert t + more == s;
    assert t[1] == s[1];
    DeclaredLengthIsStable(t, more);
    LocalPayload(t, more, PayloadOffset(s[1]), DeclaredLength(s));
  }

  lemma LocalPayload(t: Bytes, more: Bytes, off: nat, l: nat)
    requires 2 <= off && |t| == off + l && l <= MAX_PAYLOAD && (IsMasked(t[1]) ==> 4 <= off)
    ensures DecodePayload(t + more, off, l).Got?
    ensures DecodePayload(t, off, l) == Got(DecodePayload(t + more, off, l).frame, [])
  {
    hide Mask;
    SliceOfConcat(t, more, off, off + l);
    if IsMasked(t[1]) {
      SliceOfConcat(t, more, off - 4, off);
    }
  }

  // ---------- Streams of frames ----------

  /** A frame as written, with the masking key drawn for it. */
  datatype Sent = Sent(frame: Frame, key: Option<Key>)

  /** Frames writeFrame can be asked to write and readFrame can accept. */
  predicate Carriable(f: Frame) {
    f.opcode < 16 && |f.payload| <= MAX_PAYLOAD
  }

  predicate LogOk(log: seq<Sent>, masked: bool) {
    forall i | 0 <= i < |log| :: Carriable(log[i].frame) && log[i].key.Some? == masked
  }

  function EncodeSent(x: Sent): Bytes {
    Encode(x.frame.opcode, x.frame.payload, x.key)
  }

  function EncodeLog(log: seq<Sent>): Bytes {
    if log == [] then [] else EncodeLog(log[..|log| - 1]) + EncodeSent(log[|log| - 1])
  }

  function FramesOf(log: seq<Sent>): (fs: seq<Frame>)
    ensures |fs| == |log|
  {
    seq(|log|, i requires 0 <= i < |log| => log[i].frame)
  }

  /** Decodes frames until the input no longer starts with one. */
  function DecodeAll(s: Bytes, expectMasked: bool): (seq<Frame>, Bytes)
    decreases |s|
  {
    var d := Decode(s, expectMasked);
    if d.Bad? then ([], s)
    else
      var (fs, rest) := DecodeAll(d.rest, expectMasked);
      ([d.frame] + fs, rest)
  }

  lemma DecodeAllStep(s: Bytes, expectMasked: bool)
    requires Decode(s, expectMasked).Got?
    ensures var d := Decode(s, expectMasked);
            var (fs, rest) := DecodeAll(d.rest, expectMasked);
            DecodeAll(s, expectMasked) == ([d.frame] + fs, rest)
  {
    hide Decode;
  }

  lemma {:induction false} EncodeLogSplit(log: seq<Sent>)
    requires log != []
    ensures EncodeLog(log) == EncodeSent(log[0]) + EncodeLog(log[1..])
  {
    hide EncodeSent;
    if |log| > 1 {
      EncodeLogSplit(log[..|log| - 1]);
      assert log[..|log| - 1][1..] == log[1..][..|log| - 2];
    } else {
      assert log[..0] == [] && log[1..] == [];
    }
  }

  lemma EncodeLogFront(log: seq<Sent>, torn: Bytes)
    requires log != []
    ensures EncodeLog(log) + torn == EncodeSent(log[0]) + (EncodeLog(log[1..]) + torn)
  {
    hide *;
    EncodeLogSplit(log);
    ConcatAssociates(EncodeSent(log[0]), EncodeLog(log[1..]), torn);
  }

  lemma ConcatAssociates(a: Bytes, b: Bytes, c: Bytes)
    ensures (a + b) + c == a + (b + c)
  {}

  lemma DecodeAllSent(x: Sent, following: Bytes, expectMasked: bool)
    requires Carriable(x.frame) && (expectMasked ==> x.key.Some?)
    ensures var (fs, rest) := DecodeAll(following, expectMasked);
            DecodeAll(EncodeSent(x) + following, expectMasked) == ([x.frame] + fs, rest)
  {
    hide Decode, Encode;
    RoundTripOpcode(x.frame.opcode, x.frame.payload, x.key, following, expectMasked);
    DecodeAllStep(EncodeSent(x) + following, expectMasked);
  }

  /** A reader recovers exactly the frames written, in order, and stops at whatever follows them
      that is not a frame yet. */
  lemma {:induction false} DecodeAllOfLog(log: seq<Sent>, torn: Bytes, masked: bool, expectMasked: bool)
    requires LogOk(log, masked) && (expectMasked ==> masked)
    requires DecodeAll(torn, expectMasked) == ([], torn)
    ensures DecodeAll(EncodeLog(log) + torn, expectMasked) == (FramesOf(log), torn)
    decreases |log|
  {
    hide Decode, EncodeSent, FramesOf;
    if log == [] {
      assert EncodeLog(log) + torn == torn;
    } else {
      EncodeLogFront(log, torn);
      DecodeAllSent(log[0], EncodeLog(log[1..]) + torn, expectMasked);
      DecodeAllOfLog(log[1..], torn, masked, expectMasked);
      FramesOfSplit(log);
    }
  }

  lemma FramesOfSplit(log: seq<Sent>)
    requires log != []
    ensures FramesOf(log) == [log[0].frame] + FramesOf(log[1..])
  {}

  /** What DecodeAll leaves is a suffix that starts no frame; what it took decodes to the same frames on its
      own. */
  lemma {:induction false} DecodeAllPrefix(s: Bytes, expectMasked: bool)
    ensures var (fs, rest) := DecodeAll(s, expectMasked);
            && |rest| <= |s| && rest == s[|s| - |rest|..]
            && Decode(rest, expectMasked).Bad?
            && DecodeAll(s[..|s| - |rest|], expectMasked) == (fs, [])
    decreases |s|
  {
    hide Decode, DecodeAll;
    if Decode(s, expectMasked).Bad? {
      DecodeAllStops(s, expectMasked);
      DecodeAllStops([], expectMasked);
      assert s[..0] == [];
    } else {
      var d := Decode(s, expectMasked);
      var rest := DecodeAll(d.rest, expectMasked).1;
      DecodeAllStep(s, expectMasked);
      DecodeAllPrefix(d.rest, expectMasked);
      SuffixOfSuffix(s, d.rest, rest);
      DecodeWithin(s, |d.rest| - |rest|, expectMasked);
      DecodeAllStep(s[..|s| - |rest|], expectMasked);
    }
  }

  lemma SuffixOfSuffix(s: Bytes, a: Bytes, b: Bytes)
    requires |b| <= |a| <= |s| && a == s[|s| - |a|..] && b == a[|a| - |b|..]
    ensures b == s[|s| - |b|..]
  {}

  lemma DecodeAllStops(s: Bytes, expectMasked: bool)
    ensures Decode(s, expectMasked).Bad? ==> DecodeAll(s, expectMasked) == ([], s)
    ensures Decode([], expectMasked).Bad?
  {
    EmptyIsNoFrame(expectMasked);
    hide Decode;
  }

  /** The first frame decodes the same when the input is cut somewhere behind it. */
  lemma DecodeWithin(s: Bytes, n: nat, expectMasked: bool)
    requires Decode(s, expectMasked).Got? && n <= |Decode(s, expectMasked).rest|
    ensures var d := Decode(s, expectMasked);
            Decode(s[..|s| - |d.rest| + n], expectMasked) == Got(d.frame, d.rest[..n])
  {
    hide Decode;
    var d := Decode(s, expectMasked);
    DecodeIsLocal(s, expectMasked);
    DecodeIsStable(s[..|s| - |d.rest|], d.rest[..n], expectMasked);
    CutBehind(s, d.rest, n);
  }

  lemma CutBehind(s: Bytes, rest: Bytes, n: nat)
    requires n <= |rest| <= |s| && rest == s[|s| - |rest|..]
    ensures s[..|s| - |rest|] + rest[..n] == s[..|s| - |rest| + n] && [] + rest[..n] == rest[..n]
  {}

  lemma EmptyIsNoFrame(expectMasked: bool)
    ensures Decode([], expectMasked).Bad?
  {}

  /** The bytes a stream reader hands on: text and binary payloads, in order. */
  function DataOf(fs: seq<Frame>): Bytes {
    if fs == [] then []
    else DataOf(fs[..|fs| - 1]) + (if IsData(fs[|fs| - 1]) then fs[|fs| - 1].payload else [])
  }

  /** The payloads of the pings. */
  function PingsOf(fs: seq<Frame>): seq<Bytes> {
    if fs == [] then []
    else PingsOf(fs[..|fs| - 1]) + (if fs[|fs| - 1].opcode == 9 then [fs[|fs| - 1].payload] else [])
  }

  predicate IsData(f: Frame) {
    f.opcode == 1 || f.opcode == 2
  }

  lemma {:induction false} DataOfConcat(a: seq<Frame>, b: seq<Frame>)
    ensures DataOf(a + b) == DataOf(a) + DataOf(b)
    decreases |b|
  {
    if b == [] {
      assert a + b == a;
    } else {
      hide DataOf;
      var front, last := b[..|b| - 1], b[|b| - 1];
      DataOfConcat(a, front);
      SnocConcat(a, b);
      DataOfSnoc(a + front, last);
      DataOfSnoc(front, last);
      ConcatAssociates(DataOf(a), DataOf(front), if IsData(last) then last.payload else []);
    }
  }

  lemma {:induction false} PingsOfConcat(a: seq<Frame>, b: seq<Frame>)
    ensures PingsOf(a + b) == PingsOf(a) + PingsOf(b)
    decreases |b|
  {
    if b == [] {
      assert a + b == a;
    } else {
      hide PingsOf;
      var front, last := b[..|b| - 1], b[|b| - 1];
      PingsOfConcat(a, front);
      SnocConcat(a, b);
      DataOfSnoc(a + front, last);
      DataOfSnoc(front, last);
    }
  }

  lemma SnocConcat(a: seq<Frame>, b: seq<Frame>)
    requires b != []
    ensures b == b[..|b| - 1] + [b[|b| - 1]]
    ensures a + b == (a + b[..|b| - 1]) + [b[|b| - 1]]
  {}

  lemma DataOfSnoc(fs: seq<Frame>, f: Frame)
    ensures DataOf(fs + [f]) == DataOf(fs) + (if IsData(f) then f.payload else [])
    ensures PingsOf(fs + [f]) == PingsOf(fs) + (if f.opcode == 9 then [f.payload] else [])
  {
    assert (fs + [f])[..|fs|] == fs;
  }

  // ---------- Frames by opcode ----------

  /** The payloads of the frames with one of these opcodes. */
  function PayloadsWith(fs: seq<Frame>, opcodes: set<Byte>): seq<Bytes> {
    if fs == [] then []
    else
      var last := fs[|fs| - 1];
      PayloadsWith(fs[..|fs| - 1], opcodes) + (if last.opcode in opcodes then [last.payload] else [])
  }

  function Flatten(parts: seq<Bytes>): Bytes {
    if parts == [] then [] else Flatten(parts[..|parts| - 1]) + parts[|parts| - 1]
  }

  /** Data are the payloads of text frames (1) and binary frames (2), one after the other; pings have opcode 9. */
  lemma {:induction false} DataIsTextAndBinary(fs: seq<Frame>)
    ensures DataOf(fs) == Flatten(PayloadsWith(fs, {1, 2})) && PingsOf(fs) == PayloadsWith(fs, {9})
    decreases |fs|
  {
    if fs != [] {
      var front, last := fs[..|fs| - 1], fs[|fs| - 1];
      DataIsTextAndBinary(front);
      var before := PayloadsWith(front, {1, 2});
      assert before + [] == before && (before + [last.payload])[..|before|] == before;
      assert DataOf(front) + [] == DataOf(front);
    }
  }
}
