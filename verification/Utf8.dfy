/** Cutting a title to a number of bytes (cmd/reach-agent/process_title.go and, word for word the same,
    provisioner.go), over byte strings that need not be UTF-8. */
module Utf8 {
  import opened ByteSeq

  // ---------- UTF-8 (section 4 of RFC 3629) ----------

  predicate Tail(b: Byte) {
    0x80 <= b <= 0xBF
  }

  /** Length of a character with this first byte, 0 if it starts none. */
  function LengthFor(b: Byte): (n: nat)
    ensures n <= 4
  {
    if b <= 0x7F then 1
    else if 0xC2 <= b <= 0xDF then 2
    else if 0xE0 <= b <= 0xEF then 3
    else if 0xF0 <= b <= 0xF4 then 4
    else 0
  }

  /** The second byte of a character is narrower after some first bytes: no overlong form, no surrogate,
      nothing above U+10FFFF. */
  predicate SecondOk(first: Byte, b: Byte) {
    && Tail(b)
    && (first == 0xE0 ==> 0xA0 <= b)
    && (first == 0xED ==> b <= 0x9F)
    && (first == 0xF0 ==> 0x90 <= b)
    && (first == 0xF4 ==> b <= 0x8F)
  }

  /** Length of the well-formed character at the start of s, 0 if there is none. */
  function RuneLength(s: Bytes): (n: nat)
    ensures n <= 4 && n <= |s|
    ensures n > 0 ==> n == LengthFor(s[0]) && !Tail(s[0]) && forall i | 1 <= i < n :: Tail(s[i])
  {
    if s == [] then 0
    else
      var n := LengthFor(s[0]);
      if n == 0 || |s| < n then 0
      else if (n >= 2 ==> SecondOk(s[0], s[1])) && (n >= 3 ==> Tail(s[2])) && (n >= 4 ==> Tail(s[3])) then n
      else 0
  }

  /** utf8.ValidString */
  predicate Valid(s: Bytes)
    decreases |s|
  {
    s == [] || (RuneLength(s) > 0 && Valid(s[RuneLength(s)..]))
  }

  /** A well-formed character at the start is decided by its own bytes. */
  lemma RuneLengthLocal(s: Bytes, n: nat)
    requires n <= |s|
    ensures 0 < RuneLength(s) <= n ==> RuneLength(s[..n]) == RuneLength(s)
    ensures RuneLength(s[..n]) > 0 ==> RuneLength(s) == RuneLength(s[..n])
  {}

  lemma {:induction false} ValidConcat(a: Bytes, b: Bytes)
    requires Valid(a)
    ensures Valid(a + b) <==> Valid(b)
    decreases |a|
  {
    if a == [] {
      assert a + b == b;
    } else {
      var n := RuneLength(a);
      assert (a + b)[..|a|] == a;
      RuneLengthLocal(a + b, |a|);
      assert (a + b)[n..] == a[n..] + b;
      ValidConcat(a[n..], b);
    }
  }

  /** A valid string ends with a whole character, and is valid without it. */
  lemma {:induction false} ValidEndsWithRune(s: Bytes) returns (k: nat)
    requires Valid(s) && s != []
    ensures 1 <= k <= 4 && k <= |s| && RuneLength(s[|s| - k..]) == k
    decreases |s|
  {
    var n := RuneLength(s);
    if n == |s| {
      k := n;
      assert s[0..] == s;
    } else {
      var rest := s[n..];
      k := ValidEndsWithRune(rest);
      assert rest[|rest| - k..] == s[|s| - k..];
    }
  }

  // ---------- The same characters by code point (section 3 of RFC 3629) ----------

  predicate Scalar(cp: nat) {
    cp <= 0x10FFFF && !(0xD800 <= cp <= 0xDFFF)
  }

  /** Six bits to each byte after the first. */
  function EncodeRune(cp: nat): Bytes
    requires Scalar(cp)
  {
    var c0, q1 := cp % 64, cp / 64;
    var c1, q2 := q1 % 64, q1 / 64;
    var c2, q3 := q2 % 64, q2 / 64;
    if cp < 0x80 then [cp]
    else if cp < 0x800 then [0xC0 + q1, 0x80 + c0]
    else if cp < 0x1_0000 then [0xE0 + q2, 0x80 + c1, 0x80 + c0]
    else [0xF0 + q3, 0x80 + c2, 0x80 + c1, 0x80 + c0]
  }

  function Shift(q: int, b: int): int {
    q * 64 + (b - 0x80)
  }

  /** The number the low bits of a well-formed character spell. */
  function CodePoint(s: Bytes): int
    requires RuneLength(s) > 0
  {
    var b: int := s[0];
    match RuneLength(s)
    case 1 => b
    case 2 => Shift(b - 0xC0, s[1])
    case 3 => Shift(Shift(b - 0xE0, s[1]), s[2])
    case _ => Shift(Shift(Shift(b - 0xF0, s[1]), s[2]), s[3])
  }

  lemma ShiftBack(q: int, b: int)
    requires 0x80 <= b < 0xC0 && q >= 0
    ensures Shift(q, b) / 64 == q && 0x80 + Shift(q, b) % 64 == b
  {}

  /** The encoding of any Unicode scalar value is a well-formed character, whatever follows. */
  lemma EncodedIsRune(cp: nat, following: Bytes)
    requires Scalar(cp)
    ensures RuneLength(EncodeRune(cp) + following) == |EncodeRune(cp)|
    ensures CodePoint(EncodeRune(cp) + following) == cp
  {
    var e := EncodeRune(cp);
    var s := e + following;
    assert forall i | 0 <= i < |e| :: s[i] == e[i];
  }

  /** A well-formed character is the encoding of a scalar value: nothing overlong, no surrogate. */
  lemma RuneIsEncoded(s: Bytes)
    requires RuneLength(s) > 0
    ensures Scalar(CodePoint(s)) && EncodeRune(CodePoint(s)) == s[..RuneLength(s)]
  {
    hide Shift;
    var b: int := s[0];
    var cp := CodePoint(s);
    match RuneLength(s)
    case 1 =>
    case 2 =>
      ShiftBack(b - 0xC0, s[1]);
    case 3 =>
      ShiftBack(b - 0xE0, s[1]);
      ShiftBack(Shift(b - 0xE0, s[1]), s[2]);
    case _ =>
      ShiftBack(b - 0xF0, s[1]);
      ShiftBack(Shift(b - 0xF0, s[1]), s[2]);
      ShiftBack(Shift(Shift(b - 0xF0, s[1]), s[2]), s[3]);
  }

  /** The text with these code points. */
  function EncodeAll(cps: seq<nat>): Bytes
    requires forall i | 0 <= i < |cps| :: Scalar(cps[i])
    decreases |cps|
  {
    if cps == [] then [] else EncodeRune(cps[0]) + EncodeAll(cps[1..])
  }

  ghost predicate IsText(s: Bytes) {
    exists cps: seq<nat> :: (forall i | 0 <= i < |cps| :: Scalar(cps[i])) && s == EncodeAll(cps)
  }

  /** Valid strings are exactly the encodings of sequences of Unicode scalar values. */
  lemma ValidIsText(s: Bytes)
    ensures Valid(s) <==> IsText(s)
  {
    if Valid(s) {
      var cps := CodePoints(s);
    }
    if IsText(s) {
      var cps: seq<nat> :| (forall i | 0 <= i < |cps| :: Scalar(cps[i])) && s == EncodeAll(cps);
      TextIsValid(cps);
    }
  }

  lemma {:induction false} CodePoints(s: Bytes) returns (cps: seq<nat>)
    requires Valid(s)
    ensures (forall i | 0 <= i < |cps| :: Scalar(cps[i])) && EncodeAll(cps) == s
    decreases |s|
  {
    if s == [] {
      return [];
    }
    hide *;
    var cp, n := FirstRune(s);
    var rest := CodePoints(s[n..]);
    cps := [cp] + rest;
    assert cps[1..] == rest && s[..n] + s[n..] == s;
    AllEncoded(cps);
  }

  lemma FirstRune(s: Bytes) returns (cp: nat, n: nat)
    requires Valid(s) && s != []
    ensures Scalar(cp) && 0 < n <= |s| && EncodeRune(cp) == s[..n] && Valid(s[n..])
  {
    hide EncodeRune;
    n := RuneLength(s);
    RuneIsEncoded(s);
    cp := CodePoint(s);
  }

  lemma AllEncoded(cps: seq<nat>)
    requires cps != [] && forall i | 0 <= i < |cps| :: Scalar(cps[i])
    ensures EncodeAll(cps) == EncodeRune(cps[0]) + EncodeAll(cps[1..])
  {}

  lemma {:induction false} TextIsValid(cps: seq<nat>)
    requires forall i | 0 <= i < |cps| :: Scalar(cps[i])
    ensures Valid(EncodeAll(cps))
    decreases |cps|
  {
    if cps != [] {
      TextIsValid(cps[1..]);
      hide CodePoint, RuneLength;
      var e, rest := EncodeRune(cps[0]), EncodeAll(cps[1..]);
      EncodedIsRune(cps[0], rest);
      hide EncodeRune;
      assert (e + rest)[|e|..] == rest;
    }
  }

  // ---------- utf8.DecodeLastRuneInString ----------

  predicate RuneStart(b: Byte) {
    !Tail(b)
  }

  /** The size it reports for a non-empty string: of the last character, or 1 for RuneError. */
  method DecodeLastSize(s: Bytes) returns (size: nat)
    requires s != []
    ensures 1 <= size <= 4 && size <= |s|
    ensures size == 1 || RuneLength(s[|s| - size..]) == size
  {
    var end := |s|;
    var start := end - 1;
    if s[start] < 0x80 {
      return 1;
    }
    var lim := if end - 4 < 0 then 0 else end - 4;
    start := start - 1;
    while start >= lim && !RuneStart(s[start])
      invariant lim - 1 <= start <= end - 2
      decreases start
    {
      start := start - 1;
    }
    if start < 0 {
      start := 0;
    }
    var n := RuneLength(s[start..]);
    var decoded := if n > 0 then n else 1;
    if start + decoded != end {
      return 1;
    }
    size := decoded;
  }

  /** Skipping a whole last character skips no valid prefix: none ends inside it. */
  lemma NoValidPrefixInsideRune(t: Bytes, n: nat, j: nat)
    requires n <= |t| && RuneLength(t[|t| - n..]) == n && 0 < j < n
    ensures !Valid(t[..|t| - j])
  {
    var p := t[..|t| - j];
    if Valid(p) {
      var k := ValidEndsWithRune(p);
      NoRuneEndsInside(t, n, j, k);
    }
  }

  lemma NoRuneEndsInside(t: Bytes, n: nat, j: nat, k: nat)
    requires n <= |t| && RuneLength(t[|t| - n..]) == n && 0 < j < n
    requires 1 <= k <= |t| - j
    ensures RuneLength(t[..|t| - j][|t| - j - k..]) != k
  {
    var first, from := |t| - n, |t| - j - k;
    var last := t[..|t| - j][from..];
    assert t[first..][0] == t[first];
    assert forall i | first < i < |t| :: t[i] == t[first..][i - first];
    assert last[0] == t[from];
    if from < first {
      assert last[first - from] == t[first];
    }
  }

  // ---------- truncateUTF8Bytes ----------

  /** r is the longest valid prefix of s with at most max bytes. */
  ghost predicate LongestValidPrefix(s: Bytes, max: nat, r: Bytes)
    requires max <= |s|
  {
    && r <= s && |r| <= max && Valid(r)
    && forall k: nat | k <= max && Valid(s[..k]) :: k <= |r|
  }

  method TruncateUTF8Bytes(s: Bytes, limit: int) returns (r: Bytes)
    ensures limit <= 0 ==> r == []
    ensures limit > 0 && |s| <= limit ==> r == s
    ensures 0 < limit < |s| ==> LongestValidPrefix(s, limit, r)
    ensures 0 < limit < |s| && Valid(s) ==> |r| >= limit - 3
  {
    if limit <= 0 {
      return [];
    }
    if |s| <= limit {
      return s;
    }
    var max := limit;
    while max > 0 && !Valid(s[..max])
      invariant 0 <= max <= limit
      invariant forall k: nat | max < k <= limit :: !Valid(s[..k])
      decreases max
    {
      var size := DecodeLastSize(s[..max]);
      if size <= 0 || size > max {
        max := max - 1;
      } else {
        SkipsNothing(s, max, size);
        max := max - size;
      }
    }
    r := s[..max];
    if Valid(s) {
      var k := BoundaryNear(s, limit);
    }
  }

  lemma SkipsNothing(s: Bytes, max: nat, size: nat)
    requires 0 < size <= max <= |s| && !Valid(s[..max])
    requires size == 1 || RuneLength(s[..max][max - size..]) == size
    ensures forall k: nat | max - size < k <= max :: !Valid(s[..k])
  {
    forall k: nat | max - size < k < max
      ensures !Valid(s[..k])
    {
      NoValidPrefixInsideRune(s[..max], size, max - k);
      assert s[..max][..k] == s[..k];
    }
  }

  /** A valid string has a valid prefix at most three bytes short of any length. */
  lemma {:induction false} BoundaryNear(s: Bytes, max: nat) returns (k: nat)
    requires Valid(s) && max <= |s|
    ensures k <= max <= k + 3 && Valid(s[..k])
    decreases |s|
  {
    var n := RuneLength(s);
    if s == [] || n > max {
      k := 0;
      assert s[..0] == [];
    } else {
      var k' := BoundaryNear(s[n..], max - n);
      k := n + k';
      assert s[..k] == s[..n] + s[n..][..k'];
      RuneLengthLocal(s, n);
      assert s[..n][n..] == [];
      ValidConcat(s[..n], s[n..][..k']);
    }
  }
}
