/** The functions of Go's strings package that several models use. */
module Strings {
  /** unicode.IsSpace */
  predicate IsSpace(c: char) {
    c in {'\t', '\n', '\U{B}', '\U{C}', '\r', ' ', '\U{85}', '\U{A0}', '\U{1680}', '\U{2028}', '\U{2029}', '\U{202F}',
      '\U{205F}', '\U{3000}'}
    || '\U{2000}' <= c <= '\U{200A}'
  }

  function TrimLeft(s: string): (r: string)
    ensures |r| <= |s|
  {
    if s != "" && IsSpace(s[0]) then TrimLeft(s[1..]) else s
  }

  function TrimRight(s: string): (r: string)
    ensures |r| <= |s|
  {
    if s != "" && IsSpace(s[|s| - 1]) then TrimRight(s[..|s| - 1]) else s
  }

  function TrimSpace(s: string): string {
    TrimRight(TrimLeft(s))
  }

  lemma Trimmed(s: string)
    ensures TrimSpace(s) == s <==> s == "" || (!IsSpace(s[0]) && !IsSpace(s[|s| - 1]))
  {
    hide IsSpace;
  }

  /** The white space among the ASCII characters, and no other. */
  lemma AsciiSpaces(c: char)
    requires c < '\U{80}'
    ensures IsSpace(c) <==> c == ' ' || '\t' <= c <= '\r'
  {}

  /** strings.IndexByte, with the length for "not found" */
  function IndexOf(s: string, c: char): (n: nat)
    ensures n <= |s|
    ensures forall i | 0 <= i < n :: s[i] != c
    ensures n < |s| ==> s[n] == c
  {
    if s == "" || s[0] == c then 0 else 1 + IndexOf(s[1..], c)
  }

  predicate Without(s: string, c: char) {
    forall i | 0 <= i < |s| :: s[i] != c
  }

  /** strings.Split */
  function Split(s: string, c: char): (parts: seq<string>)
    ensures |parts| > 0
    ensures forall i | 0 <= i < |parts| :: Without(parts[i], c)
    decreases |s|
  {
    var n := IndexOf(s, c);
    assert s[..|s|] == s;
    if n == |s| then [s] else [s[..n]] + Split(s[n + 1..], c)
  }

  /** strings.Join */
  function Join(parts: seq<string>, c: char): string {
    if parts == [] then "" else if |parts| == 1 then parts[0] else parts[0] + [c] + Join(parts[1..], c)
  }

  lemma FirstPart(part: string, c: char, rest: string)
    requires Without(part, c)
    ensures IndexOf(part + [c] + rest, c) == |part|
    ensures Split(part + [c] + rest, c) == [part] + Split(rest, c)
  {
    var s := part + [c] + rest;
    var n := IndexOf(s, c);
    assert s[|part|] == c;
    assert forall i | 0 <= i < |part| :: s[i] == part[i];
    assert n == |part|;
    assert s[..n] == part && s[n + 1..] == rest;
  }

  lemma OnlyPart(part: string, c: char)
    requires Without(part, c)
    ensures IndexOf(part, c) == |part|
    ensures Split(part, c) == [part]
  {}

  /** Parts without the separator survive Join and Split. */
  lemma {:induction false} SplitJoined(parts: seq<string>, c: char)
    requires parts != []
    requires forall i | 0 <= i < |parts| :: Without(parts[i], c)
    ensures Split(Join(parts, c), c) == parts
    decreases |parts|
  {
    hide Split, Without;
    if |parts| == 1 {
      OnlyPart(parts[0], c);
    } else {
      SplitJoined(parts[1..], c);
      FirstPart(parts[0], c, Join(parts[1..], c));
    }
  }

  /** A separator cuts a text in two, whatever else is in it. */
  lemma {:induction false} SplitConcat(a: string, c: char, b: string)
    ensures Split(a + [c] + b, c) == Split(a, c) + Split(b, c)
    decreases |a|
  {
    hide Split;
    var n := IndexOf(a, c);
    if n == |a| {
      OnlyPart(a, c);
      FirstPart(a, c, b);
    } else {
      var first, more := a[..n], a[n + 1..];
      assert first + [c] + more == a;
      assert first + [c] + (more + [c] + b) == a + [c] + b;
      SplitConcat(more, c, b);
      FirstPart(first, c, more);
      FirstPart(first, c, more + [c] + b);
      assert ([first] + Split(more, c)) + Split(b, c) == [first] + (Split(more, c) + Split(b, c));
    }
  }

  lemma {:induction false} JoinSnoc(parts: seq<string>, last: string, c: char)
    requires parts != []
    ensures Join(parts + [last], c) == Join(parts, c) + [c] + last
    decreases |parts|
  {
    if |parts| == 1 {
      assert (parts + [last])[1..] == [last];
    } else {
      JoinSnoc(parts[1..], last, c);
      assert (parts + [last])[1..] == parts[1..] + [last];
      assert parts[0] + [c] + (Join(parts[1..], c) + [c] + last) == (parts[0] + [c] + Join(parts[1..], c)) + [c] + last;
    }
  }

  /** The characters before the first space */
  function Word(s: string): (w: string)
    ensures w <= s
    ensures |w| < |s| ==> IsSpace(s[|w|])
    ensures s != "" && !IsSpace(s[0]) ==> w != ""
  {
    if s == "" || IsSpace(s[0]) then "" else [s[0]] + Word(s[1..])
  }

  /** strings.Fields */
  function Fields(s: string): seq<string>
    decreases |s|
  {
    if s == "" then []
    else if IsSpace(s[0]) then Fields(s[1..])
    else [Word(s)] + Fields(s[|Word(s)|..])
  }

  predicate NoSpace(s: string) {
    forall i | 0 <= i < |s| :: !IsSpace(s[i])
  }

  lemma {:induction false} WordIs(w: string, rest: string)
    requires NoSpace(w) && (rest == "" || IsSpace(rest[0]))
    ensures Word(w + rest) == w
    decreases |w|
  {
    hide IsSpace;
    if w == "" {
      assert w + rest == rest;
    } else {
      WordIs(w[1..], rest);
      assert (w + rest)[1..] == w[1..] + rest;
    }
  }

  /** Any amount of white space separates words, and only that. */
  lemma FieldsByWords(w: string, space: char, rest: string)
    requires NoSpace(w) && IsSpace(space)
    ensures Fields("") == [] && Fields([space] + rest) == Fields(rest)
    ensures w != "" ==> Fields(w) == [w] && Fields(w + [space] + rest) == [w] + Fields(rest)
  {
    hide IsSpace, Word;
    assert ([space] + rest)[1..] == rest;
    if w != "" {
      WordIs(w, "");
      assert w + "" == w && w[|w|..] == "";
      var more := [space] + rest;
      WordIs(w, more);
      assert w + [space] + rest == w + more && (w + more)[|w|..] == more;
    }
  }
}
