/** Slugs: the server's NormalizeSlug (security.go), the agent's own normalizeSlug
    (cmd/reach-agent/install.go), ValidateSlug and the slugs of retired machines.
    Both normalizers first apply strings.TrimSpace and strings.ToLower; that common first step is
    the parameter `fold`, and every result below holds for any fold. */
module Slug {
  const MAX_SLUG := 32

  predicate Alnum(c: char) {
    'a' <= c <= 'z' || '0' <= c <= '9'
  }

  predicate SlugChar(c: char) {
    Alnum(c) || c == '-'
  }

  predicate HasAlnum(s: string) {
    exists i :: 0 <= i < |s| && Alnum(s[i])
  }

  /** ^[a-z0-9][a-z0-9-]{1,30}[a-z0-9]$ */
  predicate ValidSlug(s: string) {
    && 3 <= |s| <= MAX_SLUG
    && (forall i | 0 <= i < |s| :: SlugChar(s[i]))
    && Alnum(s[0]) && Alnum(s[|s| - 1])
  }

  const LETTERS := "abcdefghijklmnopqrstuvwxyz"
  const DIGITS := "0123456789"

  lemma AlnumIs(c: char)
    ensures Alnum(c) <==> c in LETTERS || c in DIGITS
  {
    assert forall i | 0 <= i < |LETTERS| :: LETTERS[i] as int == 'a' as int + i;
    assert forall i | 0 <= i < |DIGITS| :: DIGITS[i] as int == '0' as int + i;
    if 'a' <= c <= 'z' {
      assert LETTERS[c as int - 'a' as int] == c;
    } else if '0' <= c <= '9' {
      assert DIGITS[c as int - '0' as int] == c;
    }
  }

  /** The slugs, letter by letter. */
  lemma SlugsAre(s: string)
    ensures ValidSlug(s) <==>
            && 3 <= |s| <= 32 && s[0] != '-' && s[|s| - 1] != '-'
            && forall i | 0 <= i < |s| :: s[i] in LETTERS || s[i] in DIGITS || s[i] == '-'
  {
    forall i | 0 <= i < |s|
      ensures Alnum(s[i]) <==> s[i] in LETTERS || s[i] in DIGITS
    {
      AlnumIs(s[i]);
    }
    hide Alnum;
  }

  predicate NoDoubleHyphen(s: string) {
    forall i | 0 <= i < |s| - 1 :: s[i] != '-' || s[i + 1] != '-'
  }

  // ---------- strings.Trim(s, "-") ----------

  function TrimLeft(s: string): string {
    if s != [] && s[0] == '-' then TrimLeft(s[1..]) else s
  }

  function TrimRight(s: string): string {
    if s != [] && s[|s| - 1] == '-' then TrimRight(s[..|s| - 1]) else s
  }

  function Trim(s: string): string {
    TrimRight(TrimLeft(s))
  }

  // ---------- The server: one pass with a flag ----------

  /** The characters written by the loop of NormalizeSlug for the rest of the name. */
  function OnePass(s: string, lastHyphen: bool): string {
    if s == [] then []
    else if Alnum(s[0]) then [s[0]] + OnePass(s[1..], false)
    else if lastHyphen then OnePass(s[1..], true)
    else ['-'] + OnePass(s[1..], true)
  }

  /** Trimming, cutting and padding, which both implementations share. */
  function Finish(collapsed: string): string {
    var out := Trim(collapsed);
    var cut := if |out| > MAX_SLUG then Trim(out[..MAX_SLUG]) else out;
    if |cut| < 3 then "box-" + cut else cut
  }

  function NormalizeSlug(name: string, fold: string -> string): string {
    Finish(OnePass(fold(name), false))
  }

  method NormalizeSlugLoop(name: string, fold: string -> string) returns (out: string)
    ensures out == NormalizeSlug(name, fold)
  {
    var b := CollapseLoop(fold(name));
    out := Trim(b);
    if |out| > MAX_SLUG {
      out := Trim(out[..MAX_SLUG]);
    }
    if |out| < 3 {
      out := "box-" + out;
    }
  }

  method CollapseLoop(s: string) returns (b: string)
    ensures b == OnePass(s, false)
  {
    b := "";
    var lastHyphen := false;
    var i := 0;
    while i < |s|
      invariant 0 <= i <= |s|
      invariant b + OnePass(s[i..], lastHyphen) == OnePass(s, false)
    {
      OnePassStep(b, s[i..], lastHyphen);
      assert s[i..][1..] == s[i + 1..];
      if Alnum(s[i]) {
        b := b + [s[i]];
        lastHyphen := false;
      } else if !lastHyphen {
        b := b + "-";
        lastHyphen := true;
      }
      i := i + 1;
    }
    assert s[i..] == [] && b + [] == b;
  }

  lemma OnePassStep(b: string, s: string, lastHyphen: bool)
    requires s != []
    ensures b + OnePass(s, lastHyphen) ==
            if Alnum(s[0]) then (b + [s[0]]) + OnePass(s[1..], false)
            else if lastHyphen then b + OnePass(s[1..], true)
            else (b + "-") + OnePass(s[1..], true)
  {}

  // ---------- The agent: a regular expression ----------

  /** Length of the longest match of [^a-z0-9]* at the start of s. */
  function RunLength(s: string): (n: nat)
    ensures n <= |s|
    ensures forall i | 0 <= i < n :: !Alnum(s[i])
    ensures n < |s| ==> Alnum(s[n])
  {
    if s == [] || Alnum(s[0]) then 0 else 1 + RunLength(s[1..])
  }

  /** regexp `[^a-z0-9]+` replaced by "-": leftmost, longest matches. */
  function ReplaceRuns(s: string): string
    decreases |s|
  {
    if s == [] then []
    else if Alnum(s[0]) then [s[0]] + ReplaceRuns(s[1..])
    else ['-'] + ReplaceRuns(s[RunLength(s)..])
  }

  function AgentNormalizeSlug(name: string, fold: string -> string, goos: string): string {
    var s := Trim(ReplaceRuns(fold(name)));
    var cut := if |s| > MAX_SLUG then Trim(s[..MAX_SLUG]) else s;
    var padded := if |cut| < 3 then "box-" + cut else cut;
    if |padded| < 3 then "box-" + goos else padded
  }

  lemma {:induction false} OnePassReplacesRuns(s: string)
    ensures OnePass(s, false) == ReplaceRuns(s)
    ensures OnePass(s, true) == ReplaceRuns(s[RunLength(s)..])
    decreases |s|
  {
    if s != [] {
      OnePassReplacesRuns(s[1..]);
      if !Alnum(s[0]) {
        assert s[1..][RunLength(s[1..])..] == s[RunLength(s)..];
      }
    }
  }

  /** The two implementations agree on every name. */
  lemma AgentAgrees(name: string, fold: string -> string, goos: string)
    ensures AgentNormalizeSlug(name, fold, goos) == NormalizeSlug(name, fold)
  {
    OnePassReplacesRuns(fold(name));
  }

  // ---------- What the result looks like ----------

  lemma {:induction false} OnePassShape(s: string, lastHyphen: bool)
    ensures var t := OnePass(s, lastHyphen);
            && (forall i | 0 <= i < |t| :: SlugChar(t[i]))
            && NoDoubleHyphen(t)
            && (lastHyphen && t != [] ==> t[0] != '-')
            && (HasAlnum(t) <==> HasAlnum(s))
    decreases |s|
  {
    if s != [] {
      OnePassShape(s[1..], false);
      OnePassShape(s[1..], true);
      HasAlnumCons(s[0], s[1..]);
      assert [s[0]] + s[1..] == s;
      HasAlnumCons(s[0], OnePass(s[1..], false));
      HasAlnumCons('-', OnePass(s[1..], true));
    }
  }

  lemma HasAlnumCons(c: char, s: string)
    ensures HasAlnum([c] + s) <==> Alnum(c) || HasAlnum(s)
  {
    assert ([c] + s)[0] == c;
    if HasAlnum(s) {
      var i :| 0 <= i < |s| && Alnum(s[i]);
      assert ([c] + s)[i + 1] == s[i];
    }
  }

  lemma {:induction false} TrimLeftShape(s: string) returns (k: nat)
    ensures k <= |s| && TrimLeft(s) == s[k..]
    ensures forall i | 0 <= i < k :: s[i] == '-'
    ensures k < |s| ==> s[k] != '-'
  {
    if s != [] && s[0] == '-' {
      var n := TrimLeftShape(s[1..]);
      k := n + 1;
      assert s[1..][n..] == s[k..];
      assert forall i | 1 <= i < k :: s[i] == s[1..][i - 1];
    } else {
      k := 0;
      assert s[0..] == s;
    }
  }

  lemma {:induction false} TrimRightShape(s: string) returns (k: nat)
    ensures k <= |s| && TrimRight(s) == s[..k]
    ensures forall i | k <= i < |s| :: s[i] == '-'
    ensures k > 0 ==> s[k - 1] != '-'
  {
    if s != [] && s[|s| - 1] == '-' {
      var front := s[..|s| - 1];
      k := TrimRightShape(front);
      assert front[..k] == s[..k];
      assert forall i | k <= i < |front| :: s[i] == front[i];
    } else {
      k := |s|;
      assert s[..|s|] == s;
    }
  }

  /** Trim takes off hyphens only, and all of those at the ends. */
  lemma TrimShape(s: string) returns (i: nat, j: nat)
    ensures i <= j <= |s| && Trim(s) == s[i..j]
    ensures forall k | 0 <= k < i || j <= k < |s| :: s[k] == '-'
    ensures i < j ==> s[i] != '-' && s[j - 1] != '-'
  {
    hide TrimLeft, TrimRight;
    i := TrimLeftShape(s);
    var n := TrimRightShape(s[i..]);
    j := i + n;
    assert s[i..][..n] == s[i..j];
    assert forall k | j <= k < |s| :: s[k] == s[i..][k - i];
  }

  /** Slug characters without a double hyphen, with a letter or digit at both ends. */
  predicate Core(s: string) {
    && s != [] && Alnum(s[0]) && Alnum(s[|s| - 1])
    && (forall i | 0 <= i < |s| :: SlugChar(s[i]))
    && NoDoubleHyphen(s)
  }

  lemma TrimIsCore(s: string)
    requires (forall i | 0 <= i < |s| :: SlugChar(s[i])) && NoDoubleHyphen(s)
    ensures HasAlnum(s) ==> Core(Trim(s))
    ensures !HasAlnum(s) ==> Trim(s) == []
  {
    var i, j := TrimShape(s);
    var t := Trim(s);
    assert forall k | 0 <= k < |t| :: t[k] == s[i + k];
  }

  /** Cutting a core and trimming again loses at most one more character. */
  lemma CutCore(s: string, n: nat)
    requires Core(s) && 2 <= n <= |s|
    ensures Core(Trim(s[..n])) && n - 1 <= |Trim(s[..n])| <= n
  {
    var t := s[..n];
    assert Alnum(t[0]);
    TrimIsCore(t);
    var i, j := TrimShape(t);
    assert i == 0;
    assert NoDoubleHyphen(t);
    assert t[n - 2] != '-' || t[n - 2 + 1] != '-';
  }

  /** The result is a valid slug exactly when the folded name has an ASCII letter or digit; it then has no
      double hyphen. Otherwise it is "box-", which ValidateSlug rejects. */
  lemma NormalizedIsValid(name: string, fold: string -> string)
    ensures var out := NormalizeSlug(name, fold);
            && (ValidSlug(out) <==> HasAlnum(fold(name)))
            && (HasAlnum(fold(name)) ==> Core(out))
            && (!HasAlnum(fold(name)) ==> out == "box-")
  {
    var b := OnePass(fold(name), false);
    OnePassShape(fold(name), false);
    TrimIsCore(b);
    var out := Trim(b);
    if HasAlnum(b) {
      if |out| > MAX_SLUG {
        CutCore(out, MAX_SLUG);
      } else if |out| < 3 {
        var padded := "box-" + out;
        assert forall i | 4 <= i < |padded| :: padded[i] == out[i - 4];
      }
    } else {
      assert "box-" + "" == "box-";
      assert "box-"[3] == '-';
    }
  }

  lemma {:induction false} OnePassKeeps(s: string, lastHyphen: bool)
    requires (forall i | 0 <= i < |s| :: SlugChar(s[i])) && NoDoubleHyphen(s)
    requires lastHyphen && s != [] ==> s[0] != '-'
    ensures OnePass(s, lastHyphen) == s
    decreases |s|
  {
    if s != [] {
      assert forall i | 0 <= i < |s[1..]| :: s[1..][i] == s[i + 1];
      OnePassKeeps(s[1..], s[0] == '-');
      assert [s[0]] + s[1..] == s;
    }
  }

  /** A result that is a valid slug is a fixed point, for every fold that leaves slugs alone. */
  lemma NormalizeIsIdempotent(name: string, fold: string -> string)
    requires HasAlnum(fold(name))
    requires var out := NormalizeSlug(name, fold); fold(out) == out
    ensures var out := NormalizeSlug(name, fold); NormalizeSlug(out, fold) == out
  {
    var out := NormalizeSlug(name, fold);
    NormalizedIsValid(name, fold);
    OnePassKeeps(out, false);
  }

  // ---------- Slugs of retired machines ----------

  const RETIRED := "--retired-"

  /** The base both retiredSlug functions build candidates from; 14 is 32 less the suffix length. */
  function RetiredBase(original: string, fold: string -> string): string {
    var base := NormalizeSlug(original, fold);
    var cut := if |base| > 14 then Trim(base[..14]) else base;
    if |cut| < 3 then "box" else cut
  }

  /** The candidate for one draw of RandomShortID: eight letters or digits. */
  function RetiredCandidate(original: string, short: string, fold: string -> string): string {
    RetiredBase(original, fold) + RETIRED + short
  }

  predicate ShortId(s: string) {
    |s| == 8 && forall i | 0 <= i < |s| :: Alnum(s[i])
  }

  /** Every candidate is a valid slug, whatever the original: the `continue` after ValidateSlug in
      provisioner.go is never taken, and db.go needs no check. */
  lemma RetiredCandidateIsValid(original: string, short: string, fold: string -> string)
    requires ShortId(short)
    ensures ValidSlug(RetiredCandidate(original, short, fold))
  {
    NormalizedIsValid(original, fold);
    var base := NormalizeSlug(original, fold);
    if |base| > 14 {
      CutCore(base, 14);
    }
    var b := RetiredBase(original, fold);
    assert 3 <= |b| <= 14 && Alnum(b[0]) && forall i | 0 <= i < |b| :: SlugChar(b[i]);
    var c := RetiredCandidate(original, short, fold);
    assert |c| == |b| + 18;
    assert c == b + (RETIRED + short);
    assert c[|c| - 1] == short[7];
    forall i | 0 <= i < |c|
      ensures SlugChar(c[i])
    {
      if i >= |b| + 10 {
        assert c[i] == short[i - |b| - 10];
      } else if i >= |b| {
        assert c[i] == RETIRED[i - |b|];
      }
    }
  }

  /** What the candidate keeps of the name: all of a normalized name of up to fourteen characters, else its
      first fourteen without a hyphen at the cut. */
  lemma RetiredCandidateIs(original: string, short: string, fold: string -> string)
    ensures var n := NormalizeSlug(original, fold);
            var kept := if |n| <= 14 then n else if n[13] == '-' then n[..13] else n[..14];
            RetiredCandidate(original, short, fold) == kept + "--retired-" + short
  {
    NormalizedIsValid(original, fold);
    var n := NormalizeSlug(original, fold);
    if |n| > 14 {
      var cut := n[..14];
      assert TrimLeft(cut) == cut;
      if n[13] == '-' {
        assert n[12] != '-' && cut[..13] == n[..13];
        assert TrimRight(n[..13]) == n[..13];
      }
    }
  }
}
