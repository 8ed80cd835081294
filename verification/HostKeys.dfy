/** Which host key algorithms the agent offers: reading the pinned ones from known_hosts
    (cmd/reach-agent/hostkey_algorithms.go) and narrowing them by ssh options
    (cmd/reach-agent/embedded_ssh.go).
    Two library calls are parameters: `covers` says whether a known_hosts pattern covers the hub
    (net.SplitHostPort, path.Match), `keyType` gives the type of a key (ssh.ParseAuthorizedKey); `fold` is
    strings.ToLower. */
module HostKeys {
  import opened Options
  import opened Strings

  datatype Match = Yes | No | Bad

  // ---------- Lists without duplicates ----------

  predicate NoDup(s: seq<string>) {
    forall i, j | 0 <= i < j < |s| :: s[i] != s[j]
  }

  function Elems(s: seq<string>): set<string> {
    set x | x in s
  }

  /** The first occurrences, in order. */
  function Dedup(s: seq<string>): seq<string> {
    if s == [] then []
    else
      var front, x := s[..|s| - 1], s[|s| - 1];
      if x in front then Dedup(front) else Dedup(front) + [x]
  }

  function Keep(s: seq<string>, allowed: set<string>): seq<string> {
    if s == [] then []
    else Keep(s[..|s| - 1], allowed) + (if s[|s| - 1] in allowed then [s[|s| - 1]] else [])
  }

  lemma {:induction false} DedupElems(s: seq<string>)
    ensures NoDup(Dedup(s)) && (forall x :: x in Dedup(s) <==> x in s)
    decreases |s|
  {
    if s != [] {
      var front, x := s[..|s| - 1], s[|s| - 1];
      DedupElems(front);
      assert forall y :: y in s <==> y in front || y == x by {
        assert front + [x] == s;
      }
    }
  }

  lemma {:induction false} KeepElems(s: seq<string>, allowed: set<string>)
    ensures forall x :: x in Keep(s, allowed) <==> x in s && x in allowed
    ensures NoDup(s) ==> NoDup(Keep(s, allowed))
    decreases |s|
  {
    if s != [] {
      var front, x := s[..|s| - 1], s[|s| - 1];
      KeepElems(front, allowed);
      assert forall y :: y in s <==> y in front || y == x by {
        assert front + [x] == s;
      }
    }
  }

  /** intersectAlgorithms is the first occurrences of what is requested, cut to what is pinned. */
  function Intersect(requested: seq<string>, pinned: seq<string>): seq<string> {
    Keep(Dedup(requested), Elems(pinned))
  }

  lemma IntersectMeans(requested: seq<string>, pinned: seq<string>)
    ensures NoDup(Intersect(requested, pinned))
    ensures Elems(Intersect(requested, pinned)) == Elems(requested) * Elems(pinned)
  {
    DedupElems(requested);
    KeepElems(Dedup(requested), Elems(pinned));
  }

  lemma IntersectSnoc(front: seq<string>, alg: string, pinned: seq<string>)
    ensures var was := Intersect(front, pinned);
            Intersect(front + [alg], pinned) == if alg in pinned && alg !in was then was + [alg] else was
  {
    DedupElems(front);
    KeepElems(Dedup(front), Elems(pinned));
    KeepSnoc(Dedup(front), alg, Elems(pinned));
    DedupSnoc(front, alg);
  }

  lemma IntersectNone(requested: seq<string>, pinned: seq<string>)
    ensures Intersect(requested[..0], pinned) == []
  {}

  method IntersectAlgorithms(requested: seq<string>, pinned: seq<string>) returns (out: seq<string>)
    ensures out == Intersect(requested, pinned)
  {
    hide *;
    var pinnedSet := {};
    for i := 0 to |pinned|
      invariant forall x :: x in pinnedSet <==> x in pinned[..i]
    {
      assert pinned[..i + 1] == pinned[..i] + [pinned[i]];
      pinnedSet := pinnedSet + {pinned[i]};
    }
    assert pinned[..|pinned|] == pinned;
    var seen := {};
    out := [];
    IntersectNone(requested, pinned);
    for i := 0 to |requested|
      invariant out == Intersect(requested[..i], pinned)
      invariant forall x :: x in seen <==> x in out
    {
      var alg := requested[i];
      assert requested[..i + 1] == requested[..i] + [alg];
      IntersectSnoc(requested[..i], alg, pinned);
      if alg in pinnedSet && alg !in seen {
        seen := seen + {alg};
        out := out + [alg];
      }
    }
    assert requested[..|requested|] == requested;
  }

  lemma KeepSnoc(s: seq<string>, x: string, allowed: set<string>)
    ensures Keep(s + [x], allowed) == if x in allowed then Keep(s, allowed) + [x] else Keep(s, allowed)
  {
    assert (s + [x])[..|s|] == s;
    assert Keep(s, allowed) + [] == Keep(s, allowed);
  }

  lemma DedupSnoc(s: seq<string>, x: string)
    ensures Dedup(s + [x]) == if x in s then Dedup(s) else Dedup(s) + [x]
  {
    assert (s + [x])[..|s|] == s;
  }

  // ---------- The host field of a known_hosts line ----------

  /** One comma-separated part; hashed and empty parts are ignored. */
  datatype Pattern = Ignored | Host(negate: bool, pattern: string)

  function ReadPattern(raw: string): Pattern {
    var p := TrimSpace(raw);
    if p == "" then Ignored
    else
      var negate := p[0] == '!';
      var q := if negate then p[1..] else p;
      if q != "" && q[0] == '|' then Ignored else Host(negate, q)
  }

  function Outcome(raw: string, covers: string -> Match): Match {
    var p := ReadPattern(raw);
    if p.Ignored? then No else covers(p.pattern)
  }

  predicate Rejects(raw: string, covers: string -> Match) {
    Outcome(raw, covers) == Yes && ReadPattern(raw).negate
  }

  predicate Accepts(raw: string, covers: string -> Match) {
    Outcome(raw, covers) == Yes && !ReadPattern(raw).negate
  }

  function PartsMatch(parts: seq<string>, covers: string -> Match, matched: bool): Match {
    if parts == [] then if matched then Yes else No
    else
      var r := Outcome(parts[0], covers);
      if r == Bad then Bad
      else if r == No then PartsMatch(parts[1..], covers, matched)
      else if ReadPattern(parts[0]).negate then No
      else PartsMatch(parts[1..], covers, true)
  }

  method KnownHostsFieldMatches(field: string, covers: string -> Match) returns (r: Match)
    ensures r == PartsMatch(Split(field, ','), covers, false)
  {
    var matched := false;
    var parts := Split(field, ',');
    for i := 0 to |parts|
      invariant PartsMatch(parts, covers, false) == PartsMatch(parts[i..], covers, matched)
    {
      assert parts[i..][0] == parts[i] && parts[i..][1..] == parts[i + 1..];
      var p := ReadPattern(parts[i]);
      if p.Ignored? {
        continue;
      }
      var ok := covers(p.pattern);
      if ok == Bad {
        return Bad;
      }
      if ok == No {
        continue;
      }
      if p.negate {
        return No;
      }
      matched := true;
    }
    return if matched then Yes else No;
  }

  /** A host is covered exactly when some part names it, none excludes it and none is malformed; a
      malformed part is an error exactly when no exclusion comes before it. */
  lemma {:induction false} FieldMatchMeans(parts: seq<string>, covers: string -> Match, matched: bool)
    ensures PartsMatch(parts, covers, matched) == Yes <==>
            && (forall i | 0 <= i < |parts| :: Outcome(parts[i], covers) != Bad && !Rejects(parts[i], covers))
            && (matched || exists i | 0 <= i < |parts| :: Accepts(parts[i], covers))
    ensures PartsMatch(parts, covers, matched) == Bad <==>
            exists i | 0 <= i < |parts| ::
              Outcome(parts[i], covers) == Bad && forall j | 0 <= j < i :: !Rejects(parts[j], covers)
    decreases |parts|
  {
    hide Outcome, ReadPattern;
    if parts != [] {
      var rest := parts[1..];
      var on := matched || Accepts(parts[0], covers);
      FieldMatchMeans(rest, covers, on);
      assert forall i | 0 <= i < |rest| :: rest[i] == parts[i + 1];
      if Outcome(parts[0], covers) == Bad || Rejects(parts[0], covers) {
      } else {
        assert PartsMatch(parts, covers, matched) == PartsMatch(rest, covers, on);
        YesShift(parts, covers);
        BadShift(parts, covers);
      }
    }
  }

  /** A part of the host field without its '!' is a pattern unless it is blank or hashed. */
  predicate IsPattern(p: string) {
    p == "" || p[0] != '|'
  }

  /** The part names the hub, excludes it, or is malformed. */
  predicate Names(raw: string, covers: string -> Match, m: Match) {
    var p := TrimSpace(raw);
    p != "" && p[0] != '!' && IsPattern(p) && covers(p) == m
  }

  predicate Excludes(raw: string, covers: string -> Match, m: Match) {
    var p := TrimSpace(raw);
    p != "" && p[0] == '!' && IsPattern(p[1..]) && covers(p[1..]) == m
  }

  /** A host field covers the hub exactly when some part names it, no part behind a '!' does, and none is
      malformed; it is an error exactly when a malformed part has no matching '!' part before it. */
  lemma HostFieldMeans(field: string, covers: string -> Match)
    ensures var parts, r := Split(field, ','), PartsMatch(Split(field, ','), covers, false);
            && (r == Yes <==>
                  && (exists i | 0 <= i < |parts| :: Names(parts[i], covers, Yes))
                  && (forall i | 0 <= i < |parts| :: !Excludes(parts[i], covers, Yes))
                  && (forall i | 0 <= i < |parts| :: !Names(parts[i], covers, Bad) && !Excludes(parts[i], covers, Bad)))
            && (r == Bad <==>
                  exists i | 0 <= i < |parts| ::
                    && (Names(parts[i], covers, Bad) || Excludes(parts[i], covers, Bad))
                    && forall j | 0 <= j < i :: !Excludes(parts[j], covers, Yes))
  {
    var parts := Split(field, ',');
    hide Accepts, Rejects, Outcome, Names, Excludes, PartsMatch, Split;
    forall i | 0 <= i < |parts|
      ensures Accepts(parts[i], covers) <==> Names(parts[i], covers, Yes)
      ensures Rejects(parts[i], covers) <==> Excludes(parts[i], covers, Yes)
      ensures Outcome(parts[i], covers) == Bad <==> Names(parts[i], covers, Bad) || Excludes(parts[i], covers, Bad)
    {
      PartMeans(parts[i], covers);
    }
    FieldMatchMeans(parts, covers, false);
  }

  lemma PartMeans(raw: string, covers: string -> Match)
    ensures Accepts(raw, covers) <==> Names(raw, covers, Yes)
    ensures Rejects(raw, covers) <==> Excludes(raw, covers, Yes)
    ensures Outcome(raw, covers) == Bad <==> Names(raw, covers, Bad) || Excludes(raw, covers, Bad)
  {
    hide TrimSpace;
  }

  lemma YesShift(parts: seq<string>, covers: string -> Match)
    requires parts != []
    ensures (exists i | 0 <= i < |parts| :: Accepts(parts[i], covers)) <==>
            Accepts(parts[0], covers) || exists i | 0 <= i < |parts[1..]| :: Accepts(parts[1..][i], covers)
  {
    hide Accepts;
    var rest := parts[1..];
    assert forall i | 0 <= i < |rest| :: rest[i] == parts[i + 1];
    if exists i | 0 < i < |parts| :: Accepts(parts[i], covers) {
      var i :| 0 < i < |parts| && Accepts(parts[i], covers);
      assert rest[i - 1] == parts[i];
    }
  }

  ghost predicate BadAt(parts: seq<string>, covers: string -> Match, i: int) {
    0 <= i < |parts| && Outcome(parts[i], covers) == Bad && forall j | 0 <= j < i :: !Rejects(parts[j], covers)
  }

  lemma BadShift(parts: seq<string>, covers: string -> Match)
    requires parts != [] && Outcome(parts[0], covers) != Bad && !Rejects(parts[0], covers)
    ensures (exists i :: BadAt(parts, covers, i)) <==> exists i :: BadAt(parts[1..], covers, i)
  {
    hide Outcome, Rejects;
    var rest := parts[1..];
    assert forall i | 0 <= i < |rest| :: rest[i] == parts[i + 1];
    forall i ensures BadAt(parts, covers, i + 1) <==> BadAt(rest, covers, i) {
      if BadAt(rest, covers, i) {
        assert forall j | 0 < j < i + 1 :: parts[j] == rest[j - 1];
      }
    }
    if exists i :: BadAt(parts, covers, i) {
      var i :| BadAt(parts, covers, i);
      assert BadAt(rest, covers, i - 1) <==> BadAt(parts, covers, (i - 1) + 1);
    }
  }

  // ---------- The pinned algorithms ----------

  datatype Line = Skipped | Invalid | KeyType(alg: string)

  /** One line of known_hosts: splitKnownHostsLine and the branches of the scan loop. */
  function ReadLine(raw: string, covers: string -> Match, keyType: string -> Option<string>): Line {
    var line := TrimSpace(raw);
    if line == "" || line[0] == '#' then Skipped
    else
      var fields := Fields(line);
      var idx := if |fields| > 0 && fields[0] != "" && fields[0][0] == '@' then 1 else 0;
      if |fields| < idx + 3 then Invalid
      else if idx == 1 && (fields[0] == "@revoked" || fields[0] == "@cert-authority") then Skipped
      else
        match PartsMatch(Split(fields[idx], ','), covers, false)
        case Bad => Invalid
        case No => Skipped
        case Yes =>
          var key := keyType(Join(fields[idx + 1..], ' '));
          if key.None? then Invalid else KeyType(key.value)
  }

  /** What a line of known_hosts pins. Comments, blank lines, revoked keys and certificate authorities pin
      nothing; any other line, whose host field is the second if the first starts with '@', pins the type of
      its key if the host field covers the hub, and is invalid if it is too short, or if that field, or the key
      where it is needed, cannot be read. */
  lemma WhatALinePins(raw: string, covers: string -> Match, keyType: string -> Option<string>)
    ensures var line, pins := TrimSpace(raw), ReadLine(raw, covers, keyType);
            var fields := Fields(line);
            var h := if fields != [] && fields[0] != "" && fields[0][0] == '@' then 1 else 0;
            if line == "" || line[0] == '#' then pins == Skipped
            else if |fields| < h + 3 then pins == Invalid
            else if fields[0] == "@revoked" || fields[0] == "@cert-authority" then pins == Skipped
            else
              var covered, key := PartsMatch(Split(fields[h], ','), covers, false), keyType(Join(fields[h + 1..], ' '));
              && (pins.Invalid? <==> covered == Bad || (covered == Yes && key.None?))
              && (pins.Skipped? <==> covered == No)
              && (pins.KeyType? ==> Some(pins.alg) == key)
  {
    hide PartsMatch, Split, Join, Fields, TrimSpace;
    assert "@revoked"[0] == '@' && "@cert-authority"[0] == '@';
  }

  function KeyTypes(lines: seq<string>, covers: string -> Match, keyType: string -> Option<string>): seq<string> {
    if lines == [] then []
    else
      var l := ReadLine(lines[|lines| - 1], covers, keyType);
      KeyTypes(lines[..|lines| - 1], covers, keyType) + (if l.KeyType? then [l.alg] else [])
  }

  lemma NoKeyTypes(lines: seq<string>, covers: string -> Match, keyType: string -> Option<string>)
    ensures Dedup(KeyTypes(lines[..0], covers, keyType)) == []
  {
    assert lines[..0] == [];
  }

  lemma KeyTypesStep(lines: seq<string>, i: nat, covers: string -> Match, keyType: string -> Option<string>)
    requires i < |lines|
    ensures var out, l := Dedup(KeyTypes(lines[..i], covers, keyType)), ReadLine(lines[i], covers, keyType);
            Dedup(KeyTypes(lines[..i + 1], covers, keyType)) ==
            if l.KeyType? && l.alg !in out then out + [l.alg] else out
  {
    hide ReadLine, Dedup;
    var types, l := KeyTypes(lines[..i], covers, keyType), ReadLine(lines[i], covers, keyType);
    assert lines[..i + 1][..i] == lines[..i];
    assert types + [] == types;
    DedupElems(types);
    if l.KeyType? {
      DedupSnoc(types, l.alg);
    }
  }

  lemma SomeKeyType(lines: seq<string>, covers: string -> Match, keyType: string -> Option<string>)
    ensures Dedup(KeyTypes(lines, covers, keyType)) != [] <==>
            exists i | 0 <= i < |lines| :: ReadLine(lines[i], covers, keyType).KeyType?
  {
    hide ReadLine;
    var types := KeyTypes(lines, covers, keyType);
    DedupElems(types);
    if types != [] {
      TypeHasLine(lines, covers, keyType, types[0]);
      assert types[0] in Dedup(types);
    }
    if exists i | 0 <= i < |lines| :: ReadLine(lines[i], covers, keyType).KeyType? {
      var i :| 0 <= i < |lines| && ReadLine(lines[i], covers, keyType).KeyType?;
      TypeHasLine(lines, covers, keyType, ReadLine(lines[i], covers, keyType).alg);
    }
  }

  /** The list is pinned exactly when every line can be read and some key is for the hub; it holds the
      types of those keys, each once, in the order of the file. */
  method PinnedHostKeyAlgorithms(lines: seq<string>, covers: string -> Match, keyType: string -> Option<string>)
    returns (r: Option<seq<string>>)
    ensures r.Some? <==>
            && (forall i | 0 <= i < |lines| :: !ReadLine(lines[i], covers, keyType).Invalid?)
            && (exists i | 0 <= i < |lines| :: ReadLine(lines[i], covers, keyType).KeyType?)
    ensures r.Some? ==> r.value == Dedup(KeyTypes(lines, covers, keyType)) && r.value != [] && NoDup(r.value)
  {
    hide *;
    var seen := {};
    var out := [];
    NoKeyTypes(lines, covers, keyType);
    for i := 0 to |lines|
      invariant forall k | 0 <= k < i :: !ReadLine(lines[k], covers, keyType).Invalid?
      invariant out == Dedup(KeyTypes(lines[..i], covers, keyType))
      invariant forall x :: x in seen <==> x in out
    {
      KeyTypesStep(lines, i, covers, keyType);
      var l := ReadLine(lines[i], covers, keyType);
      match l
      case Skipped =>
      case Invalid => return None;
      case KeyType(alg) =>
        if alg !in seen {
          seen := seen + {alg};
          out := out + [alg];
        }
    }
    assert lines[..|lines|] == lines;
    DedupElems(KeyTypes(lines, covers, keyType));
    SomeKeyType(lines, covers, keyType);
    return if |out| == 0 then None else Some(out);
  }

  // ---------- ssh options ----------

  function TrimModifiers(v: string): string {
    if v != "" && (v[0] == '+' || v[0] == '^') then TrimModifiers(v[1..]) else v
  }

  function CleanValue(raw: string): string {
    var v := TrimModifiers(TrimSpace(raw));
    if v != "" && v[0] == '-' then v[1..] else v
  }

  function CleanValues(parts: seq<string>): seq<string> {
    if parts == [] then []
    else
      var v := CleanValue(parts[|parts| - 1]);
      CleanValues(parts[..|parts| - 1]) + (if v != "" then [v] else [])
  }

  datatype SshOption = NoOption | SshOption(key: string, vals: seq<string>)

  function ReadOption(raw: string): SshOption {
    var s := TrimSpace(raw);
    var eq := IndexOf(s, '=');
    if eq == |s| then NoOption
    else
      var key, vals := TrimSpace(s[..eq]), CleanValues(Split(s[eq + 1..], ','));
      if key != "" && |vals| > 0 then SshOption(key, vals) else NoOption
  }

  method ParseSSHOption(raw: string) returns (key: string, vals: seq<string>, ok: bool)
    ensures ReadOption(raw) == if ok then SshOption(key, vals) else NoOption
  {
    key, vals, ok := "", [], false;
    var s := TrimSpace(raw);
    if s == "" {
      return;
    }
    var eq := IndexOf(s, '=');
    if eq == |s| {
      return;
    }
    key := TrimSpace(s[..eq]);
    var parts := Split(s[eq + 1..], ',');
    for i := 0 to |parts|
      invariant vals == CleanValues(parts[..i])
    {
      assert parts[..i + 1][..i] == parts[..i];
      var v := CleanValue(parts[i]);
      if v != "" {
        vals := vals + [v];
      }
    }
    assert parts[..|parts|] == parts;
    ok := key != "" && |vals| > 0;
  }

  /** An option is read exactly if there is an '=' with something before it and some value behind it. */
  lemma OptionMeans(raw: string)
    ensures var s := TrimSpace(raw);
            && ('=' !in s ==> ReadOption(raw) == NoOption)
            && forall eq | 0 <= eq < |s| && s[eq] == '=' && '=' !in s[..eq] ::
                 var key, vals := TrimSpace(s[..eq]), CleanValues(Split(s[eq + 1..], ','));
                 ReadOption(raw) == if key == "" || vals == [] then NoOption else SshOption(key, vals)
  {
    hide TrimSpace, CleanValues, Split;
    var s := TrimSpace(raw);
    hide IndexOf;
    forall eq | 0 <= eq < |s| && s[eq] == '=' && '=' !in s[..eq]
      ensures IndexOf(s, '=') == eq
    {
      assert forall i | 0 <= i < eq :: s[..eq][i] == s[i];
    }
  }

  /** The fields of ssh.ClientConfig that options set. */
  datatype Settings = Settings(keyExchanges: seq<string>, hostKeyAlgorithms: seq<string>, ciphers: seq<string>,
      macs: seq<string>)

  const HOST_KEY := "hostkeyalgorithms"

  function ApplyOption(st: Settings, raw: string, fold: string -> string): Option<Settings> {
    var o := ReadOption(raw);
    if o.NoOption? then Some(st)
    else if fold(o.key) == "kexalgorithms" then Some(st.(keyExchanges := o.vals))
    else if fold(o.key) == HOST_KEY then
      var vals := if |st.hostKeyAlgorithms| > 0 then Intersect(o.vals, st.hostKeyAlgorithms) else o.vals;
      if |st.hostKeyAlgorithms| > 0 && |vals| == 0 then None else Some(st.(hostKeyAlgorithms := vals))
    else if fold(o.key) == "ciphers" then Some(st.(ciphers := o.vals))
    else if fold(o.key) == "macs" then Some(st.(macs := o.vals))
    else Some(st)
  }

  /** The settings after all options, or as they were when one of them failed. */
  function ApplyAll(st: Settings, opts: seq<string>, fold: string -> string): (Settings, bool) {
    if opts == [] then (st, true)
    else
      var r := ApplyAll(st, opts[..|opts| - 1], fold);
      if !r.1 then r
      else
        var n := ApplyOption(r.0, opts[|opts| - 1], fold);
        if n.None? then (r.0, false) else (n.value, true)
  }

  lemma {:induction false} FailureStays(st: Settings, opts: seq<string>, more: seq<string>, fold: string -> string)
    requires !ApplyAll(st, opts, fold).1
    ensures ApplyAll(st, opts + more, fold) == ApplyAll(st, opts, fold)
    decreases |more|
  {
    if more == [] {
      assert opts + more == opts;
    } else {
      FailureStays(st, opts, more[..|more| - 1], fold);
      assert (opts + more)[..|opts + more| - 1] == opts + more[..|more| - 1];
    }
  }

  lemma ApplyNone(st: Settings, opts: seq<string>, fold: string -> string)
    ensures ApplyAll(st, opts[..0], fold) == (st, true)
  {}

  lemma ApplyStep(st: Settings, opts: seq<string>, i: nat, fold: string -> string)
    requires i < |opts| && ApplyAll(st, opts[..i], fold).1
    ensures var now := ApplyAll(st, opts[..i], fold).0;
            var n := ApplyOption(now, opts[i], fold);
            && (n.Some? ==> ApplyAll(st, opts[..i + 1], fold) == (n.value, true))
            && (n.None? ==> ApplyAll(st, opts, fold) == (now, false))
  {
    hide ApplyOption;
    assert opts[..i + 1][..i] == opts[..i];
    if ApplyOption(ApplyAll(st, opts[..i], fold).0, opts[i], fold).None? {
      FailureStays(st, opts[..i + 1], opts[i + 1..], fold);
      assert opts[..i + 1] + opts[i + 1..] == opts;
    }
  }

  class ClientConfig {
    var keyExchanges: seq<string>
    var hostKeyAlgorithms: seq<string>
    var ciphers: seq<string>
    var macs: seq<string>

    constructor (pinned: seq<string>)
      ensures Value() == Settings([], pinned, [], [])
    {
      keyExchanges, hostKeyAlgorithms, ciphers, macs := [], pinned, [], [];
    }

    function Value(): Settings
      reads this
    {
      Settings(keyExchanges, hostKeyAlgorithms, ciphers, macs)
    }

    method ApplySSHCompatOptions(opts: seq<string>, fold: string -> string) returns (ok: bool)
      modifies this
      ensures (Value(), ok) == ApplyAll(old(Value()), opts, fold)
    {
      hide ReadOption, Intersect, ApplyAll;
      ApplyNone(Value(), opts, fold);
      for i := 0 to |opts|
        invariant (Value(), true) == ApplyAll(old(Value()), opts[..i], fold)
      {
        ApplyStep(old(Value()), opts, i, fold);
        var key, vals, found := ParseSSHOption(opts[i]);
        if !found {
          continue;
        }
        var k := fold(key);
        if k == "kexalgorithms" {
          keyExchanges := vals;
        } else if k == HOST_KEY {
          if |hostKeyAlgorithms| > 0 {
            vals := IntersectAlgorithms(vals, hostKeyAlgorithms);
            if |vals| == 0 {
              return false;
            }
          }
          hostKeyAlgorithms := vals;
        } else if k == "ciphers" {
          ciphers := vals;
        } else if k == "macs" {
          macs := vals;
        }
      }
      assert opts[..|opts|] == opts;
      return true;
    }
  }

  // ---------- What the options set ----------

  /** The values of the last option with this name. */
  function LastFor(opts: seq<string>, name: string, fold: string -> string): Option<seq<string>> {
    if opts == [] then None
    else
      var o := ReadOption(opts[|opts| - 1]);
      if o.SshOption? && fold(o.key) == name then Some(o.vals) else LastFor(opts[..|opts| - 1], name, fold)
  }

  function Otherwise(o: Option<seq<string>>, vals: seq<string>): seq<string> {
    if o.Some? then o.value else vals
  }

  lemma NamesDiffer()
    ensures "kexalgorithms" != "hostkeyalgorithms" && "kexalgorithms" != "ciphers" && "kexalgorithms" != "macs"
    ensures "hostkeyalgorithms" != "ciphers" && "hostkeyalgorithms" != "macs" && "ciphers" != "macs"
  {
    assert |"kexalgorithms"| == 13 && |"hostkeyalgorithms"| == 17 && |"ciphers"| == 7 && |"macs"| == 4;
  }

  /** If all options are followed, the other three settings are those of the last option for each. */
  lemma {:induction false} LastOptionCounts(st: Settings, opts: seq<string>, fold: string -> string)
    ensures var (after, ok) := ApplyAll(st, opts, fold);
            ok ==>
              && after.keyExchanges == Otherwise(LastFor(opts, "kexalgorithms", fold), st.keyExchanges)
              && after.ciphers == Otherwise(LastFor(opts, "ciphers", fold), st.ciphers)
              && after.macs == Otherwise(LastFor(opts, "macs", fold), st.macs)
    decreases |opts|
  {
    hide ReadOption, Intersect;
    NamesDiffer();
    if opts != [] {
      LastOptionCounts(st, opts[..|opts| - 1], fold);
    }
  }

  /** Without pinned keys the first option for the host key algorithms sets them. */
  lemma FirstOptionSets(st: Settings, raw: string, fold: string -> string)
    requires st.hostKeyAlgorithms == []
    ensures ApplyOption(st, raw, fold).Some?
    ensures ReadOption(raw).SshOption? && fold(ReadOption(raw).key) == "hostkeyalgorithms" ==>
              ApplyOption(st, raw, fold) == Some(st.(hostKeyAlgorithms := ReadOption(raw).vals))
  {
    hide ReadOption, Intersect;
    NamesDiffer();
  }

  // ---------- Narrowing never widens ----------

  predicate AsksHostKeys(raw: string, fold: string -> string) {
    ReadOption(raw).SshOption? && fold(ReadOption(raw).key) == HOST_KEY
  }

  /** What the pins and every HostKeyAlgorithms option allow together. */
  function Allowed(pinned: set<string>, opts: seq<string>, fold: string -> string): set<string> {
    if opts == [] then pinned
    else
      var front, raw := opts[..|opts| - 1], opts[|opts| - 1];
      if AsksHostKeys(raw, fold) then Allowed(pinned, front, fold) * Elems(ReadOption(raw).vals)
        else Allowed(pinned, front, fold)
  }

  lemma {:induction false} AllowedShrinks(pinned: set<string>, opts: seq<string>, fold: string -> string)
    ensures Allowed(pinned, opts, fold) <= pinned
    decreases |opts|
  {
    if opts != [] {
      AllowedShrinks(pinned, opts[..|opts| - 1], fold);
    }
  }

  lemma HostKeyStep(st: Settings, raw: string, fold: string -> string)
    requires st.hostKeyAlgorithms != [] && NoDup(st.hostKeyAlgorithms)
    ensures var now := Elems(st.hostKeyAlgorithms);
            var left := if AsksHostKeys(raw, fold) then now * Elems(ReadOption(raw).vals) else now;
            var r := ApplyOption(st, raw, fold);
            && (r.Some? <==> left != {})
            && (r.Some? ==>
                  var h := r.value.hostKeyAlgorithms;
                  NoDup(h) && h != [] && Elems(h) == left)
  {
    hide ReadOption, Intersect;
    assert st.hostKeyAlgorithms[0] in Elems(st.hostKeyAlgorithms);
    if AsksHostKeys(raw, fold) {
      OtherKeys();
      IntersectMeans(ReadOption(raw).vals, st.hostKeyAlgorithms);
      EmptyElems(Intersect(ReadOption(raw).vals, st.hostKeyAlgorithms));
    }
  }

  lemma OtherKeys()
    ensures HOST_KEY != "kexalgorithms"
  {
    assert |HOST_KEY| == 17 && |"kexalgorithms"| == 13;
  }

  lemma EmptyElems(s: seq<string>)
    ensures Elems(s) == {} <==> s == []
  {
    if s != [] {
      assert s[0] in Elems(s);
    }
  }

  /** The option at `k` leaves no algorithm, and `left` is what the options before it had left. */
  ghost predicate FailsAt(pinned: set<string>, opts: seq<string>, fold: string -> string, left: set<string>, k: int) {
    0 <= k < |opts| && left == Allowed(pinned, opts[..k], fold) && Allowed(pinned, opts[..k + 1], fold) == {}
  }

  lemma FailsAtExtends(pinned: set<string>, opts: seq<string>, raw: string, fold: string -> string, left: set<string>,
      k: int)
    requires FailsAt(pinned, opts, fold, left, k)
    ensures FailsAt(pinned, opts + [raw], fold, left, k)
  {
    hide Allowed;
    assert (opts + [raw])[..k] == opts[..k] && (opts + [raw])[..k + 1] == opts[..k + 1];
  }

  /** Started from a pinned list, the options succeed exactly when some algorithm is pinned and allowed by
      every option; the result is then exactly those algorithms, each once. On failure the list is what
      the options before the failing one had left of the pins. */
  lemma {:induction false} NarrowingIsIntersection(st: Settings, opts: seq<string>, fold: string -> string)
    requires st.hostKeyAlgorithms != [] && NoDup(st.hostKeyAlgorithms)
    ensures var pinned := Elems(st.hostKeyAlgorithms);
            var r := ApplyAll(st, opts, fold);
            var h := r.0.hostKeyAlgorithms;
            && (r.1 <==> Allowed(pinned, opts, fold) != {})
            && (r.1 ==> Elems(h) == Allowed(pinned, opts, fold))
            && h != [] && NoDup(h) && Elems(h) <= pinned
            && (!r.1 ==> exists k :: FailsAt(pinned, opts, fold, Elems(h), k))
    decreases |opts|
  {
    hide ApplyOption, NoDup, Elems, FailsAt, AsksHostKeys;
    var pinned := Elems(st.hostKeyAlgorithms);
    if opts == [] {
      EmptyElems(st.hostKeyAlgorithms);
    } else {
      var front, raw := opts[..|opts| - 1], opts[|opts| - 1];
      assert front + [raw] == opts;
      NarrowingIsIntersection(st, front, fold);
      AllowedShrinks(pinned, opts, fold);
      var r := ApplyAll(st, front, fold);
      var left := Elems(r.0.hostKeyAlgorithms);
      if r.1 {
        HostKeyStep(r.0, raw, fold);
        FailsLast(pinned, front, raw, fold, left);
      } else {
        var k :| FailsAt(pinned, front, fold, left, k);
        FailsAtExtends(pinned, front, raw, fold, left, k);
      }
    }
  }

  lemma FailsLast(pinned: set<string>, front: seq<string>, raw: string, fold: string -> string, left: set<string>)
    requires left == Allowed(pinned, front, fold)
    ensures Allowed(pinned, front + [raw], fold) == {} ==> FailsAt(pinned, front + [raw], fold, left, |front|)
  {
    hide Allowed;
    assert (front + [raw])[..|front|] == front && (front + [raw])[..|front| + 1] == front + [raw];
  }

  /** From the file to the handshake: every algorithm offered is the type of a key pinned for the hub. */
  lemma OfferedIsPinned(lines: seq<string>, covers: string -> Match, keyType: string -> Option<string>,
                        opts: seq<string>, fold: string -> string, alg: string)
    requires KeyTypes(lines, covers, keyType) != []
    requires var st := Settings([], Dedup(KeyTypes(lines, covers, keyType)), [], []);
             alg in ApplyAll(st, opts, fold).0.hostKeyAlgorithms
    ensures exists i | 0 <= i < |lines| :: ReadLine(lines[i], covers, keyType) == KeyType(alg)
  {
    var types := KeyTypes(lines, covers, keyType);
    var st := Settings([], Dedup(types), [], []);
    DedupElems(types);
    assert types[0] in Dedup(types);
    NarrowingIsIntersection(st, opts, fold);
    assert alg in Elems(ApplyAll(st, opts, fold).0.hostKeyAlgorithms);
    TypeHasLine(lines, covers, keyType, alg);
  }

  lemma {:induction false} TypeHasLine(lines: seq<string>, covers: string -> Match, keyType: string -> Option<string>,
      alg: string)
    ensures alg in KeyTypes(lines, covers, keyType) <==>
            exists i | 0 <= i < |lines| :: ReadLine(lines[i], covers, keyType) == KeyType(alg)
    decreases |lines|
  {
    hide ReadLine;
    if lines != [] {
      var front := lines[..|lines| - 1];
      TypeHasLine(front, covers, keyType, alg);
      assert forall i | 0 <= i < |front| :: front[i] == lines[i];
    }
  }

  // ---------- Options as written ----------

  /** A value that parseSSHOption has no reason to change. */
  predicate IsPlainValue(v: string) {
    v != "" && TrimSpace(v) == v && Without(v, ',') && v[0] !in {'+', '^', '-'}
  }

  /** ssh's marks for "append", "put first" and "remove" */
  predicate IsModifier(m: string) {
    m == "" || m == "+" || m == "^" || m == "-"
  }

  lemma CleanModified(m: string, v: string)
    requires IsModifier(m) && IsPlainValue(v)
    ensures CleanValue(m + v) == v && Without(m + v, ',')
  {
    Trimmed(v);
    Trimmed(m + v);
    if m == "" {
      assert m + v == v;
    } else {
      assert (m + v)[0] == m[0] && (m + v)[1..] == v && (m + v)[|m + v| - 1] == v[|v| - 1];
      assert forall i | 1 <= i < |m + v| :: (m + v)[i] == v[i - 1];
      assert m[0] == '+' || m[0] == '^' || m[0] == '-';
      assert !IsSpace(m[0]) && !IsSpace(v[|v| - 1]);
      assert TrimSpace(m + v) == m + v;
      assert TrimModifiers(v) == v;
      assert TrimModifiers(m + v) == if m[0] == '-' then m + v else v;
    }
  }

  lemma {:induction false} CleanPlainValues(parts: seq<string>)
    requires forall i | 0 <= i < |parts| :: IsPlainValue(parts[i])
    ensures CleanValues(parts) == parts
    decreases |parts|
  {
    if parts != [] {
      hide *;
      var front, v := parts[..|parts| - 1], parts[|parts| - 1];
      CleanPlainValues(front);
      CleanPlain(v);
      CleanSnoc(front, v);
      assert front + [v] == parts;
    } else {
      hide IsPlainValue, CleanValue;
    }
  }

  lemma CleanSnoc(parts: seq<string>, raw: string)
    ensures var v := CleanValue(raw); CleanValues(parts + [raw]) == CleanValues(parts) + (if v != "" then [v] else [])
  {
    hide CleanValue;
    assert (parts + [raw])[..|parts|] == parts;
  }

  lemma CleanPlain(v: string)
    requires IsPlainValue(v)
    ensures CleanValue(v) == v != ""
  {
    CleanModified("", v);
    assert "" + v == v;
  }

  function WriteOption(key: string, m: string, vals: seq<string>): string
    requires vals != []
  {
    key + ['='] + Join([m + vals[0]] + vals[1..], ',')
  }

  /** An option is read as it was written; a modifier in front of the list is dropped, so that a removal
      ("-") is read as a request. */
  lemma OptionRoundTrip(key: string, m: string, vals: seq<string>)
    requires key != "" && TrimSpace(key) == key && Without(key, '=')
    requires IsModifier(m) && vals != [] && (forall i | 0 <= i < |vals| :: IsPlainValue(vals[i]))
    ensures ReadOption(WriteOption(key, m, vals)) == SshOption(key, vals)
  {
    hide TrimSpace, Split, CleanValues, IsModifier;
    var parts := [m + vals[0]] + vals[1..];
    var list := Join(parts, ',');
    var s := WriteOption(key, m, vals);
    CleanModified(m, vals[0]);
    CleanWritten(m, vals);
    SplitJoined(parts, ',');
    Trimmed(key);
    Trimmed(s);
    Trimmed(vals[|vals| - 1]);
    LastOfJoin(parts, ',');
    FirstPart(key, '=', list);
    assert s[..|key|] == key && s[|key| + 1..] == list;
    assert s[|s| - 1] == list[|list| - 1];
  }

  lemma CleanWritten(m: string, vals: seq<string>)
    requires IsModifier(m) && vals != [] && (forall i | 0 <= i < |vals| :: IsPlainValue(vals[i]))
    ensures CleanValues([m + vals[0]] + vals[1..]) == vals
  {
    hide CleanValue, IsModifier, IsPlainValue;
    CleanModified(m, vals[0]);
    CleanConcat([m + vals[0]], vals[1..]);
    CleanPlainValues(vals[1..]);
    assert [m + vals[0]][..0] == [];
    assert vals[0] != "" by {
      NotEmpty(vals[0]);
    }
    assert [vals[0]] + vals[1..] == vals;
  }

  lemma NotEmpty(v: string)
    requires IsPlainValue(v)
    ensures v != ""
  {}

  lemma {:induction false} CleanConcat(a: seq<string>, b: seq<string>)
    ensures CleanValues(a + b) == CleanValues(a) + CleanValues(b)
    decreases |b|
  {
    hide CleanValue;
    if b == [] {
      assert a + b == a;
    } else {
      CleanConcat(a, b[..|b| - 1]);
      assert (a + b)[..|a + b| - 1] == a + b[..|b| - 1];
    }
  }

  lemma {:induction false} LastOfJoin(parts: seq<string>, c: char)
    requires parts != [] && parts[|parts| - 1] != ""
    ensures var s, last := Join(parts, c), parts[|parts| - 1];
            s != "" && s[|s| - 1] == last[|last| - 1]
    decreases |parts|
  {
    if |parts| > 1 {
      LastOfJoin(parts[1..], c);
      var rest := Join(parts[1..], c);
      assert (parts[0] + [c] + rest)[|parts[0]| + 1 + |rest| - 1] == rest[|rest| - 1];
    } else {
      assert Join(parts, c) == parts[0];
    }
  }
}
