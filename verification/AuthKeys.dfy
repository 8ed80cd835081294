/** Editing authorized_keys: installAdminKeys and removeAuthorizedKeyMarker
    (cmd/reach-agent/install.go) and syncKeys (cmd/reach-agent/main.go). */
module AuthKeys {
  import opened Options
  import opened Strings

  // ---------- Text ----------

  predicate Contains(s: string, sub: string) {
    exists i | 0 <= i <= |s| :: sub <= s[i..]
  }

  predicate NoNewline(s: string) {
    Without(s, '\n')
  }

  function Lines(text: string): (lines: seq<string>)
    ensures |lines| > 0
    ensures AllLines(lines)
  {
    Split(text, '\n')
  }

  function JoinLines(lines: seq<string>): string {
    Join(lines, '\n')
  }

  /** Every line with its newline. */
  function Terminated(lines: seq<string>): string {
    if lines == [] then "" else Terminated(lines[..|lines| - 1]) + lines[|lines| - 1] + "\n"
  }

  // ---------- Lines of the file ----------

  function Marker(id: string): string {
    " reach:" + id
  }

  predicate Marked(id: string, line: string) {
    Contains(line, Marker(id))
  }

  predicate IsForeign(id: string, line: string) {
    TrimSpace(line) != "" && !Marked(id, line)
  }

  /** The lines that belong to others, in order. */
  function ForeignLines(id: string, lines: seq<string>): seq<string> {
    if lines == [] then []
    else
      var l := lines[|lines| - 1];
      ForeignLines(id, lines[..|lines| - 1]) + (if IsForeign(id, l) then [l] else [])
  }

  function Foreign(id: string, text: string): seq<string> {
    ForeignLines(id, Lines(text))
  }

  function MarkedLines(id: string, lines: seq<string>): seq<string> {
    if lines == [] then []
    else MarkedLines(id, lines[..|lines| - 1]) + (if Marked(id, lines[|lines| - 1]) then [lines[|lines| - 1]] else [])
  }

  /** What removeAuthorizedKeyMarker keeps: it drops empty lines, but not lines of spaces. */
  function Unmarked(id: string, lines: seq<string>): seq<string> {
    if lines == [] then []
    else
      var l := lines[|lines| - 1];
      Unmarked(id, lines[..|lines| - 1]) + (if !Marked(id, l) && l != "" then [l] else [])
  }

  // ---------- Admin keys ----------

  /** `bare` for the internal sshd. */
  datatype Rules = Rules(supported: seq<string>, bare: bool)

  const FROM := "from=\"127.0.0.1,::1\","
  const LIMITS := ["no-agent-forwarding,", "no-X11-forwarding,", "no-port-forwarding "]
  const OPTIONS := FROM + LIMITS[0] + LIMITS[1] + LIMITS[2]

  function KeyLine(id: string, rules: Rules, pub: string): string {
    (if rules.bare then pub else OPTIONS + pub) + Marker(id)
  }

  /** syncKeys takes an empty list of supported types for "no limit"; installAdminKeys does not. */
  predicate Accepts(rules: Rules, pub: string, strict: bool) {
    pub != "" && ((|rules.supported| == 0 && !strict) || Word(pub) in rules.supported)
  }

  function KeyLines(id: string, rules: Rules, keys: seq<string>, strict: bool): seq<string> {
    if keys == [] then []
    else
      var pub := TrimSpace(keys[|keys| - 1]);
      KeyLines(id, rules, keys[..|keys| - 1], strict) +
        (if Accepts(rules, pub, strict) then [KeyLine(id, rules, pub)] else [])
  }

  // ---------- The three operations, on the content of the file ----------

  datatype Op =
    | Sync(keys: seq<string>, enabled: bool, rules: Rules)
    | Install(keys: seq<string>, rules: Rules)
    | Remove

  /** A missing or unreadable file reads as empty. */
  function TextOf(file: Option<string>): string {
    if file.Some? then file.value else ""
  }

  function NewLines(id: string, op: Op): seq<string> {
    match op
    case Sync(keys, enabled, rules) => if enabled then KeyLines(id, rules, keys, false) else []
    case Install(keys, rules) => KeyLines(id, rules, keys, true)
    case Remove => []
  }

  function Apply(id: string, file: Option<string>, op: Op): Option<string> {
    match op
    case Sync(_, _, _) => Some(JoinLines(Foreign(id, TextOf(file)) + NewLines(id, op)) + "\n")
    case Install(_, _) =>
      if NewLines(id, op) == [] then file else Some(Terminated(Foreign(id, TextOf(file)) + NewLines(id, op)))
    case Remove =>
      if id == "" || file.None? then file else Some(JoinLines(Unmarked(id, Lines(file.value))) + "\n")
  }

  /** What a sync or an install writes for a key: the restrictions unless the internal sshd reads the file, the
      trimmed key, the marker. */
  ghost predicate IsEntry(line: string, id: string, rules: Rules, key: string) {
    line == (if rules.bare then ""
             else "from=\"127.0.0.1,::1\"," + "no-agent-forwarding," + "no-X11-forwarding," + "no-port-forwarding ")
            + TrimSpace(key) + (" reach:" + id)
  }

  /** A key that is not blank, of a supported type; for a sync no list of types means any type. */
  ghost predicate IsWanted(rules: Rules, key: string, strict: bool) {
    TrimSpace(key) != "" && (Word(TrimSpace(key)) in rules.supported || (rules.supported == [] && !strict))
  }

  /** The lines are the entries of the keys at these places, which are all wanted keys. */
  ghost predicate AreEntries(lines: seq<string>, places: seq<nat>, id: string, rules: Rules, keys: seq<string>,
      strict: bool) {
    && |places| == |lines|
    && (forall i, j | 0 <= i < j < |places| :: places[i] < places[j])
    && (forall i | 0 <= i < |places| :: places[i] < |keys| && IsEntry(lines[i], id, rules, keys[places[i]]))
    && (forall k | 0 <= k < |keys| :: k in places <==> IsWanted(rules, keys[k], strict))
  }

  /** A sync or an install writes one entry per wanted key, in order. */
  lemma {:induction false} EntriesOfWantedKeys(id: string, rules: Rules, keys: seq<string>, strict: bool)
      returns (places: seq<nat>)
    ensures AreEntries(KeyLines(id, rules, keys, strict), places, id, rules, keys, strict)
    decreases |keys|
  {
    if keys == [] {
      return [];
    }
    hide KeyLines, Accepts, KeyLine, TrimSpace, IsWanted, IsEntry, AreEntries;
    var n, key := |keys| - 1, keys[|keys| - 1];
    assert keys[..n + 1] == keys && keys[..n] + [key] == keys;
    places := EntriesOfWantedKeys(id, rules, keys[..n], strict);
    KeyLinesStep(id, rules, keys, n, strict);
    WantedIsAccepted(id, rules, key, strict);
    OneKeyMore(KeyLines(id, rules, keys[..n], strict), places, id, rules, keys[..n], key, strict);
    if IsWanted(rules, key, strict) {
      places := places + [n];
    }
  }

  lemma OneKeyMore(lines: seq<string>, places: seq<nat>, id: string, rules: Rules, keys: seq<string>, key: string,
      strict: bool)
    requires AreEntries(lines, places, id, rules, keys, strict)
    ensures !IsWanted(rules, key, strict) ==> AreEntries(lines, places, id, rules, keys + [key], strict)
    ensures IsWanted(rules, key, strict) ==>
              forall line | IsEntry(line, id, rules, key) ::
                AreEntries(lines + [line], places + [|keys|], id, rules, keys + [key], strict)
  {
    hide IsEntry, IsWanted;
    var all := keys + [key];
    assert forall k | 0 <= k < |keys| :: all[k] == keys[k];
    assert forall k :: k in places + [|keys|] <==> k in places || k == |keys|;
  }

  lemma WantedIsAccepted(id: string, rules: Rules, key: string, strict: bool)
    ensures IsWanted(rules, key, strict) <==> Accepts(rules, TrimSpace(key), strict)
    ensures IsEntry(KeyLine(id, rules, TrimSpace(key)), id, rules, key)
  {
    hide TrimSpace, Word;
    assert "" + TrimSpace(key) == TrimSpace(key);
  }

  lemma InstallMeans(id: string, file: Option<string>, keys: seq<string>, rules: Rules)
    ensures var added := KeyLines(id, rules, keys, true);
            Apply(id, file, Install(keys, rules)) ==
            if added == [] then file else Some(Terminated(Foreign(id, TextOf(file)) + added))
    ensures KeyLines(id, rules, [], true) == [] && (forall k: seq<string> :: k + [] == k)
  {}

  lemma NoKeys(id: string, rules: Rules)
    ensures KeyLines(id, rules, [], false) == []
  {}

  lemma AcceptsStrictly(rules: Rules, pub: string)
    ensures Accepts(rules, pub, true) <==> pub != "" && Word(pub) in rules.supported
  {}

  lemma KeyLinesStep(id: string, rules: Rules, keys: seq<string>, i: nat, strict: bool)
    requires i < |keys|
    ensures var pub, ls := TrimSpace(keys[i]), KeyLines(id, rules, keys[..i], strict);
            KeyLines(id, rules, keys[..i + 1], strict) ==
            if Accepts(rules, pub, strict) then ls + [KeyLine(id, rules, pub)] else ls
  {
    hide Accepts, KeyLine, TrimSpace;
    assert keys[..i + 1][..i] == keys[..i];
    assert KeyLines(id, rules, keys[..i], strict) + [] == KeyLines(id, rules, keys[..i], strict);
  }

  lemma TerminatedSnoc(lines: seq<string>, l: string)
    ensures Terminated(lines + [l]) == Terminated(lines) + l + "\n"
  {
    assert (lines + [l])[..|lines|] == lines;
  }

  class AuthFile {
    var file: Option<string>

    constructor (content: Option<string>)
      ensures file == content
    {
      file := content;
    }

    /** The lines that syncKeys and installAdminKeys carry over. */
    method KeepForeign(id: string) returns (kept: seq<string>)
      ensures kept == Foreign(id, TextOf(file))
    {
      kept := [];
      var lines := Lines(TextOf(file));
      for i := 0 to |lines|
        invariant kept == ForeignLines(id, lines[..i])
      {
        assert lines[..i + 1][..i] == lines[..i];
        if TrimSpace(lines[i]) == "" || Contains(lines[i], Marker(id)) {
          continue;
        }
        kept := kept + [lines[i]];
      }
      assert lines[..|lines|] == lines;
    }

    method SyncKeys(id: string, keys: seq<string>, enabled: bool, rules: Rules)
      modifies this
      ensures file == Apply(id, old(file), Sync(keys, enabled, rules))
    {
      hide Foreign, KeyLines, TrimSpace, KeyLine, JoinLines;
      NoKeys(id, rules);
      var kept := KeepForeign(id);
      ghost var others := kept;
      if enabled {
        assert keys[..0] == [];
        for i := 0 to |keys|
          invariant kept == others + KeyLines(id, rules, keys[..i], false) && file == old(file)
        {
          KeyLinesStep(id, rules, keys, i, false);
          var pub := TrimSpace(keys[i]);
          if pub == "" || (|rules.supported| > 0 && Word(pub) !in rules.supported) {
            continue;
          }
          kept := kept + [KeyLine(id, rules, pub)];
        }
        assert keys[..|keys|] == keys;
      }
      assert others + [] == others;
      file := Some(JoinLines(kept) + "\n");
    }

    /** An error leaves the file as it was. */
    method InstallAdminKeys(id: string, keys: seq<string>, rules: Rules) returns (ok: bool)
      modifies this
      ensures file == Apply(id, old(file), Install(keys, rules))
      ensures ok <==> exists i | 0 <= i < |keys| :: Accepts(rules, TrimSpace(keys[i]), true)
      ensures !ok ==> file == old(file)
    {
      hide *;
      AcceptedKeys(id, rules, keys, true);
      InstallMeans(id, file, keys, rules);
      if |keys| == 0 {
        return false;
      }
      var kept := KeepForeign(id);
      var text := Terminated(kept);
      var installed := 0;
      ghost var lines := kept;
      assert keys[..0] == [];
      for i := 0 to |keys|
        invariant lines == kept + KeyLines(id, rules, keys[..i], true)
        invariant text == Terminated(lines)
        invariant installed == |KeyLines(id, rules, keys[..i], true)|
        invariant file == old(file)
      {
        KeyLinesStep(id, rules, keys, i, true);
        var pub := TrimSpace(keys[i]);
        AcceptsStrictly(rules, pub);
        if pub == "" || Word(pub) !in rules.supported {
          continue;
        }
        TerminatedSnoc(lines, KeyLine(id, rules, pub));
        text := text + KeyLine(id, rules, pub) + "\n";
        lines := lines + [KeyLine(id, rules, pub)];
        installed := installed + 1;
      }
      assert keys[..|keys|] == keys;
      if installed == 0 {
        assert KeyLines(id, rules, keys, true) == [];
        return false;
      }
      file := Some(text);
      return true;
    }

    method RemoveMarker(id: string)
      modifies this
      ensures file == Apply(id, old(file), Remove)
    {
      if id == "" || file.None? {
        return;
      }
      var kept := [];
      var lines := Lines(file.value);
      for i := 0 to |lines|
        invariant kept == Unmarked(id, lines[..i])
      {
        assert lines[..i + 1][..i] == lines[..i];
        if Contains(lines[i], Marker(id)) {
          continue;
        }
        if lines[i] != "" {
          kept := kept + [lines[i]];
        }
      }
      assert lines[..|lines|] == lines;
      file := Some(JoinLines(kept) + "\n");
    }
  }

  // ---------- Lines of what is written ----------

  predicate AllLines(lines: seq<string>) {
    forall i | 0 <= i < |lines| :: NoNewline(lines[i])
  }

  /** The lines that the file gets for these entries, which may hold newlines themselves. */
  function Flat(lines: seq<string>): seq<string>
    decreases |lines|
  {
    if lines == [] then [] else Lines(lines[0]) + Flat(lines[1..])
  }

  lemma {:induction false} FlatConcat(a: seq<string>, b: seq<string>)
    ensures Flat(a + b) == Flat(a) + Flat(b)
    decreases |a|
  {
    hide Lines;
    if a == [] {
      assert a + b == b;
    } else {
      FlatConcat(a[1..], b);
      assert (a + b)[1..] == a[1..] + b;
    }
  }

  lemma {:induction false} FlatOfLines(lines: seq<string>)
    requires AllLines(lines)
    ensures Flat(lines) == lines
    decreases |lines|
  {
    if lines != [] {
      FlatOfLines(lines[1..]);
      OnlyPart(lines[0], '\n');
    }
  }

  lemma {:induction false} LinesOfJoined(lines: seq<string>)
    requires lines != []
    ensures Lines(JoinLines(lines)) == Flat(lines)
    decreases |lines|
  {
    hide Split;
    assert Flat([]) == [];
    if |lines| == 1 {
      assert Flat(lines) == Lines(lines[0]) + Flat([]);
    } else {
      LinesOfJoined(lines[1..]);
      SplitConcat(lines[0], '\n', JoinLines(lines[1..]));
    }
  }


  lemma LinesOfWritten(lines: seq<string>)
    ensures Lines(JoinLines(lines) + "\n") == (if lines == [] then [""] else Flat(lines)) + [""]
  {
    hide Split;
    var text := JoinLines(lines);
    OnlyPart("", '\n');
    SplitConcat(text, '\n', "");
    assert text + "\n" + "" == text + "\n";
    if lines != [] {
      LinesOfJoined(lines);
    }
  }

  lemma {:induction false} TerminatedIsJoined(lines: seq<string>)
    requires lines != []
    ensures Terminated(lines) == JoinLines(lines) + "\n"
    decreases |lines|
  {
    var front, last := lines[..|lines| - 1], lines[|lines| - 1];
    if front == [] {
      assert Terminated(lines) == "" + last + "\n" == last + "\n";
    } else {
      TerminatedIsJoined(front);
      JoinSnoc(front, last, '\n');
      assert front + [last] == lines;
    }
  }

  // ---------- Filters ----------

  lemma {:induction false} ForeignConcat(id: string, a: seq<string>, b: seq<string>)
    ensures ForeignLines(id, a + b) == ForeignLines(id, a) + ForeignLines(id, b)
    decreases |b|
  {
    hide IsForeign;
    if b == [] {
      assert a + b == a;
    } else {
      ForeignConcat(id, a, b[..|b| - 1]);
      assert (a + b)[..|a + b| - 1] == a + b[..|b| - 1];
    }
  }

  lemma {:induction false} MarkedConcat(id: string, a: seq<string>, b: seq<string>)
    ensures MarkedLines(id, a + b) == MarkedLines(id, a) + MarkedLines(id, b)
    decreases |b|
  {
    hide Marked;
    if b == [] {
      assert a + b == a;
    } else {
      MarkedConcat(id, a, b[..|b| - 1]);
      assert (a + b)[..|a + b| - 1] == a + b[..|b| - 1];
    }
  }

  lemma AppendLine(lines: seq<string>, l: string)
    ensures AllLines(lines + [l]) <==> AllLines(lines) && NoNewline(l)
  {
    hide NoNewline;
    var all := lines + [l];
    assert all[|lines|] == l && forall i | 0 <= i < |lines| :: all[i] == lines[i];
  }

  /** What one more line adds to the three filters. */
  lemma Append(id: string, lines: seq<string>, l: string)
    ensures ForeignLines(id, lines + [l]) ==
            if IsForeign(id, l) then ForeignLines(id, lines) + [l] else ForeignLines(id, lines)
    ensures MarkedLines(id, lines + [l]) ==
            if Marked(id, l) then MarkedLines(id, lines) + [l] else MarkedLines(id, lines)
    ensures Unmarked(id, lines + [l]) ==
            if !Marked(id, l) && l != "" then Unmarked(id, lines) + [l] else Unmarked(id, lines)
    ensures IsForeign(id, l) ==> !Marked(id, l) && l != ""
  {
    hide Marked;
    assert (lines + [l])[..|lines|] == lines;
    assert ForeignLines(id, lines) + [] == ForeignLines(id, lines);
    assert MarkedLines(id, lines) + [] == MarkedLines(id, lines);
    assert Unmarked(id, lines) + [] == Unmarked(id, lines);
  }

  lemma {:induction false} ForeignOnce(id: string, lines: seq<string>)
    requires AllLines(lines)
    ensures var f := ForeignLines(id, lines);
            ForeignLines(id, f) == f && MarkedLines(id, f) == [] && AllLines(f)
    decreases |lines|
  {
    if lines != [] {
      hide *;
      var front, l := lines[..|lines| - 1], lines[|lines| - 1];
      assert front + [l] == lines;
      AppendLine(front, l);
      ForeignOnce(id, front);
      AppendLine(ForeignLines(id, front), l);
      Append(id, front, l);
      Append(id, ForeignLines(id, front), l);
    }
  }

  lemma Single(id: string, l: string)
    ensures ForeignLines(id, [l]) == if IsForeign(id, l) then [l] else []
    ensures MarkedLines(id, [l]) == if Marked(id, l) then [l] else []
    ensures IsForeign(id, l) ==> !Marked(id, l)
  {
    assert [l][..0] == [];
  }

  lemma {:induction false} UnmarkedKeepsForeign(id: string, lines: seq<string>)
    requires AllLines(lines)
    ensures var u := Unmarked(id, lines);
            ForeignLines(id, u) == ForeignLines(id, lines) && MarkedLines(id, u) == [] && AllLines(u)
    decreases |lines|
  {
    if lines != [] {
      hide *;
      var front, l := lines[..|lines| - 1], lines[|lines| - 1];
      assert front + [l] == lines;
      AppendLine(front, l);
      UnmarkedKeepsForeign(id, front);
      AppendLine(Unmarked(id, front), l);
      Append(id, front, l);
      Append(id, Unmarked(id, front), l);
    }
  }

  /** The keys that become lines hold no newline. */
  predicate OneLineKeys(keys: seq<string>) {
    forall i | 0 <= i < |keys| :: NoNewline(TrimSpace(keys[i]))
  }

  lemma KeyLineIsMarked(id: string, rules: Rules, pub: string)
    ensures Marked(id, KeyLine(id, rules, pub))
    ensures NoNewline(id) && NoNewline(pub) ==> NoNewline(KeyLine(id, rules, pub))
  {
    hide NoNewline, Marked;
    var head := if rules.bare then pub else OPTIONS + pub;
    MarkedAtEnd(id, head);
    OptionsAreOneLine();
    Concat2(OPTIONS, pub);
    Concat2(" reach:", id);
    Concat2(head, Marker(id));
  }

  lemma MarkedAtEnd(id: string, head: string)
    ensures Marked(id, head + Marker(id))
  {
    assert (head + Marker(id))[|head|..] == Marker(id);
  }

  lemma Concat2(a: string, b: string)
    ensures NoNewline(a + b) <==> NoNewline(a) && NoNewline(b)
  {
    assert forall i | 0 <= i < |a| :: (a + b)[i] == a[i];
    assert forall i | 0 <= i < |b| :: (a + b)[|a| + i] == b[i];
  }

  lemma OptionsAreOneLine()
    ensures NoNewline(OPTIONS) && NoNewline(" reach:")
  {
    assert NoNewline(FROM);
    assert NoNewline(LIMITS[0]);
    assert NoNewline(LIMITS[1]);
    assert NoNewline(LIMITS[2]);
    Concat2(FROM, LIMITS[0]);
    Concat2(FROM + LIMITS[0], LIMITS[1]);
    Concat2(FROM + LIMITS[0] + LIMITS[1], LIMITS[2]);
  }

  lemma {:induction false} KeyLinesAreMarked(id: string, rules: Rules, keys: seq<string>, strict: bool)
    requires NoNewline(id) && OneLineKeys(keys)
    ensures var ls := KeyLines(id, rules, keys, strict);
            AllLines(ls) && MarkedLines(id, ls) == ls && ForeignLines(id, ls) == []
    decreases |keys|
  {
    if keys != [] {
      hide Marked, KeyLine, Accepts, NoNewline, TrimSpace, MarkedLines, ForeignLines, KeyLines, AllLines, IsForeign;
      var n := |keys| - 1;
      var pub := TrimSpace(keys[n]);
      var ls, l := KeyLines(id, rules, keys[..n], strict), KeyLine(id, rules, pub);
      KeyLinesAreMarked(id, rules, keys[..n], strict);
      KeyLinesStep(id, rules, keys, n, strict);
      assert keys[..n + 1] == keys;
      KeyLineIsMarked(id, rules, pub);
      AppendLine(ls, l);
      Append(id, ls, l);
    }
  }

  lemma {:induction false} AcceptedKeys(id: string, rules: Rules, keys: seq<string>, strict: bool)
    ensures KeyLines(id, rules, keys, strict) != [] <==>
            exists i | 0 <= i < |keys| :: Accepts(rules, TrimSpace(keys[i]), strict)
    decreases |keys|
  {
    hide Accepts, KeyLine, TrimSpace;
    if keys != [] {
      var front := keys[..|keys| - 1];
      AcceptedKeys(id, rules, front, strict);
      assert forall i | 0 <= i < |front| :: front[i] == keys[i];
      if exists i | 0 <= i < |keys| :: Accepts(rules, TrimSpace(keys[i]), strict) {
        var i :| 0 <= i < |keys| && Accepts(rules, TrimSpace(keys[i]), strict);
        assert i < |front| ==> Accepts(rules, TrimSpace(front[i]), strict);
      }
    }
  }

  // ---------- What the operations keep ----------

  /** The lines of a rewritten file, apart from empty ones. */
  lemma RewrittenLines(id: string, lines: seq<string>)
    ensures Foreign(id, JoinLines(lines) + "\n") == ForeignLines(id, Flat(lines))
    ensures MarkedLines(id, Lines(JoinLines(lines) + "\n")) == MarkedLines(id, Flat(lines))
    ensures lines != [] ==> Terminated(lines) == JoinLines(lines) + "\n"
  {
    LinesOfWritten(lines);
    Single(id, "");
    var all := if lines == [] then [""] else Flat(lines);
    ForeignConcat(id, all, [""]);
    MarkedConcat(id, all, [""]);
    assert !Marked(id, "") && !IsForeign(id, "");
    assert Flat([]) == [];
    assert ForeignLines(id, all) + [] == ForeignLines(id, all);
    assert MarkedLines(id, all) + [] == MarkedLines(id, all);
    if lines != [] {
      TerminatedIsJoined(lines);
    }
  }

  lemma WithKeyLines(id: string, text: string, added: seq<string>)
    ensures var lines := Foreign(id, text) + added;
            && ForeignLines(id, Flat(lines)) == Foreign(id, text) + ForeignLines(id, Flat(added))
            && MarkedLines(id, Flat(lines)) == MarkedLines(id, Flat(added))
  {
    hide Flat, ForeignLines, MarkedLines, Lines;
    var f := Foreign(id, text);
    ForeignOnce(id, Lines(text));
    FlatOfLines(f);
    FlatConcat(f, added);
    ForeignConcat(id, f, Flat(added));
    MarkedConcat(id, f, Flat(added));
    assert [] + MarkedLines(id, Flat(added)) == MarkedLines(id, Flat(added));
  }

  /** Lines of this operation's keys that will count as somebody else's: the parts of a key with newlines
      inside that are neither blank nor marked. */
  function Leaks(id: string, op: Op): seq<string> {
    ForeignLines(id, Flat(NewLines(id, op)))
  }

  /** The operation writes the file. */
  predicate Writes(id: string, file: Option<string>, op: Op) {
    op.Sync? || (op.Install? && NewLines(id, op) != []) || (op.Remove? && id != "" && file.Some?)
  }

  /** One operation keeps all foreign lines and adds exactly its leaks; and a file that it writes has exactly
      its marked lines. */
  lemma OperationKeepsForeign(id: string, file: Option<string>, op: Op)
    ensures var after := Apply(id, file, op);
            && Foreign(id, TextOf(after)) == Foreign(id, TextOf(file)) + Leaks(id, op)
            && (Writes(id, file, op) ==>
                  MarkedLines(id, Lines(TextOf(after))) == MarkedLines(id, Flat(NewLines(id, op))))
  {
    hide Foreign, Lines, JoinLines, KeyLines, MarkedLines, ForeignLines, Unmarked, Terminated;
    NothingAdded(id, Foreign(id, TextOf(file)));
    if op.Remove? {
      if file.Some? {
        var kept := Unmarked(id, Lines(file.value));
        UnmarkedKeepsForeign(id, Lines(file.value));
        FlatOfLines(kept);
        RewrittenLines(id, kept);
        ForeignIs(id, file.value);
      }
    } else {
      var added := NewLines(id, op);
      WithKeyLines(id, TextOf(file), added);
      RewrittenLines(id, Foreign(id, TextOf(file)) + added);
    }
  }

  lemma NothingAdded(id: string, foreign: seq<string>)
    ensures ForeignLines(id, Flat([])) == [] && MarkedLines(id, Flat([])) == [] && foreign + [] == foreign
  {}

  lemma ForeignIs(id: string, text: string)
    ensures Foreign(id, text) == ForeignLines(id, Lines(text))
  {}

  /** Every line of each of these entries is blank or marked. */
  ghost predicate NoPartForeign(id: string, lines: seq<string>) {
    forall i, j | 0 <= i < |lines| && 0 <= j < |Lines(lines[i])| :: !IsForeign(id, Lines(lines[i])[j])
  }

  /** An operation leaks nothing exactly when every line of every key line it writes is blank or marked. */
  lemma LeaksNothingExactly(id: string, op: Op)
    ensures Leaks(id, op) == [] <==> NoPartForeign(id, NewLines(id, op))
  {
    NoneForeignInFlat(id, NewLines(id, op));
  }

  lemma {:induction false} NoneForeign(id: string, lines: seq<string>)
    ensures ForeignLines(id, lines) == [] <==> forall i | 0 <= i < |lines| :: !IsForeign(id, lines[i])
    decreases |lines|
  {
    hide IsForeign;
    if lines != [] {
      NoneForeign(id, lines[..|lines| - 1]);
      assert forall i | 0 <= i < |lines| - 1 :: lines[..|lines| - 1][i] == lines[i];
    }
  }

  lemma {:induction false} NoneForeignInFlat(id: string, lines: seq<string>)
    ensures ForeignLines(id, Flat(lines)) == [] <==> NoPartForeign(id, lines)
    decreases |lines|
  {
    hide IsForeign, Lines, ForeignLines;
    if lines == [] {
      NothingAdded(id, []);
    } else {
      var head, rest := Lines(lines[0]), lines[1..];
      NoneForeignInFlat(id, rest);
      ForeignConcat(id, head, Flat(rest));
      NoneForeign(id, head);
      NoPartForeignCons(id, lines);
    }
  }

  lemma NoPartForeignCons(id: string, lines: seq<string>)
    requires lines != []
    ensures var head := Lines(lines[0]);
            NoPartForeign(id, lines) <==>
            (forall j | 0 <= j < |head| :: !IsForeign(id, head[j])) && NoPartForeign(id, lines[1..])
  {
    hide IsForeign, Lines;
    var rest := lines[1..];
    assert forall i | 0 <= i < |rest| :: rest[i] == lines[i + 1];
    if NoPartForeign(id, lines) {
      forall i, j | 0 <= i < |rest| && 0 <= j < |Lines(rest[i])| ensures !IsForeign(id, Lines(rest[i])[j]) {
        assert !IsForeign(id, Lines(lines[i + 1])[j]);
      }
    }
    if NoPartForeign(id, rest) {
      forall i, j | 1 <= i < |lines| && 0 <= j < |Lines(lines[i])| ensures !IsForeign(id, Lines(lines[i])[j]) {
        assert !IsForeign(id, Lines(rest[i - 1])[j]);
      }
    }
  }

  /** Keys without newlines inside leak nothing, and their lines are marked. */
  lemma OneLineKeysLeakNothing(id: string, op: Op)
    requires NoNewline(id) && (op.Remove? || OneLineKeys(op.keys))
    ensures Leaks(id, op) == [] && MarkedLines(id, Flat(NewLines(id, op))) == NewLines(id, op)
  {
    if op.Sync? {
      KeyLinesAreMarked(id, op.rules, op.keys, false);
    } else if op.Install? {
      KeyLinesAreMarked(id, op.rules, op.keys, true);
    }
    hide KeyLines, Lines, ForeignLines, MarkedLines, AllLines;
    NothingAdded(id, []);
    OneLineFlat(NewLines(id, op));
  }

  lemma OneLineFlat(lines: seq<string>)
    ensures AllLines(lines) ==> Flat(lines) == lines
    ensures AllLines([])
  {
    if AllLines(lines) {
      FlatOfLines(lines);
    }
  }

  function Run(id: string, file: Option<string>, ops: seq<Op>): Option<string> {
    if ops == [] then file else Apply(id, Run(id, file, ops[..|ops| - 1]), ops[|ops| - 1])
  }

  function AllLeaks(id: string, ops: seq<Op>): seq<string> {
    if ops == [] then [] else AllLeaks(id, ops[..|ops| - 1]) + Leaks(id, ops[|ops| - 1])
  }

  /** Over any sequence of installs, syncs and removals the non-blank lines of others stay the same lines in
      the same order; what is added to them are the leaks of the operations, and those stay too. */
  lemma {:induction false} ForeignLinesGrowByLeaks(id: string, file: Option<string>, ops: seq<Op>)
    ensures Foreign(id, TextOf(Run(id, file, ops))) == Foreign(id, TextOf(file)) + AllLeaks(id, ops)
    decreases |ops|
  {
    hide Foreign, Apply, Leaks;
    if ops == [] {
      assert Foreign(id, TextOf(file)) + [] == Foreign(id, TextOf(file));
    } else {
      var front, op := ops[..|ops| - 1], ops[|ops| - 1];
      ForeignLinesGrowByLeaks(id, file, front);
      OperationKeepsForeign(id, Run(id, file, front), op);
      var f := Foreign(id, TextOf(file));
      assert (f + AllLeaks(id, front)) + Leaks(id, op) == f + (AllLeaks(id, front) + Leaks(id, op));
    }
  }

  lemma {:induction false} NoLeaks(id: string, ops: seq<Op>)
    ensures AllLeaks(id, ops) == [] <==> forall i | 0 <= i < |ops| :: Leaks(id, ops[i]) == []
    decreases |ops|
  {
    hide Leaks;
    if ops != [] {
      NoLeaks(id, ops[..|ops| - 1]);
      assert forall i | 0 <= i < |ops| - 1 :: ops[..|ops| - 1][i] == ops[i];
    }
  }

  /** So they never change exactly when no operation leaks. */
  lemma ForeignLinesNeverChange(id: string, file: Option<string>, ops: seq<Op>)
    ensures Foreign(id, TextOf(Run(id, file, ops))) == Foreign(id, TextOf(file)) <==>
            forall i | 0 <= i < |ops| :: Leaks(id, ops[i]) == []
  {
    hide Foreign, Run, Leaks, AllLeaks;
    ForeignLinesGrowByLeaks(id, file, ops);
    NoLeaks(id, ops);
    assert |Foreign(id, TextOf(file)) + AllLeaks(id, ops)| == |Foreign(id, TextOf(file))| + |AllLeaks(id, ops)|;
    if AllLeaks(id, ops) == [] {
      assert Foreign(id, TextOf(file)) + [] == Foreign(id, TextOf(file));
    }
  }

  /** A sync gives the same file whatever happened before it, exactly when nothing before it leaked; with one
      sync as the history, syncing is idempotent exactly when it does not leak. */
  lemma SyncForgetsHistory(id: string, file: Option<string>, ops: seq<Op>, sync: Op)
    requires sync.Sync?
    ensures Apply(id, Run(id, file, ops), sync) == Apply(id, file, sync) <==>
            forall i | 0 <= i < |ops| :: Leaks(id, ops[i]) == []
  {
    hide Run, Leaks, NewLines, AllLeaks, Foreign, JoinLines, Lines;
    var f, leaks, added := Foreign(id, TextOf(file)), AllLeaks(id, ops), NewLines(id, sync);
    ForeignLinesGrowByLeaks(id, file, ops);
    NoLeaks(id, ops);
    if leaks == [] {
      assert f + [] == f;
    } else {
      LeaksAreNotEmpty(id, ops);
      MoreLinesMoreText(f, leaks, added);
    }
  }

  lemma {:induction false} LeaksAreNotEmpty(id: string, ops: seq<Op>)
    ensures forall i | 0 <= i < |AllLeaks(id, ops)| :: AllLeaks(id, ops)[i] != ""
    decreases |ops|
  {
    if ops != [] {
      LeaksAreNotEmpty(id, ops[..|ops| - 1]);
      hide Leaks;
      LeakIsNotEmpty(id, ops[|ops| - 1]);
    }
  }

  lemma LeakIsNotEmpty(id: string, op: Op)
    ensures forall i | 0 <= i < |Leaks(id, op)| :: Leaks(id, op)[i] != ""
  {
    hide Flat, NewLines;
    ForeignIsNotEmpty(id, Flat(NewLines(id, op)));
  }

  lemma {:induction false} ForeignIsNotEmpty(id: string, lines: seq<string>)
    ensures forall i | 0 <= i < |ForeignLines(id, lines)| :: ForeignLines(id, lines)[i] != ""
    decreases |lines|
  {
    if lines != [] {
      ForeignIsNotEmpty(id, lines[..|lines| - 1]);
    }
  }

  /** More lines in the middle make a longer file. */
  lemma MoreLinesMoreText(a: seq<string>, b: seq<string>, c: seq<string>)
    requires b != [] && b[0] != ""
    ensures JoinLines(a + b + c) + "\n" != JoinLines(a + c) + "\n"
  {
    hide JoinLines, Terminated;
    var more, less := a + b + c, a + c;
    TerminatedIsJoined(more);
    TerminatedLength(a + b, c);
    TerminatedLength(a, b);
    TerminatedLength(a, c);
    TerminatedAtLeast(b);
    if less != [] {
      TerminatedIsJoined(less);
    } else {
      NothingJoined(a, c);
    }
  }

  lemma NothingJoined(a: seq<string>, c: seq<string>)
    requires a + c == []
    ensures JoinLines(a + c) == "" && |Terminated(a)| == 0 && |Terminated(c)| == 0
  {
    assert |a + c| == |a| + |c|;
  }

  lemma {:induction false} TerminatedLength(a: seq<string>, b: seq<string>)
    ensures |Terminated(a + b)| == |Terminated(a)| + |Terminated(b)|
    decreases |b|
  {
    if b == [] {
      assert a + b == a;
    } else {
      TerminatedLength(a, b[..|b| - 1]);
      assert (a + b)[..|a + b| - 1] == a + b[..|b| - 1];
    }
  }

  lemma {:induction false} TerminatedAtLeast(lines: seq<string>)
    requires lines != [] && lines[0] != ""
    ensures |Terminated(lines)| >= 2
    decreases |lines|
  {
    if |lines| > 1 {
      TerminatedAtLeast(lines[..|lines| - 1]);
    }
  }

  /** After syncing a disabled machine, and after a removal that finds the file, no marked line is left. */
  lemma NothingMarkedRemains(id: string, file: Option<string>, op: Op)
    requires (op.Sync? && !op.enabled) || (op.Remove? && id != "" && file.Some?)
    ensures forall i | 0 <= i < |Lines(TextOf(Apply(id, file, op)))| ::
            !Marked(id, Lines(TextOf(Apply(id, file, op)))[i])
  {
    hide Lines, Apply, Marked, MarkedLines;
    OperationKeepsForeign(id, file, op);
    NothingAdded(id, []);
    NoneMarked(id, Lines(TextOf(Apply(id, file, op))));
  }

  lemma {:induction false} NoneMarked(id: string, lines: seq<string>)
    ensures MarkedLines(id, lines) == [] <==> forall i | 0 <= i < |lines| :: !Marked(id, lines[i])
    decreases |lines|
  {
    hide Marked;
    if lines != [] {
      NoneMarked(id, lines[..|lines| - 1]);
      assert forall i | 0 <= i < |lines| - 1 :: lines[..|lines| - 1][i] == lines[i];
    }
  }

  // ---------- A key with a newline inside ----------

  /** The first part of such a key's line is not marked. It counts as somebody else's line from then on, and
      no later operation, disabling and removal included, takes it away. */
  lemma BrokenKeyLeavesALine(id: string, rules: Rules, key: string, first: string, rest: string,
                             file: Option<string>, later: seq<Op>)
    requires Accepts(rules, TrimSpace(key), false)
    requires KeyLine(id, rules, TrimSpace(key)) == first + "\n" + rest
    requires NoNewline(first) && IsForeign(id, first)
    ensures first in Foreign(id, TextOf(Run(id, Apply(id, file, Sync([key], true, rules)), later)))
  {
    var op := Sync([key], true, rules);
    FirstPartLeaks(id, rules, key, first, rest);
    hide Accepts, TrimSpace, KeyLine, IsForeign, Run, Apply, Foreign, Leaks, AllLeaks;
    OperationKeepsForeign(id, file, op);
    ForeignLinesGrowByLeaks(id, Apply(id, file, op), later);
    var f, leaks, more := Foreign(id, TextOf(file)), Leaks(id, op), AllLeaks(id, later);
    assert (f + leaks + more)[|f|] == first;
  }

  lemma FirstPartLeaks(id: string, rules: Rules, key: string, first: string, rest: string)
    requires Accepts(rules, TrimSpace(key), false)
    requires KeyLine(id, rules, TrimSpace(key)) == first + "\n" + rest
    requires NoNewline(first) && IsForeign(id, first)
    ensures var leaks := Leaks(id, Sync([key], true, rules)); leaks != [] && leaks[0] == first
  {
    hide Accepts, TrimSpace, KeyLine, IsForeign;
    var line := first + "\n" + rest;
    OneKey(id, rules, key);
    assert Flat([]) == [] && [line][1..] == [];
    assert Flat([line]) == Lines(line) + [] == Lines(line);
    FirstPart(first, '\n', rest);
    ForeignConcat(id, [first], Lines(rest));
    Single(id, first);
  }

  /** Two keys in one value: after a sync and a disabling sync the first is still in the file. */
  lemma TwoKeysInOneValue()
    ensures var rules := Rules([], true);
            var key := "ssh-rsa AAAA" + "\n" + "ssh-rsa BBBB";
            "ssh-rsa AAAA" in Foreign("m1", TextOf(Run("m1", None, [Sync([key], true, rules), Sync([], false, rules)])))
  {
    var rules, first, second := Rules([], true), "ssh-rsa AAAA", "ssh-rsa BBBB";
    var key := first + "\n" + second;
    var on, off := Sync([key], true, rules), Sync([], false, rules);
    UnmarkedText(first);
    Trimmed(key);
    assert key[0] == 's' && key[|key| - 1] == 'B';
    assert KeyLine("m1", rules, key) == first + "\n" + (second + Marker("m1"));
    BrokenKeyLeavesALine("m1", rules, key, first, second + Marker("m1"), None, [off]);
    hide Apply;
    RunTwo("m1", None, on, off);
  }

  lemma UnmarkedText(s: string)
    requires s == "ssh-rsa AAAA"
    ensures IsForeign("m1", s) && NoNewline(s)
  {
    Trimmed(s);
    assert |s| == 12 && s[0] == 's' && s[11] == 'A';
    assert |Marker("m1")| == 9 && Marker("m1")[0] == ' ' && Marker("m1")[1] == 'r';
    assert s[0] != ' ' && s[1] != ' ' && s[2] != ' ' && s[3] != ' ';
    forall i | 0 <= i <= |s|
      ensures !(Marker("m1") <= s[i..])
    {
      assert i <= 3 ==> s[i..][0] == s[i] != ' ';
    }
  }

  lemma RunTwo(id: string, file: Option<string>, a: Op, b: Op)
    ensures Run(id, Apply(id, file, a), [b]) == Run(id, file, [a, b])
  {
    hide Apply;
    assert [a, b][..1] == [a] && [a][..0] == [] && [b][..0] == [];
    assert Run(id, file, [a]) == Apply(id, file, a);
    assert Run(id, file, [a, b]) == Apply(id, Run(id, file, [a]), b);
  }

  lemma OneKey(id: string, rules: Rules, key: string)
    requires Accepts(rules, TrimSpace(key), false)
    ensures KeyLines(id, rules, [key], false) == [KeyLine(id, rules, TrimSpace(key))]
  {
    hide Accepts, KeyLine;
    assert [key][..0] == [];
  }
}
