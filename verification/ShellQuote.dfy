/** Shell quoting (cmd/reach-agent/install.go), against the quoting rules of section 2.2 and the token
    rules of section 2.3 of the POSIX.1-2017 Shell Command Language. */
module ShellQuote {
  // ---------- The program ----------

  /** strings.ReplaceAll for a one-character pattern. */
  function ReplaceAll(s: string, c: char, with: string): string {
    if s == "" then "" else (if s[0] == c then with else [s[0]]) + ReplaceAll(s[1..], c, with)
  }

  function Quote(s: string): string {
    "'" + ReplaceAll(s, '\'', "'\\''") + "'"
  }

  function AgentShellCommand(agentPath: string, cfgPath: string, discoverable: bool): string {
    if discoverable then Quote(agentPath) else Quote(agentPath) + " run --config " + Quote(cfgPath)
  }

  // ---------- The shell ----------

  datatype Scan = Word(word: string, rest: string) | Unterminated | Special

  predicate IsBlank(c: char) { c == ' ' || c == '\t' || c == '\n' }

  /** Characters that start an operator, an expansion, a pattern or a comment when unquoted. Double
      quotes are among them: this scanner knows single quotes and the backslash only. */
  predicate IsSpecial(c: char) { c in "|&;<>()$`\"*?[#~=%!{}" }

  function Prepend(w: string, r: Scan): Scan {
    if r.Word? then Word(w + r.word, r.rest) else r
  }

  /** The rest of the word that the shell is reading; a NUL cannot be part of its input. */
  function ScanWord(s: string, quoted: bool): Scan {
    if s == "" then if quoted then Unterminated else Word("", "")
    else if s[0] == '\0' then Special
    else if quoted then
      if s[0] == '\'' then ScanWord(s[1..], false) else Prepend([s[0]], ScanWord(s[1..], true))
    else if IsBlank(s[0]) then Word("", s)
    else if s[0] == '\'' then ScanWord(s[1..], true)
    else if s[0] == '\\' then
      if |s| == 1 then Unterminated
      else if s[1] == '\0' then Special
      else if s[1] == '\n' then ScanWord(s[2..], false)
      else Prepend([s[1]], ScanWord(s[2..], false))
    else if IsSpecial(s[0]) then Special
    else Prepend([s[0]], ScanWord(s[1..], false))
  }

  datatype Split = Words(words: seq<string>) | NotSimple

  /** The fields of a simple command. */
  function Fields(s: string): Split
    decreases |s|
  {
    if s == "" then Words([])
    else if IsBlank(s[0]) then Fields(s[1..])
    else
      var r := ScanWord(s, false);
      ScanShrinks(s, false);
      if r.Word? && |r.rest| < |s| then
        var t := Fields(r.rest);
        if t.Words? then Words([r.word] + t.words) else NotSimple
      else NotSimple
  }

  lemma {:induction false} ScanShrinks(s: string, quoted: bool)
    ensures var r := ScanWord(s, quoted);
            r.Word? ==> |r.rest| <= |s| && (s != "" && (quoted || !IsBlank(s[0])) ==> |r.rest| < |s|)
    decreases |s|
  {
    if s != "" {
      ScanShrinks(s[1..], false);
      ScanShrinks(s[1..], true);
      if |s| > 1 {
        ScanShrinks(s[2..], false);
      }
    }
  }

  // ---------- What quoting promises ----------

  predicate NulFree(s: string) {
    forall i | 0 <= i < |s| :: s[i] != '\0'
  }

  /** Inside the quotes the scanner gives back `s` and goes on behind the closing quote. */
  lemma {:induction false} ScanEscaped(s: string, tail: string)
    ensures ScanWord(ReplaceAll(s, '\'', "'\\''") + "'" + tail, true) ==
            if NulFree(s) then Prepend(s, ScanWord(tail, false)) else Special
    decreases |s|
  {
    if s == "" {
      var text := "" + "'" + tail;
      assert text[1..] == tail;
      PrependNothing(ScanWord(tail, false));
    } else {
      var more := ReplaceAll(s[1..], '\'', "'\\''") + "'" + tail;
      ScanEscaped(s[1..], tail);
      NulFreeTail(s);
      assert s == [s[0]] + s[1..];
      if s[0] == '\'' {
        EscapedQuote(more);
        assert ReplaceAll(s, '\'', "'\\''") + "'" + tail == "'\\''" + more;
      } else {
        assert ReplaceAll(s, '\'', "'\\''") + "'" + tail == [s[0]] + more;
        assert ([s[0]] + more)[1..] == more;
      }
      if NulFree(s) {
        PrependTwice([s[0]], s[1..], ScanWord(tail, false));
      }
    }
  }

  lemma NulFreeTail(s: string)
    requires s != ""
    ensures NulFree(s) <==> s[0] != '\0' && NulFree(s[1..])
  {
    assert forall i | 1 <= i < |s| :: s[i] == s[1..][i - 1];
  }

  lemma PrependNothing(r: Scan)
    ensures Prepend("", r) == r
  {
    if r.Word? {
      assert "" + r.word == r.word;
    }
  }

  lemma PrependTwice(a: string, b: string, r: Scan)
    ensures Prepend(a, Prepend(b, r)) == Prepend(a + b, r)
  {
    if r.Word? {
      assert a + (b + r.word) == (a + b) + r.word;
    }
  }

  /** Close, escaped quote, open again. */
  lemma EscapedQuote(more: string)
    ensures ScanWord("'\\''" + more, true) == Prepend("'", ScanWord(more, true))
  {
    var t, t1, t2 := "'\\''" + more, "\\''" + more, "'" + more;
    assert t[1..] == t1 && t1[2..] == t2 && t2[1..] == more;
    assert ScanWord(t, true) == ScanWord(t1, false);
    assert t1[0] == '\\' && t1[1] == '\'' && [t1[1]] == "'";
    assert ScanWord(t1, false) == Prepend("'", ScanWord(t2, false));
    assert ScanWord(t2, false) == ScanWord(more, true);
  }

  /** The shell reads Quote(s), followed by any text, as `s` joined with what the text adds to the word;
      followed by the end or a blank that is `s` itself. A NUL is what no quoting can carry. */
  lemma QuoteIsOneWord(s: string, tail: string)
    ensures ScanWord(Quote(s) + tail, false) == if NulFree(s) then Prepend(s, ScanWord(tail, false)) else Special
    ensures tail == "" || IsBlank(tail[0]) ==>
              (ScanWord(Quote(s) + tail, false) == Word(s, tail) <==> NulFree(s))
  {
    var inner := ReplaceAll(s, '\'', "'\\''") + "'" + tail;
    assert Quote(s) + tail == "'" + inner;
    assert ("'" + inner)[1..] == inner;
    ScanEscaped(s, tail);
    assert s + "" == s;
    assert tail == "" || IsBlank(tail[0]) ==> ScanWord(tail, false) == Word("", tail);
  }

  /** Arguments quoted one by one and joined with spaces. */
  function QuoteAll(args: seq<string>): string {
    if args == [] then "" else Quote(args[0]) + if |args| == 1 then "" else " " + QuoteAll(args[1..])
  }

  lemma QuotedField(s: string, tail: string)
    requires NulFree(s) && (tail == "" || IsBlank(tail[0]))
    ensures Fields(Quote(s) + tail) ==
            if Fields(tail).Words? then Words([s] + Fields(tail).words) else NotSimple
  {
    QuoteIsOneWord(s, tail);
    ScanShrinks(Quote(s) + tail, false);
    assert (Quote(s) + tail)[0] == '\'';
  }

  /** Any argument list at all, empty arguments, spaces and quotes included, survives the shell. */
  lemma {:induction false} QuotedArgumentsSurvive(args: seq<string>)
    requires forall i | 0 <= i < |args| :: NulFree(args[i])
    ensures Fields(QuoteAll(args)) == Words(args)
    decreases |args|
  {
    if |args| == 1 {
      QuotedField(args[0], "");
      assert Quote(args[0]) + "" == QuoteAll(args) && [args[0]] + [] == args;
    } else if |args| > 1 {
      var tail := " " + QuoteAll(args[1..]);
      QuotedArgumentsSurvive(args[1..]);
      QuotedField(args[0], tail);
      assert tail[1..] == QuoteAll(args[1..]);
      assert Fields(tail) == Words(args[1..]);
      assert [args[0]] + args[1..] == args;
    }
  }

  /** Different texts are quoted differently. */
  lemma QuoteIsInjective(a: string, b: string)
    requires NulFree(a) && NulFree(b)
    ensures Quote(a) == Quote(b) <==> a == b
  {
    QuoteIsOneWord(a, "");
    QuoteIsOneWord(b, "");
    assert Quote(a) + "" == Quote(a) && Quote(b) + "" == Quote(b);
  }

  predicate IsPlain(c: char) {
    c != '\0' && !IsBlank(c) && c != '\'' && c != '\\' && !IsSpecial(c)
  }

  lemma {:induction false} PlainWord(w: string, tail: string)
    requires forall i | 0 <= i < |w| :: IsPlain(w[i])
    requires tail == "" || IsBlank(tail[0])
    requires NulFree(tail)
    ensures ScanWord(w + tail, false) == Word(w, tail)
    decreases |w|
  {
    if w == "" {
      assert w + tail == tail;
    } else {
      PlainWord(w[1..], tail);
      assert (w + tail)[1..] == w[1..] + tail;
      assert [w[0]] + w[1..] == w;
    }
  }

  lemma PlainField(w: string, tail: string)
    requires w != "" && (forall i | 0 <= i < |w| :: IsPlain(w[i]))
    requires (tail == "" || IsBlank(tail[0])) && NulFree(tail)
    ensures Fields(w + tail) == if Fields(tail).Words? then Words([w] + Fields(tail).words) else NotSimple
  {
    PlainWord(w, tail);
    ScanShrinks(w + tail, false);
    assert (w + tail)[0] == w[0];
  }

  lemma SkipBlank(s: string)
    ensures Fields(" " + s) == Fields(s)
  {
    assert (" " + s)[1..] == s;
  }

  lemma {:induction false} QuoteKeepsNulFree(s: string)
    requires NulFree(s)
    ensures NulFree(Quote(s))
  {
    ReplaceKeepsNulFree(s);
  }

  lemma {:induction false} ReplaceKeepsNulFree(s: string)
    requires NulFree(s)
    ensures NulFree(ReplaceAll(s, '\'', "'\\''"))
    decreases |s|
  {
    if s != "" {
      ReplaceKeepsNulFree(s[1..]);
    }
  }

  /** The command line put into crontabs and scripts starts the agent with exactly these arguments. */
  lemma AgentCommandStartsAgent(agentPath: string, cfgPath: string, discoverable: bool)
    requires NulFree(agentPath) && NulFree(cfgPath)
    ensures Fields(AgentShellCommand(agentPath, cfgPath, discoverable)) ==
            Words(if discoverable then [agentPath] else [agentPath, "run", "--config", cfgPath])
  {
    hide Fields, ScanWord, Quote, IsPlain;
    if discoverable {
      QuotedArgumentsSurvive([agentPath]);
      assert QuoteAll([agentPath]) == Quote(agentPath) + "" == Quote(agentPath);
    } else {
      var q := Quote(cfgPath);
      QuoteKeepsNulFree(cfgPath);
      QuotedArgumentsSurvive([cfgPath]);
      assert QuoteAll([cfgPath]) == q + "" == q;
      OptionFields(q);
      QuotedField(agentPath, Options(q));
      CommandText(Quote(agentPath), q);
      Arguments(agentPath, "run", "--config", cfgPath);
    }
  }

  function Options(q: string): string {
    " " + ("run" + (" " + ("--config" + (" " + q))))
  }

  lemma CommandText(p: string, q: string)
    ensures p + Options(q) == p + " run --config " + q
  {
    assert "run" + (" " + ("--config" + (" " + q))) == "run --config " + q;
  }

  lemma Arguments(a: string, b: string, c: string, d: string)
    ensures [a] + ([b] + ([c] + [d])) == [a, b, c, d]
  {}

  lemma OptionFields(q: string)
    requires NulFree(q)
    requires Fields(q).Words?
    ensures Fields(Options(q)) == Words(["run"] + (["--config"] + Fields(q).words))
  {
    hide ScanWord, Quote, Fields;
    SkipBlank(q);
    PlainField("--config", " " + q);
    SkipBlank("--config" + (" " + q));
    PlainField("run", " " + ("--config" + (" " + q)));
    SkipBlank("run" + (" " + ("--config" + (" " + q))));
  }
}
