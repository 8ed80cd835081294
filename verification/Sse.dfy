/** The hub's event stream (events.go, api.go) and the Mac agent's parser for it
    (cmd/reach-mac-agent/main.go): the text/event-stream format of section 9.2 of the WHATWG HTML
    Standard, as far as these two use it. A char is one byte of the stream. */
module Sse {
  import opened Strings

  datatype Event = Event(id: string, kind: string, data: string)

  // ---------- The writer ----------

  /** writeSSE, with the marshalled data; both of its branches write the same. */
  function WriteEvent(e: Event): string {
    "id: " + e.id + "\nevent: " + e.kind + "\ndata: " + e.data + "\n\n"
  }

  /** writeSSEComment; `msg` is the message with its time stamp. */
  function WriteComment(msg: string): string {
    ": " + msg + "\n\n"
  }

  const OPENING := "retry: 2000\n\n"

  datatype Item = Send(event: Event) | Keepalive(msg: string)

  function WriteItem(x: Item): string {
    if x.Send? then WriteEvent(x.event) else WriteComment(x.msg)
  }

  /** What handleAdminEvents has written after these items. */
  function Written(items: seq<Item>): string {
    if items == [] then OPENING else Written(items[..|items| - 1]) + WriteItem(items[|items| - 1])
  }

  // ---------- bufio.Scanner with ScanLines ----------

  /** The scanner's buffer: a line and its newline must fit. */
  const MAX_TOKEN := 64 * 1024

  function DropCR(s: string): string {
    if s != [] && s[|s| - 1] == '\r' then s[..|s| - 1] else s
  }

  /** bufio.ErrTooLong: the buffer is full and holds no newline. */
  predicate TooLong(s: string) {
    |s| >= MAX_TOKEN && IndexOf(s, '\n') >= MAX_TOKEN
  }

  // ---------- The parser ----------

  /** The variables of parseSSE, and the events handed to its callback. */
  datatype Parser = Parser(id: string, kind: string, data: seq<string>, out: seq<Event>)

  const START := Parser("", "", [], [])

  function TrimSpace1(v: string): string {
    if v != [] && v[0] == ' ' then v[1..] else v
  }

  function Feed(p: Parser, line: string): Parser {
    if line == "" then
      if p.kind != "" || |p.data| > 0 then
        Parser("", "", [], p.out + [Event(p.id, if p.kind == "" then "message" else p.kind, Join(p.data, '\n'))])
      else Parser("", "", [], p.out)
    else if line[0] == ':' then p
    else
      var n := IndexOf(line, ':');
      if n == |line| then p
      else
        var k, v := line[..n], TrimSpace1(line[n + 1..]);
        if k == "id" then p.(id := v)
        else if k == "event" then p.(kind := v)
        else if k == "data" then p.(data := p.data + [v])
        else p
  }

  /** The rest of a run of parseSSE; true if it ends with ErrTooLong. */
  function ParseFrom(p: Parser, s: string): (Parser, bool)
    decreases |s|
  {
    if s == [] then (p, false)
    else if TooLong(s) then (p, true)
    else
      var n := IndexOf(s, '\n');
      var p' := Feed(p, DropCR(s[..n]));
      if n == |s| then (p', false) else ParseFrom(p', s[n + 1..])
  }

  method ParseSSE(text: string) returns (out: seq<Event>, tooLong: bool)
    ensures (out, tooLong) == (ParseFrom(START, text).0.out, ParseFrom(START, text).1)
  {
    var id, kind, data := "", "", [];
    out, tooLong := [], false;
    var s := text;
    while s != []
      invariant !tooLong ==> ParseFrom(START, text) == ParseFrom(Parser(id, kind, data, out), s)
      decreases |s|
    {
      if TooLong(s) {
        return out, true;
      }
      var n := IndexOf(s, '\n');
      var line := DropCR(s[..n]);
      s := if n == |s| then [] else s[n + 1..];
      if line == "" {
        if kind != "" || |data| > 0 {
          if kind == "" {
            kind := "message";
          }
          out := out + [Event(id, kind, Join(data, '\n'))];
        }
        id, kind, data := "", "", [];
      } else if line[0] != ':' {
        var colon := IndexOf(line, ':');
        if colon < |line| {
          var k, v := line[..colon], TrimSpace1(line[colon + 1..]);
          if k == "id" {
            id := v;
          } else if k == "event" {
            kind := v;
          } else if k == "data" {
            data := data + [v];
          }
        }
      }
    }
  }

  /** A comment, and a line without a colon that is not blank, do nothing. */
  lemma IgnoredLines(p: Parser, s: string)
    ensures Feed(p, ":" + s) == p
    ensures s != "" && Without(s, ':') ==> Feed(p, s) == p
  {
    assert (":" + s)[0] == ':';
  }

  /** A line with a colon: the three fields take what follows it, without one leading space; others do
      nothing. */
  lemma FieldLineFeeds(p: Parser, k: string, v: string)
    requires k != "" && Without(k, ':')
    ensures var value := if v != "" && v[0] == ' ' then v[1..] else v;
            Feed(p, k + ":" + v) ==
            if k == "id" then p.(id := value) else if k == "event" then p.(kind := value)
            else if k == "data" then p.(data := p.data + [value]) else p
  {
    FirstPart(k, ':', v);
    var line := k + [':'] + v;
    assert line[|k|] == ':' && line[..|k|] == k && line[|k| + 1..] == v && line[0] == k[0];
    hide IndexOf;
  }

  /** A line and its newline must fit into 65536 bytes. */
  lemma LineLimit(p: Parser, line: string, rest: string)
    requires Without(line, '\n')
    ensures ParseFrom(p, line + "\n" + rest) ==
            if |line| >= 65536 then (p, true) else ParseFrom(Feed(p, DropCR(line)), rest)
    ensures line != "" ==>
              ParseFrom(p, line) == if |line| >= 65536 then (p, true) else (Feed(p, DropCR(line)), false)
  {
    assert IndexOf(line, '\n') == |line| && line[..|line|] == line;
    var s := line + "\n" + rest;
    assert s[|line|] == '\n' && s[..|line|] == line && s[|line| + 1..] == rest;
    assert forall i | 0 <= i < |line| :: s[i] == line[i] != '\n';
    assert IndexOf(s, '\n') == |line|;
    hide Feed, DropCR;
  }

  // ---------- Text as lines ----------

  predicate NoNewline(s: string) {
    Without(s, '\n')
  }

  function Text(lines: seq<string>): string {
    if lines == [] then "" else lines[0] + "\n" + Text(lines[1..])
  }

  function FeedAll(p: Parser, lines: seq<string>): Parser
    decreases |lines|
  {
    if lines == [] then p else FeedAll(Feed(p, DropCR(lines[0])), lines[1..])
  }

  lemma {:induction false} TextConcat(a: seq<string>, b: seq<string>)
    ensures Text(a + b) == Text(a) + Text(b)
    decreases |a|
  {
    if a == [] {
      assert a + b == b;
    } else {
      TextConcat(a[1..], b);
      assert (a + b)[1..] == a[1..] + b;
    }
  }

  lemma {:induction false} FeedAllConcat(p: Parser, a: seq<string>, b: seq<string>)
    ensures FeedAll(p, a + b) == FeedAll(FeedAll(p, a), b)
    decreases |a|
  {
    hide Feed;
    if a == [] {
      assert a + b == b;
    } else {
      FeedAllConcat(Feed(p, DropCR(a[0])), a[1..], b);
      assert (a + b)[1..] == a[1..] + b;
    }
  }

  /** Events already handed over stay, whatever lines follow. */
  lemma {:induction false} OutputGrows(p: Parser, lines: seq<string>)
    ensures p.out <= FeedAll(p, lines).out
    decreases |lines|
  {
    if lines != [] {
      OutputGrows(Feed(p, DropCR(lines[0])), lines[1..]);
    }
  }

  lemma LineEnd(line: string, rest: string)
    requires NoNewline(line)
    ensures IndexOf(line + "\n" + rest, '\n') == |line|
    ensures (line + "\n" + rest)[..|line|] == line && (line + "\n" + rest)[|line| + 1..] == rest
  {
    var s := line + "\n" + rest;
    assert s[|line|] == '\n';
    assert forall i | 0 <= i < |line| :: s[i] == line[i];
  }

  /** Whole lines that fit the buffer are fed one by one. */
  lemma {:induction false} ParseWholeLines(p: Parser, lines: seq<string>)
    requires forall i | 0 <= i < |lines| :: NoNewline(lines[i]) && |lines[i]| < MAX_TOKEN
    ensures ParseFrom(p, Text(lines)) == (FeedAll(p, lines), false)
    decreases |lines|
  {
    hide Feed;
    if lines != [] {
      LineEnd(lines[0], Text(lines[1..]));
      ParseWholeLines(Feed(p, DropCR(lines[0])), lines[1..]);
    }
  }

  /** Cut anywhere, even inside a line, and even with lines that do not fit, the text yields a prefix of
      what the whole lines yield: an unfinished line never completes an event. */
  lemma {:induction false} ParseCutLines(p: Parser, lines: seq<string>, n: nat)
    requires n <= |Text(lines)|
    requires forall i | 0 <= i < |lines| :: NoNewline(lines[i]) && (lines[i] != "" ==> lines[i][0] != '\r')
    ensures ParseFrom(p, Text(lines)[..n]).0.out <= FeedAll(p, lines).out
    decreases |lines|
  {
    hide Feed, DropCR, TooLong, ParseFrom, NoNewline;
    OutputGrows(p, lines);
    ParseNothing(p);
    if lines != [] && n > 0 {
      var line, more := lines[0], Text(lines[1..]);
      CutText(line, more, n);
      if n <= |line| {
        UnfinishedLine(p, line[..n]);
      } else {
        var rest := more[..n - |line| - 1];
        ParseLine(p, line, rest);
        ParseCutLines(Feed(p, DropCR(line)), lines[1..], n - |line| - 1);
      }
    }
  }

  lemma ParseNothing(p: Parser)
    ensures ParseFrom(p, "") == (p, false)
  {}

  lemma CutText(line: string, more: string, n: nat)
    requires 0 < n <= |line| + 1 + |more|
    ensures var s := line + "\n" + more;
            if n <= |line| then s[..n] == line[..n] else s[..n] == line + "\n" + more[..n - |line| - 1]
    ensures NoNewline(line) && n <= |line| ==> NoNewline(line[..n]) && line[..n] != "" && line[..n][0] == line[0]
  {}

  lemma ParseLine(p: Parser, line: string, rest: string)
    requires NoNewline(line)
    ensures var s := line + "\n" + rest;
            ParseFrom(p, s) == if TooLong(s) then (p, true) else ParseFrom(Feed(p, DropCR(line)), rest)
  {
    hide Feed, DropCR, TooLong;
    LineEnd(line, rest);
  }

  lemma UnfinishedLine(p: Parser, s: string)
    requires s != [] && NoNewline(s) && s[0] != '\r'
    ensures ParseFrom(p, s).0.out == p.out
  {
    var n := IndexOf(s, '\n');
    assert n == |s|;
    assert s[..n] == s;
  }

  // ---------- The stream of events ----------

  function ItemLines(x: Item): seq<string> {
    if x.Send? then ["id: " + x.event.id, "event: " + x.event.kind, "data: " + x.event.data, ""] else [": " + x.msg, ""]
  }

  function StreamLines(items: seq<Item>): seq<string> {
    if items == [] then ["retry: 2000", ""] else StreamLines(items[..|items| - 1]) + ItemLines(items[|items| - 1])
  }

  predicate NewlineFree(x: Item) {
    if x.Send? then NoNewline(x.event.id) && NoNewline(x.event.kind) && NoNewline(x.event.data) else NoNewline(x.msg)
  }

  predicate Fits(x: Item) {
    if x.Send? then |x.event.id| + 4 < MAX_TOKEN && |x.event.kind| + 7 < MAX_TOKEN && |x.event.data| + 6 < MAX_TOKEN
    else |x.msg| + 2 < MAX_TOKEN
  }

  lemma TextCons(line: string, lines: seq<string>)
    ensures Text([line] + lines) == line + "\n" + Text(lines)
  {
    assert ([line] + lines)[1..] == lines;
  }

  lemma ItemText(x: Item)
    ensures Text(ItemLines(x)) == WriteItem(x)
  {
    hide Text;
    if x.Send? {
      var id, kind, data := "id: " + x.event.id, "event: " + x.event.kind, "data: " + x.event.data;
      EventText(id, kind, data);
      EventParts(x.event);
    } else {
      var line := ": " + x.msg;
      TextOfLast(line);
      assert line + "\n\n" == line + "\n" + "\n";
    }
  }

  lemma TextOfLast(line: string)
    ensures Text([line, ""]) == line + "\n" + "\n"
  {
    assert [line] + [""] == [line, ""] && [""] + [] == [""];
    TextCons(line, [""]);
    TextCons("", []);
    assert "" + "\n" + "" == "\n";
  }

  lemma EventText(id: string, kind: string, data: string)
    ensures Text([id, kind, data, ""]) == id + "\n" + (kind + "\n" + (data + "\n" + "\n"))
  {
    TextOfLast(data);
    TextCons(kind, [data, ""]);
    TextCons(id, [kind] + [data, ""]);
    assert [id] + ([kind] + [data, ""]) == [id, kind, data, ""];
    hide Text;
  }

  /** The format of writeSSE, cut at its newlines. */
  lemma EventParts(e: Event)
    ensures var id, kind, data := "id: " + e.id, "event: " + e.kind, "data: " + e.data;
            WriteEvent(e) == id + "\n" + (kind + "\n" + (data + "\n" + "\n"))
  {
    assert "\nevent: " == "\n" + "event: " && "\ndata: " == "\n" + "data: " && "\n\n" == "\n" + "\n";
    Regroup("id: " + e.id, "\n", "event: ", e.kind, "data: ", e.data);
  }

  lemma Regroup(id: string, n: string, b: string, kind: string, c: string, data: string)
    ensures id + (n + b) + kind + (n + c) + data + (n + n) == id + n + ((b + kind) + n + ((c + data) + n + n))
  {}

  lemma {:induction false} StreamText(items: seq<Item>)
    ensures Text(StreamLines(items)) == Written(items)
    decreases |items|
  {
    if items == [] {
      var ls := StreamLines(items);
      assert ls[1..][1..] == [] && Text(ls[1..]) == "\n";
    } else {
      var front, x := items[..|items| - 1], items[|items| - 1];
      StreamText(front);
      ItemText(x);
      TextConcat(StreamLines(front), ItemLines(x));
    }
  }

  lemma {:induction false} StreamLinesOk(items: seq<Item>)
    requires forall i | 0 <= i < |items| :: NewlineFree(items[i])
    ensures forall i | 0 <= i < |StreamLines(items)| ::
              NoNewline(StreamLines(items)[i]) && (StreamLines(items)[i] != "" ==> StreamLines(items)[i][0] != '\r')
    ensures (forall i | 0 <= i < |items| :: Fits(items[i])) ==>
              forall i | 0 <= i < |StreamLines(items)| :: |StreamLines(items)[i]| < MAX_TOKEN
    decreases |items|
  {
    if items != [] {
      StreamLinesOk(items[..|items| - 1]);
      ItemLinesOk(items[|items| - 1]);
    }
  }

  lemma ItemLinesOk(x: Item)
    requires NewlineFree(x)
    ensures forall i | 0 <= i < |ItemLines(x)| ::
              NoNewline(ItemLines(x)[i]) && (ItemLines(x)[i] != "" ==> ItemLines(x)[i][0] != '\r')
    ensures Fits(x) ==> forall i | 0 <= i < |ItemLines(x)| :: |ItemLines(x)[i]| < MAX_TOKEN
  {}

  /** What the parser makes of one event: a carriage return at the end of a field is lost, and an empty
      type becomes "message". */
  function Received(e: Event): Event {
    Event(DropCR(e.id), if DropCR(e.kind) == "" then "message" else DropCR(e.kind), DropCR(e.data))
  }

  function ReceivedFrom(items: seq<Item>): seq<Event> {
    if items == [] then []
    else
      var last := items[|items| - 1];
      ReceivedFrom(items[..|items| - 1]) + (if last.Send? then [Received(last.event)] else [])
  }

  predicate Between(p: Parser) {
    p.id == "" && p.kind == "" && p.data == []
  }

  lemma FieldSplit(name: string, v: string)
    requires name == "id" || name == "event" || name == "data"
    ensures var line := name + ": " + v;
            IndexOf(line, ':') == |name| < |line| && line[0] != ':' && line[..|name|] == name
              && TrimSpace1(line[|name| + 1..]) == v
  {
    var line := name + ": " + v;
    assert line[|name|] == ':' && forall i | 0 <= i < |name| :: line[i] == name[i] && name[i] != ':';
    assert line[..|name|] == name;
    assert line[|name| + 1..] == " " + v;
    assert (" " + v)[1..] == v;
  }

  lemma FieldCR(name: string, value: string)
    ensures DropCR(name + ": " + value) == name + ": " + DropCR(value)
  {
    var line := name + ": " + value;
    if value != "" {
      assert line[|line| - 1] == value[|value| - 1];
      assert line[..|line| - 1] == name + ": " + value[..|value| - 1];
    } else {
      assert line[|line| - 1] == ' ';
    }
  }

  lemma FieldLine(p: Parser, name: string, value: string)
    requires name == "id" || name == "event" || name == "data"
    ensures Feed(p, DropCR(name + ": " + value)) ==
            if name == "id" then p.(id := DropCR(value))
            else if name == "event" then p.(kind := DropCR(value))
            else p.(data := p.data + [DropCR(value)])
  {
    hide IndexOf, TrimSpace1, DropCR;
    FieldCR(name, value);
    FieldSplit(name, DropCR(value));
    assert |"id"| == 2 && |"event"| == 5 && |"data"| == 4;
  }

  lemma FeedTwo(p: Parser, a: string, b: string)
    ensures FeedAll(p, [a, b]) == Feed(Feed(p, DropCR(a)), DropCR(b))
  {
    hide Feed, DropCR;
    var q := Feed(p, DropCR(a));
    assert [a, b][1..] == [b];
    assert FeedAll(p, [a, b]) == FeedAll(q, [b]);
    assert [b][1..] == [];
    assert FeedAll(q, [b]) == FeedAll(Feed(q, DropCR(b)), []);
  }

  lemma FeedItem(p: Parser, x: Item)
    requires Between(p)
    ensures var p' := FeedAll(p, ItemLines(x));
            Between(p') && p'.out == p.out + if x.Send? then [Received(x.event)] else []
  {
    if x.Send? {
      FeedEvent(p, x.event);
    } else {
      FeedTwo(p, ": " + x.msg, "");
      CommentLine(p, x.msg);
      assert p.out + [] == p.out;
    }
  }

  lemma FeedEvent(p: Parser, e: Event)
    requires Between(p)
    ensures FeedAll(p, ItemLines(Send(e))) == Parser("", "", [], p.out + [Received(e)])
  {
    hide Feed, DropCR;
    var p1 := p.(id := DropCR(e.id));
    var p2 := p1.(kind := DropCR(e.kind));
    var p3 := p2.(data := [DropCR(e.data)]);
    FieldLine(p, "id", e.id);
    FieldLine(p1, "event", e.kind);
    FieldLine(p2, "data", e.data);
    assert p2.data + [DropCR(e.data)] == [DropCR(e.data)];
    assert "id" + ": " == "id: " && "event" + ": " == "event: " && "data" + ": " == "data: ";
    FeedTwo(p, "id: " + e.id, "event: " + e.kind);
    FeedTwo(p2, "data: " + e.data, "");
    FeedAllConcat(p, ["id: " + e.id, "event: " + e.kind], ["data: " + e.data, ""]);
    assert ItemLines(Send(e)) == ["id: " + e.id, "event: " + e.kind] + ["data: " + e.data, ""];
    FeedBlank(p3);
  }

  lemma FeedBlank(p: Parser)
    requires |p.data| == 1
    ensures Feed(p, DropCR("")) ==
            Parser("", "", [], p.out + [Event(p.id, if p.kind == "" then "message" else p.kind, p.data[0])])
  {}

  lemma CommentLine(p: Parser, msg: string)
    ensures Feed(p, DropCR(": " + msg)) == p
    ensures Between(p) ==> Feed(p, DropCR("")) == p
  {
    assert DropCR(": " + msg)[0] == ':';
  }

  lemma RetryLine(p: Parser)
    ensures Feed(p, DropCR("retry: 2000")) == p
  {
    var line := "retry: 2000";
    assert line[5] == ':' && IndexOf(line, ':') == 5;
    assert line[..5] == "retry";
    assert "retry" != "event" by {
      assert "retry"[0] != "event"[0];
    }
    assert |"retry"| != |"id"| && |"retry"| != |"data"|;
  }

  lemma {:induction false} FeedStream(items: seq<Item>)
    ensures var p := FeedAll(START, StreamLines(items)); Between(p) && p.out == ReceivedFrom(items)
    decreases |items|
  {
    hide Feed, ItemLines, Received;
    if items == [] {
      FeedTwo(START, "retry: 2000", "");
      RetryLine(START);
      CommentLine(START, "");
    } else {
      var front, x := items[..|items| - 1], items[|items| - 1];
      FeedStream(front);
      FeedAllConcat(START, StreamLines(front), ItemLines(x));
      FeedItem(FeedAll(START, StreamLines(front)), x);
    }
  }

  // ---------- The main theorems ----------

  /** Any interleaving of newline-free events and comments, with lines the scanner can hold, is received
      event for event, in order, without an error. */
  lemma StreamIsReceived(items: seq<Item>)
    requires forall i | 0 <= i < |items| :: NewlineFree(items[i]) && Fits(items[i])
    ensures ParseFrom(START, Written(items)).0.out == ReceivedFrom(items)
    ensures !ParseFrom(START, Written(items)).1
  {
    StreamText(items);
    StreamLinesOk(items);
    FeedStream(items);
    ParseWholeLines(START, StreamLines(items));
  }

  /** A connection that breaks after any byte delivers a prefix of those events, and never half of one. */
  lemma BrokenStreamIsAPrefix(items: seq<Item>, n: nat)
    requires forall i | 0 <= i < |items| :: NewlineFree(items[i])
    requires n <= |Written(items)|
    ensures ParseFrom(START, Written(items)[..n]).0.out <= ReceivedFrom(items)
  {
    StreamText(items);
    StreamLinesOk(items);
    FeedStream(items);
    ParseCutLines(START, StreamLines(items), n);
  }

  /** An event arrives unchanged exactly when it has a type and no field ends in a carriage return. */
  lemma ReceivedUnchanged(e: Event)
    ensures Received(e) == e <==>
            e.kind != "" && (forall f | f in [e.id, e.kind, e.data] :: f == "" || f[|f| - 1] != '\r')
  {
    assert [e.id, e.kind, e.data][0] == e.id && [e.id, e.kind, e.data][1] == e.kind
           && [e.id, e.kind, e.data][2] == e.data;
  }
}
