/** The two parsers of the audit-log event stream: `parseSseEvents` (sdk-js/src/client.ts) and
    `LogWatcher.Next` (sdk-go/log.go); section 9.2 of the WHATWG HTML standard. An event is the text
    handed to the JSON decoder. */
module SseStreams {
  import opened Wrappers

  function IndexOf(s: string, c: char): (i: nat)
    ensures i <= |s| && c !in s[..i] && (i < |s| ==> s[i] == c)
  {
    if s == "" || s[0] == c then 0 else 1 + IndexOf(s[1..], c)
  }

  /** The lines that end with a line feed, without it. */
  function Lines(s: string): seq<string> {
    var i := IndexOf(s, '\n');
    if i == |s| then [] else [s[..i]] + Lines(s[i + 1..])
  }

  /** What follows the last line feed. */
  function Tail(s: string): string {
    var i := IndexOf(s, '\n');
    if i == |s| then s else Tail(s[i + 1..])
  }

  function DropCr(line: string): string {
    if line != "" && line[|line| - 1] == '\r' then line[..|line| - 1] else line
  }

  function Join(lines: seq<string>): string {
    if lines == [] then "" else if |lines| == 1 then lines[0] else lines[0] + "\n" + Join(lines[1..])
  }

  predicate IsData(line: string) { |line| >= 5 && line[..5] == "data:" }

  /** White space as `trimStart` knows it. */
  predicate IsJsSpace(c: char) {
    var u := c as int;
    || 0x9 <= u <= 0xD || u == 0x20 || u == 0xA0 || u == 0x1680 || 0x2000 <= u <= 0x200A
    || u == 0x2028 || u == 0x2029 || u == 0x202F || u == 0x205F || u == 0x3000 || u == 0xFEFF
  }

  function JsTrim(s: string): string {
    if s != "" && IsJsSpace(s[0]) then JsTrim(s[1..]) else s
  }

  function GoTrim(s: string): string {
    if s != "" && s[0] == ' ' then s[1..] else s
  }

  datatype Parser = Parser(events: seq<string>, data: seq<string>)

  const START := Parser([], [])

  function Flush(p: Parser): Parser {
    if p.data == [] then p else Parser(p.events + [Join(p.data)], [])
  }

  /** What one complete line does; both parsers differ only in how they trim the value. */
  function OnLine(trim: string -> string, p: Parser, line: string): Parser {
    var l := DropCr(line);
    if l == "" then Flush(p) else if IsData(l) then p.(data := p.data + [trim(l[5..])]) else p
  }

  function Feed(trim: string -> string, p: Parser, lines: seq<string>): Parser
    decreases |lines|
  {
    if lines == [] then p else Feed(trim, OnLine(trim, p, lines[0]), lines[1..])
  }

  /** At the end JavaScript emits what is pending and ignores an unterminated line. */
  function JsEvents(text: string): seq<string> {
    Flush(Feed(JsTrim, START, Lines(text))).events
  }

  /** At the end Go drops what is pending, but treats an unterminated carriage return as a blank line. */
  function GoEvents(text: string): seq<string> { GoFrom([], text) }

  function GoFrom(data: seq<string>, text: string): seq<string> {
    var p := Feed(GoTrim, Parser([], data), Lines(text));
    if Tail(text) == "\r" then Flush(p).events else p.events
  }

  // --------------------------------------------------------------- JavaScript: chunks

  function Concat(chunks: seq<string>): string {
    if chunks == [] then "" else chunks[0] + Concat(chunks[1..])
  }

  lemma ConcatNext(buffer: string, chunks: seq<string>, i: nat)
    requires i < |chunks|
    ensures buffer + Concat(chunks[i..]) == buffer + chunks[i] + Concat(chunks[i + 1..])
  {
    assert chunks[i..][1..] == chunks[i + 1..];
  }

  lemma ConcatEnds(buffer: string, chunks: seq<string>)
    ensures "" + Concat(chunks[0..]) == Concat(chunks)
    ensures buffer + Concat(chunks[|chunks|..]) == buffer
  {
    assert chunks[0..] == chunks;
  }

  lemma {:induction false} IndexIs(s: string, c: char, i: nat)
    requires i <= |s| && c !in s[..i] && (i < |s| ==> s[i] == c)
    ensures IndexOf(s, c) == i
  {
    if i > 0 {
      assert s[0] in s[..i];
      assert s[1..][..i - 1] == s[1..i];
      assert forall x | x in s[1..i] :: x in s[..i];
      IndexIs(s[1..], c, i - 1);
    }
  }

  lemma {:induction false} FirstLine(line: string, rest: string)
    requires '\n' !in line
    ensures Lines(line + "\n" + rest) == [line] + Lines(rest) && Tail(line + "\n" + rest) == Tail(rest)
  {
    var s := line + "\n" + rest;
    assert s[..|line|] == line && s[|line| + 1..] == rest;
    IndexIs(s, '\n', |line|);
  }

  /** `parseSseEvents`. The events depend on the concatenation only, not on how it was cut. */
  method ParseSseEvents(chunks: seq<string>) returns (events: seq<string>)
    ensures events == JsEvents(Concat(chunks))
  {
    var buffer := "";
    var p := START;
    var i := 0;
    ConcatEnds("", chunks);
    while i < |chunks|
      invariant 0 <= i <= |chunks| && '\n' !in buffer
      invariant Feed(JsTrim, p, Lines(buffer + Concat(chunks[i..]))) == Feed(JsTrim, START, Lines(Concat(chunks)))
    {
      ghost var later := Concat(chunks[i + 1..]);
      ConcatNext(buffer, chunks, i);
      buffer := buffer + chunks[i];
      p, buffer := ParseBuffer(p, buffer, later);
      i := i + 1;
    }
    ConcatEnds(buffer, chunks);
    IndexIs(buffer, '\n', |buffer|);
    events := p.events;
    if |p.data| > 0 {
      events := events + [Join(p.data)];
    }
  }

  /** The inner loop: all complete lines of the buffer. */
  method ParseBuffer(p0: Parser, buffer0: string, ghost later: string) returns (p: Parser, buffer: string)
    ensures '\n' !in buffer
    ensures Feed(JsTrim, p, Lines(buffer + later)) == Feed(JsTrim, p0, Lines(buffer0 + later))
  {
    p, buffer := p0, buffer0;
    while true
      invariant Feed(JsTrim, p, Lines(buffer + later)) == Feed(JsTrim, p0, Lines(buffer0 + later))
      decreases |buffer|
    {
      var newline := IndexOf(buffer, '\n');
      if newline == |buffer| {
        break;
      }
      var line := DropCr(buffer[..newline]);
      FeedFirstLine(p, buffer, newline, later);
      buffer := buffer[newline + 1..];
      if line == "" {
        if |p.data| > 0 {
          p := Parser(p.events + [Join(p.data)], []);
        }
        continue;
      }
      if IsData(line) {
        p := p.(data := p.data + [JsTrim(line[5..])]);
      }
    }
  }

  lemma FeedFirstLine(p: Parser, buffer: string, newline: nat, later: string)
    requires newline < |buffer| && buffer[newline] == '\n' && '\n' !in buffer[..newline]
    ensures Feed(JsTrim, p, Lines(buffer + later))
         == Feed(JsTrim, OnLine(JsTrim, p, buffer[..newline]), Lines(buffer[newline + 1..] + later))
  {
    assert buffer + later == buffer[..newline] + "\n" + (buffer[newline + 1..] + later);
    FirstLine(buffer[..newline], buffer[newline + 1..] + later);
  }

  // --------------------------------------------------------------- Go: one event per call

  class LogWatcher {
    var rest: string
    var current: string

    constructor (text: string)
      ensures rest == text
    {
      rest, current := text, "";
    }

    /** `bufio.Scanner` with `ScanLines`. */
    method Scan() returns (line: Option<string>)
      modifies this`rest
      ensures Scanned(old(rest), line, rest) && (line.Some? ==> |rest| < |old(rest)|)
    {
      var i := IndexOf(rest, '\n');
      if i < |rest| {
        line := Some(DropCr(rest[..i]));
        rest := rest[i + 1..];
      } else if rest != "" {
        line := Some(DropCr(rest));
        rest := "";
      } else {
        line := None;
      }
    }

    /** `Next`: the events come one by one, and nothing is left when it returns false. */
    method Next() returns (ok: bool)
      modifies this
      ensures ok <==> GoEvents(old(rest)) != []
      ensures ok ==> current == GoEvents(old(rest))[0] && GoEvents(rest) == GoEvents(old(rest))[1..]
      ensures !ok ==> rest == ""
    {
      var data: seq<string> := [];
      while true
        invariant GoFrom(data, rest) == GoEvents(old(rest))
        decreases |rest|
      {
        ghost var before := rest;
        var line := Scan();
        AfterScan(data, before, line, rest);
        if line.None? {
          return false;
        }
        if line.value == "" {
          if data == [] {
            continue;
          }
          current := Join(data);
          return true;
        }
        if IsData(line.value) {
          data := data + [GoTrim(line.value[5..])];
        }
      }
    }
  }

  /** What one `Scan` does: a terminated line, or the rest of the stream, without a carriage return. */
  ghost predicate Scanned(before: string, line: Option<string>, after: string) {
    if Lines(before) != [] then
      line == Some(DropCr(Lines(before)[0])) && Lines(after) == Lines(before)[1..] && Tail(after) == Tail(before)
    else
      after == "" && line == if before == "" then None else Some(DropCr(before))
  }

  lemma AfterScan(data: seq<string>, before: string, line: Option<string>, after: string)
    requires Scanned(before, line, after)
    ensures line == None ==> GoFrom(data, before) == [] && after == ""
    ensures line == Some("") ==>
              GoFrom(data, before) == (if data == [] then [] else [Join(data)]) + GoFrom([], after)
    ensures line.Some? && line.value != "" ==>
              GoFrom(data, before)
                  == GoFrom(if IsData(line.value) then data + [GoTrim(line.value[5..])] else data, after)
  {
    if Lines(before) == [] {
      TailScanned(data, before);
    } else {
      LineScanned(data, before, after);
    }
  }

  lemma TailScanned(data: seq<string>, before: string)
    requires Lines(before) == []
    ensures GoFrom([], "") == [] && forall more :: GoFrom(more, "") == []
    ensures GoFrom(data, before) == if before != "" && DropCr(before) == "" && data != [] then [Join(data)] else []
  {
    assert forall more :: Feed(GoTrim, Parser([], more), []) == Parser([], more);
    NothingLeft(data);
    assert Tail(before) == before;
    assert DropCr(before) == "" <==> before == "" || before == "\r";
  }

  lemma NothingLeft(data: seq<string>)
    ensures GoFrom(data, "") == [] && Lines("") == [] && Tail("") == ""
    ensures GoFrom([], "") == []
  {}

  lemma LineScanned(data: seq<string>, before: string, after: string)
    requires Lines(before) != [] && Lines(after) == Lines(before)[1..] && Tail(after) == Tail(before)
    ensures var line := DropCr(Lines(before)[0]);
      && (line == "" ==> GoFrom(data, before) == (if data == [] then [] else [Join(data)]) + GoFrom([], after))
      && (line != "" ==>
            GoFrom(data, before) == GoFrom(if IsData(line) then data + [GoTrim(line[5..])] else data, after))
  {
    LineFed(data, before, after);
    var p := OnLine(GoTrim, Parser([], data), Lines(before)[0]);
    var rest := GoFrom(p.data, after);
    if DropCr(Lines(before)[0]) != "" {
      assert p.events == [] && [] + rest == rest;
    }
  }

  lemma LineFed(data: seq<string>, before: string, after: string)
    requires Lines(before) != [] && Lines(after) == Lines(before)[1..] && Tail(after) == Tail(before)
    ensures var p := OnLine(GoTrim, Parser([], data), Lines(before)[0]);
      GoFrom(data, before) == p.events + GoFrom(p.data, after)
  {
    var p := OnLine(GoTrim, Parser([], data), Lines(before)[0]);
    FeedAppends(GoTrim, p.events, p.data, Lines(after));
    FlushAppends(p.events, Feed(GoTrim, Parser([], p.data), Lines(after)));
  }

  lemma FlushAppends(events: seq<string>, p: Parser)
    ensures Flush(Parser(events + p.events, p.data)).events == events + Flush(p).events
  {}

  lemma {:induction false} FeedAppends(trim: string -> string, events: seq<string>, data: seq<string>,
                                       lines: seq<string>)
    ensures var p := Feed(trim, Parser([], data), lines);
      Feed(trim, Parser(events, data), lines) == Parser(events + p.events, p.data)
    decreases |lines|
  {
    if lines == [] {
      assert events + [] == events;
    } else {
      var p := OnLine(trim, Parser([], data), lines[0]);
      var x := Feed(trim, Parser([], p.data), lines[1..]);
      assert OnLine(trim, Parser(events, data), lines[0]) == Parser(events + p.events, p.data);
      FeedAppends(trim, p.events, p.data, lines[1..]);
      FeedAppends(trim, events + p.events, p.data, lines[1..]);
      assert events + (p.events + x.events) == events + p.events + x.events;
    }
  }

  // --------------------------------------------------------------- when the two agree

  predicate LineAgrees(line: string) {
    var l := DropCr(line);
    IsData(l) ==> JsTrim(l[5..]) == GoTrim(l[5..])
  }

  /** The values agree exactly if nothing but at most one space precedes the text. */
  lemma {:induction false} TrimsAgree(value: string)
    ensures JsTrim(value) == GoTrim(value) <==> GoTrim(value) == "" || !IsJsSpace(GoTrim(value)[0])
  {
    JsTrimShort(value);
    JsTrimShort(GoTrim(value));
  }

  lemma {:induction false} JsTrimShort(s: string)
    ensures |JsTrim(s)| <= |s| && (JsTrim(s) != "" ==> !IsJsSpace(JsTrim(s)[0]))
    ensures s != "" && IsJsSpace(s[0]) ==> |JsTrim(s)| < |s|
  {
    if s != "" && IsJsSpace(s[0]) {
      JsTrimShort(s[1..]);
    }
  }

  /** A data line after the last blank line. */
  predicate Dangling(lines: seq<string>, pending: bool) {
    if lines == [] then pending
    else
      var l := DropCr(lines[0]);
      Dangling(lines[1..], if l == "" then false else pending || IsData(l))
  }

  lemma {:induction false} PendingIsDangling(trim: string -> string, p: Parser, lines: seq<string>)
    ensures Feed(trim, p, lines).data != [] <==> Dangling(lines, p.data != [])
    decreases |lines|
  {
    if lines != [] {
      PendingIsDangling(trim, OnLine(trim, p, lines[0]), lines[1..]);
    }
  }

  ghost predicate NoFeeds(lines: seq<string>) {
    forall i | 0 <= i < |lines| :: '\n' !in lines[i]
  }

  lemma {:induction false} JoinInjective(a: seq<string>, b: seq<string>)
    requires |a| == |b| && NoFeeds(a) && NoFeeds(b) && Join(a) == Join(b)
    ensures a == b
  {
    if |a| > 1 {
      var s := Join(a);
      assert s == a[0] + "\n" + Join(a[1..]) && s == b[0] + "\n" + Join(b[1..]);
      assert s[..|a[0]|] == a[0] && s[..|b[0]|] == b[0];
      IndexIs(s, '\n', |a[0]|);
      IndexIs(s, '\n', |b[0]|);
      assert a[0] == b[0];
      assert s[|a[0]| + 1..] == Join(a[1..]) == Join(b[1..]);
      assert NoFeeds(a[1..]) && NoFeeds(b[1..]);
      JoinInjective(a[1..], b[1..]);
      assert a == [a[0]] + a[1..] && b == [b[0]] + b[1..];
    }
  }

  /** Two parsers that have seen the same kinds of lines. */
  ghost predicate SameShape(p: Parser, q: Parser) {
    |p.events| == |q.events| && |p.data| == |q.data| && NoFeeds(p.data) && NoFeeds(q.data)
  }

  lemma JsTrimNoFeed(s: string)
    requires '\n' !in s
    ensures '\n' !in JsTrim(s)
  {
    if s != "" && IsJsSpace(s[0]) {
      JsTrimNoFeed(s[1..]);
    }
  }

  lemma StepSameShape(p: Parser, q: Parser, line: string)
    requires SameShape(p, q) && '\n' !in line
    ensures SameShape(OnLine(JsTrim, p, line), OnLine(GoTrim, q, line))
    ensures OnLine(JsTrim, p, line) == OnLine(GoTrim, q, line) <==> p == q && LineAgrees(line)
  {
    var l := DropCr(line);
    var p', q' := OnLine(JsTrim, p, line), OnLine(GoTrim, q, line);
    if l == "" {
      FlushSameShape(p, q);
    } else if IsData(l) {
      JsTrimNoFeed(l[5..]);
      assert p'.data[|p.data|] == JsTrim(l[5..]) && q'.data[|q.data|] == GoTrim(l[5..]);
      assert p'.data[..|p.data|] == p.data && q'.data[..|q.data|] == q.data;
    }
  }

  lemma FlushSameShape(p: Parser, q: Parser)
    requires SameShape(p, q)
    ensures SameShape(Flush(p), Flush(q))
    ensures Flush(p) == Flush(q) <==> p == q
    ensures Flush(p).events == Flush(q).events <==> Flush(p) == Flush(q)
  {
    if p.data != [] && Flush(p).events == Flush(q).events {
      var e, f := Flush(p).events, Flush(q).events;
      assert e[..|p.events|] == p.events && f[..|q.events|] == q.events;
      assert e[|p.events|] == Join(p.data) && f[|q.events|] == Join(q.data);
      JoinInjective(p.data, q.data);
    }
  }

  lemma {:induction false} FeedsAgree(p: Parser, q: Parser, lines: seq<string>)
    requires SameShape(p, q) && NoFeeds(lines)
    ensures var p', q' := Feed(JsTrim, p, lines), Feed(GoTrim, q, lines);
      SameShape(p', q') && (p' == q' <==> p == q && forall i | 0 <= i < |lines| :: LineAgrees(lines[i]))
    decreases |lines|
  {
    if lines != [] {
      var rest := lines[1..];
      StepSameShape(p, q, lines[0]);
      FeedsAgree(OnLine(JsTrim, p, lines[0]), OnLine(GoTrim, q, lines[0]), rest);
      assert (forall i | 0 <= i < |lines| :: LineAgrees(lines[i]))
        <==> LineAgrees(lines[0]) && forall i | 0 <= i < |rest| :: LineAgrees(rest[i]) by {
        if forall i | 0 <= i < |lines| :: LineAgrees(lines[i]) {
          forall i | 0 <= i < |rest| ensures LineAgrees(rest[i]) { assert rest[i] == lines[i + 1]; }
        }
        if LineAgrees(lines[0]) && forall i | 0 <= i < |rest| :: LineAgrees(rest[i]) {
          forall i | 0 <= i < |lines| ensures LineAgrees(lines[i]) { if i > 0 { assert lines[i] == rest[i - 1]; } }
        }
      }
    }
  }

  lemma {:induction false} LinesHaveNoFeeds(text: string)
    ensures NoFeeds(Lines(text))
  {
    var i := IndexOf(text, '\n');
    if i < |text| {
      LinesHaveNoFeeds(text[i + 1..]);
    }
  }

  /** The two parsers see the same events exactly if every data line has at most one leading space, and
      the stream either has no data line after its last blank line or ends in a lone carriage return. */
  lemma {:induction false} AgreeExactly(text: string)
    ensures JsEvents(text) == GoEvents(text) <==>
      && (forall i | 0 <= i < |Lines(text)| :: LineAgrees(Lines(text)[i]))
      && (!Dangling(Lines(text), false) || Tail(text) == "\r")
  {
    var lines := Lines(text);
    LinesHaveNoFeeds(text);
    FeedsAgree(START, START, lines);
    var p, q := Feed(JsTrim, START, lines), Feed(GoTrim, START, lines);
    PendingIsDangling(JsTrim, START, lines);
    PendingIsDangling(GoTrim, START, lines);
    FlushSameShape(p, q);
  }

  // --------------------------------------------------------------- which lines matter

  lemma {:induction false} LinesSplit(a: string, b: string)
    requires Tail(a) == ""
    ensures Lines(a + b) == Lines(a) + Lines(b) && Tail(a + b) == Tail(b)
    decreases |a|
  {
    if a == "" {
      assert a + b == b;
    } else {
      var i := IndexOf(a, '\n');
      CutAtFeed(a, i, "");
      assert a + "" == a && a[i + 1..] + "" == a[i + 1..];
      FirstLine(a[..i], a[i + 1..]);
      LinesSplit(a[i + 1..], b);
      CutAtFeed(a, i, b);
      FirstLine(a[..i], a[i + 1..] + b);
      ConsLines(a[..i], Lines(a[i + 1..]), Lines(b));
    }
  }

  lemma ConsLines(line: string, x: seq<string>, y: seq<string>)
    ensures [line] + (x + y) == [line] + x + y
  {}

  lemma CutAtFeed(a: string, i: nat, b: string)
    requires i < |a| && a[i] == '\n'
    ensures a + b == a[..i] + "\n" + (a[i + 1..] + b)
  {}

  lemma {:induction false} FeedSplit(trim: string -> string, p: Parser, x: seq<string>, y: seq<string>)
    ensures Feed(trim, p, x + y) == Feed(trim, Feed(trim, p, x), y)
    decreases |x|
  {
    if x == [] {
      assert x + y == y;
    } else {
      assert (x + y)[1..] == x[1..] + y;
      FeedSplit(trim, OnLine(trim, p, x[0]), x[1..], y);
    }
  }

  /** A line that is neither blank nor begins with "data:" changes nothing, wherever it stands: comments and other
      fields are ignored by both parsers. */
  lemma {:induction false} OtherLinesAreIgnored(a: string, line: string, b: string)
    requires Tail(a) == "" && '\n' !in line && line != "" && line != "\r"
    requires !("data:" <= line)
    ensures JsEvents(a + (line + "\n" + b)) == JsEvents(a + b)
    ensures GoEvents(a + (line + "\n" + b)) == GoEvents(a + b)
  {
    LineIsIgnored(JsTrim, a, line, b);
    LineIsIgnored(GoTrim, a, line, b);
  }

  lemma LineIsIgnored(trim: string -> string, a: string, line: string, b: string)
    requires Tail(a) == "" && '\n' !in line && line != "" && line != "\r" && !("data:" <= line)
    ensures Feed(trim, START, Lines(a + (line + "\n" + b))) == Feed(trim, START, Lines(a + b))
    ensures Tail(a + (line + "\n" + b)) == Tail(a + b)
  {
    LinesSplit(a, line + "\n" + b);
    LinesSplit(a, b);
    FirstLine(line, b);
    FeedSplit(trim, START, Lines(a), [line] + Lines(b));
    FeedSplit(trim, START, Lines(a), Lines(b));
    var p := Feed(trim, START, Lines(a));
    NotData(line);
    assert OnLine(trim, p, line) == p;
    assert ([line] + Lines(b))[1..] == Lines(b);
  }

  lemma NotData(line: string)
    requires line != "" && line != "\r" && !("data:" <= line)
    ensures DropCr(line) != "" && !IsData(DropCr(line))
  {
    var l := DropCr(line);
    if |l| >= 5 {
      assert line[..5] == l[..5];
    }
  }

  /** A line that begins with "data:", closed by a blank one, is one event: its value without the leading white
      space that the parser trims. */
  lemma {:induction false} DataLineIsEvent(value: string)
    requires '\n' !in value && (value != "" ==> value[|value| - 1] != '\r')
    ensures JsEvents("data:" + value + "\n" + "\n") == [JsTrim(value)]
    ensures GoEvents("data:" + value + "\n" + "\n") == [GoTrim(value)]
  {
    var line := "data:" + value;
    assert line[..5] == "data:" && line[5..] == value;
    assert DropCr(line) == line;
    FirstLine(line, "\n");
    BlankLine();
    OneEvent(JsTrim, line);
    OneEvent(GoTrim, line);
  }

  /** The data lines of one event are put together in their order, with line feeds between them. */
  lemma {:induction false} JoinGrows(lines: seq<string>, line: string)
    ensures Join(lines + [line]) == if lines == [] then line else Join(lines) + "\n" + line
  {
    if |lines| > 0 {
      JoinGrows(lines[1..], line);
      assert (lines + [line])[1..] == lines[1..] + [line];
      if |lines| > 1 {
        JoinAssoc(lines[0] + "\n", Join(lines[1..]), "\n" + line);
      } else {
        assert lines[1..] + [line] == [line];
      }
    }
  }

  lemma JoinAssoc(a: string, b: string, c: string)
    ensures a + (b + c) == a + b + c
  {}

  lemma BlankLine()
    ensures Lines("\n") == [""] && Tail("\n") == ""
  {
    NothingLeft([]);
    FirstLine("", "");
    assert "" + "\n" + "" == "\n";
  }

  lemma OneEvent(trim: string -> string, line: string)
    requires DropCr(line) == line && IsData(line)
    ensures Feed(trim, START, [line, ""]) == Parser([trim(line[5..])], [])
  {
    assert [line, ""][1..] == [""] && [""][1..] == [];
    var p := Parser([], [trim(line[5..])]);
    assert OnLine(trim, START, line) == p;
    assert DropCr("") == "" && OnLine(trim, p, "") == Flush(p) == Parser([trim(line[5..])], []);
  }

  // --------------------------------------------------------------- printing and parsing

  /** One event as the server writes it. */
  function Print(payload: seq<string>): string {
    if payload == [] then "\n" else "data: " + payload[0] + "\n" + Print(payload[1..])
  }

  function PrintAll(payloads: seq<seq<string>>): string {
    if payloads == [] then "" else Print(payloads[0]) + PrintAll(payloads[1..])
  }

  ghost predicate PrintableLine(trim: string -> string, text: string) {
    '\n' !in text && (text != "" ==> text[|text| - 1] != '\r') && trim(" " + text) == text
  }

  ghost predicate Printable(trim: string -> string, payload: seq<string>) {
    payload != [] && forall i | 0 <= i < |payload| :: PrintableLine(trim, payload[i])
  }

  lemma {:induction false} FeedOfPrint(trim: string -> string, p: Parser, payload: seq<string>, rest: string)
    requires forall i | 0 <= i < |payload| :: PrintableLine(trim, payload[i])
    ensures Feed(trim, p, Lines(Print(payload) + rest)) == Feed(trim, Flush(p.(data := p.data + payload)), Lines(rest))
    ensures Tail(Print(payload) + rest) == Tail(rest)
    decreases |payload|
  {
    if payload == [] {
      BlankAfter(trim, p, rest);
      assert p.data + payload == p.data;
    } else {
      var p' := p.(data := p.data + [payload[0]]);
      LineOfPrint(trim, p, payload[0], Print(payload[1..]) + rest);
      PrintCons(payload, rest);
      FeedOfPrint(trim, p', payload[1..], rest);
      AppendCons(p.data, payload);
    }
  }

  lemma BlankAfter(trim: string -> string, p: Parser, rest: string)
    ensures Feed(trim, p, Lines("\n" + rest)) == Feed(trim, Flush(p), Lines(rest)) && Tail("\n" + rest) == Tail(rest)
  {
    FirstLine("", rest);
    assert "" + "\n" + rest == "\n" + rest;
    assert ([""] + Lines(rest))[1..] == Lines(rest);
  }

  lemma PrintCons(payload: seq<string>, rest: string)
    requires payload != []
    ensures Print(payload) + rest == "data: " + payload[0] + "\n" + (Print(payload[1..]) + rest)
  {}

  lemma AppendCons(a: seq<string>, s: seq<string>)
    requires s != []
    ensures a + [s[0]] + s[1..] == a + s
  {}

  lemma LineOfPrint(trim: string -> string, p: Parser, text: string, later: string)
    requires PrintableLine(trim, text)
    ensures Feed(trim, p, Lines("data: " + text + "\n" + later))
        == Feed(trim, p.(data := p.data + [text]), Lines(later))
    ensures Tail("data: " + text + "\n" + later) == Tail(later)
  {
    var line := "data: " + text;
    FirstLine(line, later);
    assert DropCr(line) == line;
    assert line[..5] == "data:" && line[5..] == " " + text;
  }

  lemma {:induction false} FeedOfEvent(trim: string -> string, events: seq<string>, payload: seq<string>, rest: string)
    requires Printable(trim, payload)
    ensures Feed(trim, Parser(events, []), Lines(Print(payload) + rest))
        == Feed(trim, Parser(events + [Join(payload)], []), Lines(rest))
    ensures Tail(Print(payload) + rest) == Tail(rest)
  {
    FeedOfPrint(trim, Parser(events, []), payload, rest);
    assert [] + payload == payload;
  }

  function Joined(payloads: seq<seq<string>>): seq<string> {
    seq(|payloads|, i requires 0 <= i < |payloads| => Join(payloads[i]))
  }

  lemma JoinedCons(payloads: seq<seq<string>>)
    requires payloads != []
    ensures Joined(payloads) != [] && Joined(payloads)[0] == Join(payloads[0])
        && Joined(payloads)[1..] == Joined(payloads[1..])
  {}

  lemma {:induction false} FeedOfPrintAll(trim: string -> string, events: seq<string>, payloads: seq<seq<string>>)
    requires forall i | 0 <= i < |payloads| :: Printable(trim, payloads[i])
    ensures Feed(trim, Parser(events, []), Lines(PrintAll(payloads))) == Parser(events + Joined(payloads), [])
    ensures Tail(PrintAll(payloads)) == ""
    decreases |payloads|
  {
    if payloads != [] {
      var payload := payloads[0];
      FeedOfEvent(trim, events, payload, PrintAll(payloads[1..]));
      FeedOfPrintAll(trim, events + [Join(payload)], payloads[1..]);
      JoinedCons(payloads);
      AppendCons(events, Joined(payloads));
    }
  }

  /** Printing payloads as `data:` lines and parsing gives them back, in JavaScript ... */
  lemma {:induction false} RoundTripJs(payloads: seq<seq<string>>)
    requires forall i | 0 <= i < |payloads| :: Printable(JsTrim, payloads[i])
    ensures JsEvents(PrintAll(payloads)) == Joined(payloads)
  {
    FeedOfPrintAll(JsTrim, [], payloads);
    assert [] + Joined(payloads) == Joined(payloads);
  }

  /** ... and in Go, where the lines may also start with further spaces. */
  lemma {:induction false} RoundTripGo(payloads: seq<seq<string>>)
    requires forall i | 0 <= i < |payloads| :: Printable(GoTrim, payloads[i])
    ensures GoEvents(PrintAll(payloads)) == Joined(payloads)
  {
    FeedOfPrintAll(GoTrim, [], payloads);
    assert [] + Joined(payloads) == Joined(payloads);
  }

  /** Where the two part: an event without its blank line reaches only the JavaScript client ... */
  lemma UnfinishedEventDiffers()
    ensures JsEvents("data: a\n") == ["a"] && GoEvents("data: a\n") == []
  {
    var text := "data: " + "a" + "\n" + "";
    assert text == "data: a\n";
    assert " " + "a" == " a" && " a"[1..] == "a";
    assert JsTrim(" a") == JsTrim("a") == "a" && GoTrim(" a") == "a";
    LineOfPrint(JsTrim, START, "a", "");
    LineOfPrint(GoTrim, START, "a", "");
    assert [] + ["a"] == ["a"];
    NothingLeft(["a"]);
  }

  /** ... and a second space before a value reaches only the Go client. */
  lemma SecondSpaceDiffers()
    ensures JsEvents("data:  a\n\n") == ["a"] && GoEvents("data:  a\n\n") == [" a"]
  {
    DataLineIsEvent("  a");
    SpacedText();
    TwoSpaces();
  }

  lemma SpacedText()
    ensures "data:" + "  a" + "\n" + "\n" == "data:  a\n\n"
  {}

  lemma TwoSpaces()
    ensures JsTrim("  a") == "a" && GoTrim("  a") == " a"
  {
    assert "  a"[1..] == " a" && " a"[1..] == "a";
  }
}
