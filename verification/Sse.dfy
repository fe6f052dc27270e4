/** The server's event frames (api/sse.py) and the two incremental parsers that read them: the admin
    page's (admin/src/api/events.ts) and the Home Assistant client's
    (custom_components/nestquest/api_client.py). */
module Sse {
  import opened Options
  import opened Texts

  const TRANSITION_TYPES := [
    "nestquest_quest_completed",
    "nestquest_quest_uncompleted",
    "nestquest_quest_missed",
    "nestquest_child_day_complete"
  ]

  datatype Event<+P> = Event(kind: string, payload: P)

  predicate IsBreak(c: char) {
    c == '\r' || c == '\n'
  }

  /** No character of `s` ends a line. */
  predicate OneLine(s: string) {
    forall i :: 0 <= i < |s| ==> !IsBreak(s[i])
  }

  function Join(lines: seq<string>): string {
    if lines == [] then ""
    else if |lines| == 1 then lines[0]
    else lines[0] + "\n" + Join(lines[1..])
  }

  /** Where `c` first occurs in `s`, or |s|. */
  function IndexOf(s: string, c: char): (i: nat)
    ensures i <= |s| && c !in s[..i] && (i < |s| ==> s[i] == c)
  {
    if s == "" then 0
    else if s[0] == c then 0
    else
      var i := IndexOf(s[1..], c);
      assert s[..i + 1] == [s[0]] + s[1..][..i];
      i + 1
  }

  // ----- the admin page's parser

  /** What the lines of an unfinished frame have set. */
  datatype Frame = Frame(eventType: string, data: seq<string>)

  /** `pendingCr`: the last chunk ended on a carriage return. */
  datatype Parser = Parser(buffer: string, frame: Frame, pendingCr: bool)

  const INITIAL := Parser("", Frame("", []), false)

  /** A state and the events emitted on the way to it. */
  datatype Step<+S, +P> = Step(state: S, events: seq<Event<P>>)

  function Field(line: string): string {
    line[..IndexOf(line, ':')]
  }

  function FieldValue(line: string): string {
    var colon := IndexOf(line, ':');
    var value := if colon == |line| then "" else line[colon + 1..];
    if value != "" && value[0] == ' ' then value[1..] else value
  }

  /** One complete line. `load` is JSON.parse, `None` when it throws or yields no object. */
  function AfterLine<P>(f: Frame, line: string, load: string -> Option<P>): Step<Frame, P> {
    if line == "" then
      Step(Frame("", []),
           if f.eventType in TRANSITION_TYPES && load(Join(f.data)).Some?
           then [Event(f.eventType, load(Join(f.data)).value)] else [])
    else if line[0] == ':' then Step(f, [])
    else if Field(line) == "event" then Step(f.(eventType := FieldValue(line)), [])
    else if Field(line) == "data" then Step(f.(data := f.data + [FieldValue(line)]), [])
    else Step(f, [])
  }

  function AfterLines<P>(f: Frame, lines: seq<string>, load: string -> Option<P>): Step<Frame, P>
    decreases |lines|
  {
    if lines == [] then Step(f, [])
    else
      var first := AfterLine(f, lines[0], load);
      var rest := AfterLines(first.state, lines[1..], load);
      Step(rest.state, first.events + rest.events)
  }

  /** Where the first line of `s` ends, or |s|. */
  function LineEnd(s: string): (i: nat)
    ensures i <= |s| && OneLine(s[..i]) && (i < |s| ==> IsBreak(s[i]))
  {
    if s == "" || IsBreak(s[0]) then 0 else LineEnd(s[1..]) + 1
  }

  /** `s.split(/\r\n|\r|\n/)`: a CRLF is one break. */
  function Split(s: string): (parts: seq<string>)
    ensures |parts| > 0
    decreases |s|
  {
    var i := LineEnd(s);
    if i == |s| then [s]
    else
      var skip := if s[i] == '\r' && i + 1 < |s| && s[i + 1] == '\n' then 2 else 1;
      [s[..i]] + Split(s[i + skip..])
  }

  predicate EndsOnCr(text: string) {
    text != "" && text[|text| - 1] == '\r'
  }

  function WithoutPendingLf(p: Parser, text: string): string {
    if p.pendingCr && text != "" && text[0] == '\n' then text[1..] else text
  }

  function AfterPush<P>(p: Parser, text: string, load: string -> Option<P>): Step<Parser, P> {
    var rest := WithoutPendingLf(p, text);
    var parts := Split(p.buffer + rest);
    var last := |parts| - 1;
    var s := AfterLines(p.frame, parts[..last], load);
    Step(Parser(parts[last], s.state, EndsOnCr(rest)), s.events)
  }

  lemma NoLinesLeft<P>(f: Frame, lines: seq<string>, load: string -> Option<P>)
    requires lines == []
    ensures AfterLines(f, lines, load) == Step(f, [])
  {}

  lemma AfterLinesFrom<P>(f: Frame, lines: seq<string>, i: nat, load: string -> Option<P>)
    requires i < |lines|
    ensures var first := AfterLine(f, lines[i], load);
            var rest := AfterLines(first.state, lines[i + 1..], load);
            AfterLines(f, lines[i..], load) == Step(rest.state, first.events + rest.events)
  {
    assert lines[i..][1..] == lines[i + 1..];
  }

  class SseParser<P> {
    var buffer: string
    var eventType: string
    var data: seq<string>
    var pendingCr: bool

    function View(): Parser
      reads this
    {
      Parser(buffer, Frame(eventType, data), pendingCr)
    }

    constructor ()
      ensures View() == INITIAL
    {
      buffer, eventType, data, pendingCr := "", "", [], false;
    }

    method Push(text: string, load: string -> Option<P>) returns (events: seq<Event<P>>)
      modifies this
      ensures Step(View(), events) == old(AfterPush(View(), text, load))
    {
      hide AfterLines, Split;
      var rest := text;
      if pendingCr && text != "" && text[0] == '\n' { rest := text[1..]; }
      pendingCr := rest != "" && rest[|rest| - 1] == '\r';
      buffer := buffer + rest;
      var lines := Split(buffer);
      buffer := lines[|lines| - 1];
      events := TakeLines(lines[..|lines| - 1], load);
    }

    /** The loop of `push` over the complete lines. */
    method TakeLines(lines: seq<string>, load: string -> Option<P>) returns (events: seq<Event<P>>)
      modifies this`eventType, this`data
      ensures Step(Frame(eventType, data), events) == AfterLines(old(Frame(eventType, data)), lines, load)
    {
      hide *;
      events := [];
      ghost var goal := AfterLines(Frame(eventType, data), lines, load);
      assert lines[0..] == lines;
      for i := 0 to |lines|
        invariant goal.state == AfterLines(Frame(eventType, data), lines[i..], load).state
        invariant goal.events == events + AfterLines(Frame(eventType, data), lines[i..], load).events
      {
        AfterLinesFrom(Frame(eventType, data), lines, i, load);
        var event := Line(lines[i], load);
        if event.Some? { events := events + [event.value]; }
      }
      NoLinesLeft(Frame(eventType, data), lines[|lines|..], load);
    }

    method Line(line: string, load: string -> Option<P>) returns (event: Option<Event<P>>)
      modifies this`eventType, this`data
      ensures Step(Frame(eventType, data), if event.Some? then [event.value] else []) ==
                AfterLine(old(Frame(eventType, data)), line, load)
    {
      if line == "" {
        event := Dispatch(load);
        return;
      }
      if line[0] == ':' { return None; }
      var colon := IndexOf(line, ':');
      var field := line[..colon];
      var value := if colon == |line| then "" else line[colon + 1..];
      if value != "" && value[0] == ' ' { value := value[1..]; }
      if field == "event" {
        eventType := value;
      } else if field == "data" {
        data := data + [value];
      }
      return None;
    }

    method Dispatch(load: string -> Option<P>) returns (event: Option<Event<P>>)
      modifies this`eventType, this`data
      ensures Step(Frame(eventType, data), if event.Some? then [event.value] else []) ==
                AfterLine(old(Frame(eventType, data)), "", load)
    {
      var kind, text := eventType, Join(data);
      eventType, data := "", [];
      if kind !in TRANSITION_TYPES { return None; }
      var payload := load(text);
      if payload.None? { return None; }
      return Some(Event(kind, payload.value));
    }
  }

  // ----- what a line does

  function Unspaced(value: string): string {
    if " " <= value then value[1..] else value
  }

  /** The event field is set, with or without a colon and with one space after it or none; a comment changes nothing. */
  lemma EventFieldSets<P>(f: Frame, value: string, load: string -> Option<P>)
    ensures AfterLine(f, "event:" + value, load) == Step(f.(eventType := Unspaced(value)), [])
    ensures AfterLine(f, "event", load) == Step(f.(eventType := ""), [])
    ensures AfterLine(f, ":" + value, load) == Step(f, [])
  {
    FieldAt("event", value);
    assert "event" + ":" + value == "event:" + value;
  }

  /** Each data field adds a line. */
  lemma DataFieldAdds<P>(f: Frame, value: string, load: string -> Option<P>)
    ensures AfterLine(f, "data:" + value, load) == Step(f.(data := f.data + [Unspaced(value)]), [])
    ensures AfterLine(f, "data", load) == Step(f.(data := f.data + [""]), [])
  {
    FieldAt("data", value);
    assert "data" + ":" + value == "data:" + value;
    assert ("data:" + value)[0] == 'd' && "data"[0] == 'd';
    hide Unspaced, FieldValue, Field;
  }

  lemma OtherFieldsAreIgnored<P>(f: Frame, name: string, value: string, load: string -> Option<P>)
    requires ':' !in name && name !in {"", "event", "data"}
    ensures AfterLine(f, name + ":" + value, load) == AfterLine(f, name, load) == Step(f, [])
  {
    FieldAt(name, value);
    assert (name + ":" + value)[0] == name[0];
    hide Unspaced, FieldValue, Field;
  }

  lemma FieldAt(name: string, value: string)
    requires ':' !in name
    ensures Field(name + ":" + value) == Field(name) == name
    ensures FieldValue(name + ":" + value) == Unspaced(value) && FieldValue(name) == ""
  {
    var s := name + ":" + value;
    FirstAt(s, ':', |name|);
    assert s[..|name|] == name && s[|name| + 1..] == value;
    NotThere(name, ':');
    assert name[..|name|] == name;
    hide IndexOf;
  }

  lemma {:induction false} FirstAt(s: string, c: char, i: nat)
    requires i < |s| && s[i] == c && forall k :: 0 <= k < i ==> s[k] != c
    ensures IndexOf(s, c) == i
  {
    if i > 0 { FirstAt(s[1..], c, i - 1); }
  }

  lemma NotThere(s: string, c: char)
    requires c !in s
    ensures IndexOf(s, c) == |s|
  {}

  /** A blank line emits an event exactly if it is one of the four and its data parses, and ends the frame anyway. */
  lemma BlankLineIs<P>(f: Frame, load: string -> Option<P>)
    ensures var step := AfterLine(f, "", load);
            && step.state == Frame("", [])
            && (step.events == [] <==>
                  f.eventType !in {"nestquest_quest_completed", "nestquest_quest_uncompleted", "nestquest_quest_missed",
                                   "nestquest_child_day_complete"} || load(Join(f.data)).None?)
            && (step.events != [] ==> Some(step.events[0].payload) == load(Join(f.data)))
            && (step.events != [] ==> step.events == [Event(f.eventType, step.events[0].payload)])
  {}

  /** The data lines are joined by line feeds. */
  lemma {:induction false} JoinSplits(lines: seq<string>)
    requires lines != [] && forall i :: 0 <= i < |lines| ==> '\n' !in lines[i]
    ensures |lines| == 1 ==> Join(lines) == lines[0]
    ensures |lines| > 1 ==>
              IndexOf(Join(lines), '\n') == |lines[0]| && Join(lines)[..|lines[0]|] == lines[0]
              && Join(lines)[|lines[0]| + 1..] == Join(lines[1..])
  {
    if |lines| > 1 {
      var s := lines[0] + "\n" + Join(lines[1..]);
      FirstAt(s, '\n', |lines[0]|);
    }
  }

  // ----- one character at a time

  /** The same parser fed one character: a line feed right after a carriage return is part of it. */
  function Feed<P>(p: Parser, c: char, load: string -> Option<P>): Step<Parser, P> {
    if c == '\n' && p.pendingCr then Step(p.(pendingCr := false), [])
    else if IsBreak(c) then
      var s := AfterLine(p.frame, p.buffer, load);
      Step(Parser("", s.state, c == '\r'), s.events)
    else Step(Parser(p.buffer + [c], p.frame, false), [])
  }

  function FeedAll<P>(p: Parser, text: string, load: string -> Option<P>): Step<Parser, P>
    decreases |text|
  {
    if text == "" then Step(p, [])
    else
      var first := Feed(p, text[0], load);
      var rest := FeedAll(first.state, text[1..], load);
      Step(rest.state, first.events + rest.events)
  }

  lemma {:induction false} FeedConcat<P>(p: Parser, a: string, b: string, load: string -> Option<P>)
    ensures FeedAll(p, a + b, load) ==
            var first := FeedAll(p, a, load);
            var rest := FeedAll(first.state, b, load);
            Step(rest.state, first.events + rest.events)
    decreases |a|
  {
    hide Feed;
    if a == "" {
      assert a + b == b;
    } else {
      assert (a + b)[1..] == a[1..] + b;
      FeedConcat(Feed(p, a[0], load).state, a[1..], b, load);
    }
  }

  lemma {:induction false} LineEndIs(line: string, rest: string)
    requires OneLine(line) && (rest == "" || IsBreak(rest[0]))
    ensures LineEnd(line + rest) == |line|
  {
    if line != "" {
      assert (line + rest)[1..] == line[1..] + rest;
      LineEndIs(line[1..], rest);
    } else {
      assert line + rest == rest;
    }
  }

  lemma SplitLast(line: string)
    requires OneLine(line)
    ensures Split(line) == [line]
  {
    LineEndIs(line, "");
    assert line + "" == line;
  }

  lemma SplitAtBreak(line: string, text: string) returns (rest: string)
    requires OneLine(line) && text != "" && IsBreak(text[0])
    ensures rest == text[if text[0] == '\r' && |text| > 1 && text[1] == '\n' then 2 else 1..]
    ensures Split(line + text) == [line] + Split(rest)
  {
    LineEndIs(line, text);
    var k := if text[0] == '\r' && |text| > 1 && text[1] == '\n' then 2 else 1;
    rest := text[k..];
    assert (line + text)[|line| + k..] == rest;
  }

  /** What pushing `text` onto a parser that waits for no line feed comes to. */
  function Pushed<P>(p: Parser, text: string, load: string -> Option<P>): Step<Parser, P> {
    var parts := Split(p.buffer + text);
    var s := AfterLines(p.frame, parts[..|parts| - 1], load);
    Step(Parser(parts[|parts| - 1], s.state, if text == "" then p.pendingCr else EndsOnCr(text)), s.events)
  }

  lemma PushedLine<P>(p: Parser, text: string, load: string -> Option<P>) returns (rest: string)
    requires OneLine(p.buffer) && text != "" && IsBreak(text[0])
    ensures rest == text[if text[0] == '\r' && |text| > 1 && text[1] == '\n' then 2 else 1..]
    ensures var s := AfterLine(p.frame, p.buffer, load);
            var q := Pushed(Parser("", s.state, EndsOnCr(text[..|text| - |rest|])), rest, load);
            Pushed(p, text, load) == Step(q.state, s.events + q.events)
  {
    hide AfterLine, Split;
    rest := SplitAtBreak(p.buffer, text);
    assert "" + rest == rest;
    var parts := Split(rest);
    assert ([p.buffer] + parts)[..|parts|][1..] == parts[..|parts| - 1];
  }

  /** Splitting the whole text at its line breaks is feeding its characters one by one. */
  lemma {:induction false} SplitIsFeeding<P>(p: Parser, text: string, load: string -> Option<P>)
    requires OneLine(p.buffer)
    requires p.pendingCr && text != "" ==> text[0] != '\n'
    ensures FeedAll(p, text, load) == Pushed(p, text, load)
    ensures OneLine(FeedAll(p, text, load).state.buffer)
    decreases |text|
  {
    hide AfterLine, Split;
    if text == "" {
      SplitLast(p.buffer);
      assert p.buffer + text == p.buffer;
    } else if !IsBreak(text[0]) {
      assert p.buffer + text == (p.buffer + [text[0]]) + text[1..];
      SplitIsFeeding(Feed(p, text[0], load).state, text[1..], load);
    } else {
      hide Pushed;
      var rest := PushedLine(p, text, load);
      var next := FedLine(p, text, rest, load);
      SplitIsFeeding(next, rest, load);
    }
  }

  /** The parser after a line and its break, of one character or two. */
  lemma FedLine<P>(p: Parser, text: string, rest: string, load: string -> Option<P>) returns (next: Parser)
    requires text != "" && IsBreak(text[0]) && !(p.pendingCr && text[0] == '\n')
    requires rest == text[if text[0] == '\r' && |text| > 1 && text[1] == '\n' then 2 else 1..]
    ensures var s := AfterLine(p.frame, p.buffer, load);
            && next == Parser("", s.state, EndsOnCr(text[..|text| - |rest|]))
            && FeedAll(p, text, load) ==
               Step(FeedAll(next, rest, load).state, s.events + FeedAll(next, rest, load).events)
            && (next.pendingCr && rest != "" ==> rest[0] != '\n')
  {
    hide AfterLine;
    var first := Feed(p, text[0], load);
    next := first.state;
    if |text| - |rest| == 2 {
      next := Feed(next, text[1], load).state;
      assert text[1..][1..] == rest;
    }
  }

  lemma {:induction false} PushIsFeeding<P>(p: Parser, text: string, load: string -> Option<P>)
    requires OneLine(p.buffer) && text != ""
    ensures AfterPush(p, text, load) == FeedAll(p, text, load)
    ensures OneLine(AfterPush(p, text, load).state.buffer)
  {
    hide AfterLines, AfterLine, Split;
    if p.pendingCr && text[0] == '\n' {
      SplitIsFeeding(p.(pendingCr := false), text[1..], load);
    } else {
      SplitIsFeeding(p, text, load);
    }
  }

  /** Feeding a text in two non-empty pieces, cut anywhere, is feeding it whole. */
  lemma PushConcat<P>(p: Parser, a: string, b: string, load: string -> Option<P>)
    requires OneLine(p.buffer) && a != "" && b != ""
    ensures var first := AfterPush(p, a, load);
            var rest := AfterPush(first.state, b, load);
            AfterPush(p, a + b, load) == Step(rest.state, first.events + rest.events)
  {
    hide AfterPush, FeedAll;
    PushIsFeeding(p, a, load);
    PushIsFeeding(AfterPush(p, a, load).state, b, load);
    PushIsFeeding(p, a + b, load);
    FeedConcat(p, a, b, load);
  }

  /** An empty piece makes the parser forget a pending carriage return, and so is harmless exactly
      when there is none. */
  lemma EmptyChunkIsNeutralIff<P>(p: Parser, load: string -> Option<P>)
    requires OneLine(p.buffer)
    ensures AfterPush(p, "", load) == Step(p, []) <==> !p.pendingCr
  {
    SplitLast(p.buffer);
    assert p.buffer + "" == p.buffer;
  }

  function Concat(chunks: seq<string>): string {
    if chunks == [] then "" else chunks[0] + Concat(chunks[1..])
  }

  function PushAll<P>(p: Parser, chunks: seq<string>, load: string -> Option<P>): Step<Parser, P>
    decreases |chunks|
  {
    if chunks == [] then Step(p, [])
    else
      var first := AfterPush(p, chunks[0], load);
      var rest := PushAll(first.state, chunks[1..], load);
      Step(rest.state, first.events + rest.events)
  }

  /** The events and the final state depend on the text alone, not on how it is cut. */
  lemma {:induction false} ChunkingDoesNotMatter<P>(p: Parser, chunks: seq<string>, load: string -> Option<P>)
    requires OneLine(p.buffer) && "" !in chunks
    ensures PushAll(p, chunks, load) == FeedAll(p, Concat(chunks), load)
    decreases |chunks|
  {
    hide AfterPush, Feed;
    if chunks != [] {
      PushIsFeeding(p, chunks[0], load);
      ChunkingDoesNotMatter(AfterPush(p, chunks[0], load).state, chunks[1..], load);
      FeedConcat(p, chunks[0], Concat(chunks[1..]), load);
    }
  }

  // ----- the server's frames

  /** The JSON text of a payload: one ASCII line that starts and ends with a brace. */
  predicate WireSafe(text: string) {
    && |text| >= 2 && text[0] == '{' && text[|text| - 1] == '}'
    && forall i :: 0 <= i < |text| ==> ' ' <= text[i] <= '~'
  }

  /** `load` reads what `dump` writes. */
  ghost predicate Faithful<P>(events: seq<Event<P>>, dump: P -> string, load: string -> Option<P>) {
    forall e :: e in events ==>
      e.kind in TRANSITION_TYPES && WireSafe(dump(e.payload)) && load(dump(e.payload)) == Some(e.payload)
  }

  function FrameText<P>(e: Event<P>, dump: P -> string): string {
    "event: " + e.kind + "\n" + "data: " + dump(e.payload) + "\n\n"
  }

  function Print<P>(events: seq<Event<P>>, dump: P -> string): string {
    if events == [] then "" else FrameText(events[0], dump) + Print(events[1..], dump)
  }

  /** How many of the frames of `events` end within the first `n` characters. */
  function Completed<P>(events: seq<Event<P>>, dump: P -> string, n: nat): (k: nat)
    ensures k <= |events|
  {
    if events == [] || n < |FrameText(events[0], dump)| then 0
    else 1 + Completed(events[1..], dump, n - |FrameText(events[0], dump)|)
  }

  lemma {:induction false} FeedText<P>(p: Parser, text: string, load: string -> Option<P>)
    requires OneLine(text)
    ensures FeedAll(p, text, load) == Step(Parser(p.buffer + text, p.frame, p.pendingCr && text == ""), [])
    decreases |text|
  {
    if text == "" {
      assert p.buffer + text == p.buffer;
    } else {
      FeedText(Feed(p, text[0], load).state, text[1..], load);
      assert p.buffer + text == (p.buffer + [text[0]]) + text[1..];
    }
  }

  /** A line and its line feed, fed to a parser that waits for nothing. */
  lemma FeedLine<P>(f: Frame, line: string, load: string -> Option<P>)
    requires OneLine(line)
    ensures FeedAll(Parser("", f, false), line + "\n", load) ==
            var s := AfterLine(f, line, load); Step(Parser("", s.state, false), s.events)
  {
    hide AfterLine;
    FeedText(Parser("", f, false), line, load);
    FeedConcat(Parser("", f, false), line, "\n", load);
    assert "" + line == line;
    var p := FeedAll(Parser("", f, false), line, load).state;
    assert FeedAll(p, "\n", load) == Step(Feed(p, '\n', load).state, Feed(p, '\n', load).events + []);
  }

  lemma {:induction false} IndexIs(name: string, rest: string, c: char)
    requires c !in name && rest != "" && rest[0] == c
    ensures IndexOf(name + rest, c) == |name|
  {
    if name == "" {
      assert name + rest == rest;
    } else {
      assert (name + rest)[1..] == name[1..] + rest;
      IndexIs(name[1..], rest, c);
    }
  }

  lemma FieldOf(name: string, value: string)
    requires ':' !in name
    ensures Field(name + ": " + value) == name && FieldValue(name + ": " + value) == value
  {
    assert name + ": " + value == name + (": " + value);
    IndexIs(name, ": " + value, ':');
  }

  lemma KindIsClean(kind: string)
    requires kind in TRANSITION_TYPES
    ensures OneLine(kind) && kind != "" && !IsSpace(kind[0]) && !IsSpace(kind[|kind| - 1])
  {}

  /** The first two lines of a frame, without the blank line that ends it. */
  function FrameBody<P>(e: Event<P>, dump: P -> string): string {
    ("event: " + e.kind + "\n") + ("data: " + dump(e.payload) + "\n")
  }

  lemma AfterEventLine<P>(f: Frame, kind: string, load: string -> Option<P>)
    ensures AfterLine(f, "event: " + kind, load) == Step(f.(eventType := kind), [])
  {
    FieldOf("event", kind);
    assert "event" + ": " + kind == "event: " + kind;
  }

  lemma AfterDataLine<P>(f: Frame, text: string, load: string -> Option<P>)
    ensures AfterLine(f, "data: " + text, load) == Step(f.(data := f.data + [text]), [])
  {
    FieldOf("data", text);
    assert "data" + ": " + text == "data: " + text;
  }

  lemma FeedBody<P>(e: Event<P>, dump: P -> string, load: string -> Option<P>)
    requires OneLine(e.kind) && OneLine(dump(e.payload))
    ensures FeedAll(INITIAL, FrameBody(e, dump), load) ==
            Step(Parser("", Frame(e.kind, [dump(e.payload)]), false), [])
  {
    hide AfterLine, FeedAll, Feed;
    var kind, text := e.kind, dump(e.payload);
    AfterEventLine(Frame("", []), kind, load);
    AfterDataLine(Frame(kind, []), text, load);
    FeedLine(Frame("", []), "event: " + kind, load);
    FeedLine(Frame(kind, []), "data: " + text, load);
    FeedConcat(INITIAL, "event: " + kind + "\n", "data: " + text + "\n", load);
    assert [] + [text] == [text];
  }

  lemma FeedFrame<P>(e: Event<P>, dump: P -> string, load: string -> Option<P>)
    requires Faithful([e], dump, load)
    ensures FeedAll(INITIAL, FrameText(e, dump), load) == Step(INITIAL, [e])
    ensures FeedAll(INITIAL, FrameBody(e, dump), load).events == []
  {
    hide FeedAll, Feed;
    assert e in [e];
    KindIsClean(e.kind);
    FeedBody(e, dump, load);
    FeedLine(Frame(e.kind, [dump(e.payload)]), "", load);
    FeedConcat(INITIAL, FrameBody(e, dump), "\n", load);
    assert FrameText(e, dump) == FrameBody(e, dump) + "\n";
    assert "" + "\n" == "\n";
    JoinOne(dump(e.payload));
  }

  lemma JoinOne(text: string)
    ensures Join([text]) == text
  {}

  lemma CutFrameIsSilent<P>(e: Event<P>, dump: P -> string, load: string -> Option<P>, n: nat)
    requires Faithful([e], dump, load) && n < |FrameText(e, dump)|
    ensures FeedAll(INITIAL, FrameText(e, dump)[..n], load).events == []
  {
    hide FeedAll, Feed;
    var body := FrameBody(e, dump);
    FeedFrame(e, dump, load);
    assert FrameText(e, dump) == body + "\n";
    FeedConcat(INITIAL, body[..n], body[n..], load);
    assert body[..n] + body[n..] == body;
    assert FrameText(e, dump)[..n] == body[..n];
  }

  /** The admin page recovers exactly the events of the frames that arrive whole, in order, from a
      stream cut after any `n` characters; from the whole stream it recovers all of them. */
  lemma {:induction false} PageRecoversEvents<P>(events: seq<Event<P>>, dump: P -> string, load: string -> Option<P>,
      n: nat)
    requires Faithful(events, dump, load) && n <= |Print(events, dump)|
    ensures FeedAll(INITIAL, Print(events, dump)[..n], load).events == events[..Completed(events, dump, n)]
    ensures FeedAll(INITIAL, Print(events, dump), load) == Step(INITIAL, events)
    decreases |events|
  {
    hide Feed, FeedAll, FrameText, Faithful;
    if events == [] {
      FeedNothing(load);
    } else {
      var e, rest := events[0], Print(events[1..], dump);
      var size := |FrameText(e, dump)|;
      FaithfulParts(events, dump, load);
      PageRecoversEvents(events[1..], dump, load, if n < size then 0 else n - size);
      FeedOneMore(e, dump, load, rest);
      FeedCut(e, dump, load, rest, n);
      FirstCompleted(events, dump, n);
      assert events == [e] + events[1..];
      hide Completed;
    }
  }

  lemma FeedNothing<P>(load: string -> Option<P>)
    ensures FeedAll(INITIAL, "", load) == Step(INITIAL, [])
  {}

  lemma FirstCompleted<P>(events: seq<Event<P>>, dump: P -> string, n: nat)
    requires events != []
    ensures var size := |FrameText(events[0], dump)|;
            events[..Completed(events, dump, n)] ==
            if n < size then [] else [events[0]] + events[1..][..Completed(events[1..], dump, n - size)]
  {
    hide FrameText;
  }

  lemma FeedCut<P>(e: Event<P>, dump: P -> string, load: string -> Option<P>, rest: string, n: nat)
    requires Faithful([e], dump, load) && n <= |FrameText(e, dump) + rest|
    ensures var text := FrameText(e, dump);
            FeedAll(INITIAL, (text + rest)[..n], load).events ==
            if n < |text| then [] else [e] + FeedAll(INITIAL, rest[..n - |text|], load).events
  {
    hide FeedAll, FrameText, Faithful;
    var text := FrameText(e, dump);
    if n < |text| {
      CutFrameIsSilent(e, dump, load, n);
      assert (text + rest)[..n] == text[..n];
    } else {
      FeedOneMore(e, dump, load, rest[..n - |text|]);
      assert (text + rest)[..n] == text + rest[..n - |text|];
    }
  }

  lemma FeedOneMore<P>(e: Event<P>, dump: P -> string, load: string -> Option<P>, rest: string)
    requires Faithful([e], dump, load)
    ensures var after := FeedAll(INITIAL, rest, load);
            FeedAll(INITIAL, FrameText(e, dump) + rest, load) == Step(after.state, [e] + after.events)
  {
    hide FeedAll, FrameText, Faithful;
    FeedFrame(e, dump, load);
    FeedConcat(INITIAL, FrameText(e, dump), rest, load);
  }

  lemma FaithfulParts<P>(events: seq<Event<P>>, dump: P -> string, load: string -> Option<P>)
    requires Faithful(events, dump, load) && events != []
    ensures Faithful([events[0]], dump, load) && Faithful(events[1..], dump, load)
  {}

  /** Completed counts every frame that fits and no more. */
  lemma {:induction false} CompletedFits<P>(events: seq<Event<P>>, dump: P -> string, n: nat)
    ensures var k := Completed(events, dump, n);
            && |Print(events[..k], dump)| <= n
            && (k < |events| ==> n < |Print(events[..k + 1], dump)|)
    decreases |events|
  {
    hide FrameText;
    if events != [] {
      var size := |FrameText(events[0], dump)|;
      if n < size {
        assert events[..1][1..] == [];
      } else {
        CompletedFits(events[1..], dump, n - size);
        var k := Completed(events[1..], dump, n - size);
        assert events[..k + 1][1..] == events[1..][..k];
        if k + 1 < |events| { assert events[..k + 2][1..] == events[1..][..k + 1]; }
      }
    }
  }

  /** The same for the server's bytes cut into any non-empty chunks. */
  lemma PageRecoversFromChunks<P>(
    events: seq<Event<P>>, chunks: seq<string>, dump: P -> string, load: string -> Option<P>, n: nat)
    requires Faithful(events, dump, load) && n <= |Print(events, dump)|
    requires "" !in chunks && Concat(chunks) == Print(events, dump)[..n]
    ensures PushAll(INITIAL, chunks, load).events == events[..Completed(events, dump, n)]
  {
    hide AfterPush, FeedAll, Faithful, Print;
    PageRecoversEvents(events, dump, load, n);
    ChunkingDoesNotMatter(INITIAL, chunks, load);
  }

  // ----- the Home Assistant client's parser

  datatype ClientFrame = ClientFrame(eventType: Option<string>, data: seq<string>)

  datatype Client = Client(buffer: string, frame: ClientFrame)

  const CLIENT_INITIAL := Client("", ClientFrame(None, []))

  /** `failed`: the generator raised, and yields nothing more. */
  datatype Yield<+S, +P> = Yield(state: S, events: seq<Event<P>>, failed: bool)

  /** One line. `load` is json.loads, `None` when it raises. */
  function ClientLine<P>(f: ClientFrame, line: string, load: string -> Option<P>): Yield<ClientFrame, P> {
    if "event:" <= line then Yield(f.(eventType := Some(Strip(line[6..]))), [], false)
    else if "data:" <= line then Yield(f.(data := f.data + [Strip(line[5..])]), [], false)
    else if line == "" && f.eventType.Some? then
      match load(Join(f.data))
      case Some(payload) => Yield(ClientFrame(None, []), [Event(f.eventType.value, payload)], false)
      case None => Yield(f, [], true)
    else Yield(f, [], false)
  }

  /** The client's fields are taken with their colon and stripped; a blank line yields the event of a frame that has a
      type, or raises if its data does not parse; any other line changes nothing. */
  lemma ClientLineIs<P>(f: ClientFrame, line: string, load: string -> Option<P>)
    ensures ClientLine(f, "event:" + line, load) == Yield(f.(eventType := Some(Strip(line))), [], false)
    ensures ClientLine(f, "data:" + line, load) == Yield(f.(data := f.data + [Strip(line)]), [], false)
    ensures var y := ClientLine(f, "", load);
            if f.eventType.None? then y == Yield(f, [], false)
            else if load(Join(f.data)).None? then y.failed && y.events == []
            else y == Yield(ClientFrame(None, []), [Event(f.eventType.value, load(Join(f.data)).value)], false)
    ensures line != "" && !("event:" <= line) && !("data:" <= line) ==> ClientLine(f, line, load) == Yield(f, [], false)
  {
    assert ("event:" + line)[6..] == line && ("data:" + line)[5..] == line;
    assert ("data:" + line)[0] == 'd';
  }

  function ClientFeed<P>(c: Client, x: char, load: string -> Option<P>): Yield<Client, P> {
    if x == '\n' then
      var y := ClientLine(c.frame, c.buffer, load);
      Yield(Client("", y.state), y.events, y.failed)
    else Yield(Client(c.buffer + [x], c.frame), [], false)
  }

  function ClientFeedAll<P>(c: Client, text: string, load: string -> Option<P>): Yield<Client, P>
    decreases |text|
  {
    if text == "" then Yield(c, [], false)
    else
      var first := ClientFeed(c, text[0], load);
      if first.failed then first
      else
        var rest := ClientFeedAll(first.state, text[1..], load);
        Yield(rest.state, first.events + rest.events, rest.failed)
  }

  lemma {:induction false} ClientConcat<P>(c: Client, a: string, b: string, load: string -> Option<P>)
    ensures ClientFeedAll(c, a + b, load) ==
            var first := ClientFeedAll(c, a, load);
            if first.failed then first
            else
              var rest := ClientFeedAll(first.state, b, load);
              Yield(rest.state, first.events + rest.events, rest.failed)
    decreases |a|
  {
    hide ClientFeed;
    if a == "" {
      assert a + b == b;
    } else {
      assert (a + b)[1..] == a[1..] + b;
      if !ClientFeed(c, a[0], load).failed {
        ClientConcat(ClientFeed(c, a[0], load).state, a[1..], b, load);
      }
    }
  }

  predicate NoLf(text: string) {
    '\n' !in text
  }

  lemma {:induction false} ClientText<P>(c: Client, text: string, load: string -> Option<P>)
    requires NoLf(text)
    ensures ClientFeedAll(c, text, load) == Yield(Client(c.buffer + text, c.frame), [], false)
    decreases |text|
  {
    if text == "" {
      assert c.buffer + text == c.buffer;
    } else {
      ClientText(ClientFeed(c, text[0], load).state, text[1..], load);
      assert c.buffer + text == (c.buffer + [text[0]]) + text[1..];
    }
  }

  lemma ClientOneLine<P>(c: Client, line: string, rest: string, load: string -> Option<P>)
    requires NoLf(line)
    ensures ClientFeedAll(c, line + "\n" + rest, load) ==
            var y := ClientLine(c.frame, c.buffer + line, load);
            if y.failed then Yield(Client("", y.state), y.events, true)
            else
              var z := ClientFeedAll(Client("", y.state), rest, load);
              Yield(z.state, y.events + z.events, z.failed)
  {
    hide ClientLine;
    var text := "\n" + rest;
    assert line + "\n" + rest == line + text;
    assert text[1..] == rest;
    ClientText(c, line, load);
    ClientConcat(c, line, text, load);
  }

  class StreamReader<P> {
    var buffer: string
    var eventType: Option<string>
    var data: seq<string>

    function View(): Client
      reads this
    {
      Client(buffer, ClientFrame(eventType, data))
    }

    constructor ()
      ensures View() == CLIENT_INITIAL
    {
      buffer, eventType, data := "", None, [];
    }

    /** What one chunk of the body makes `stream_events` yield, and whether it then raises. */
    method Take(chunk: string, load: string -> Option<P>) returns (events: seq<Event<P>>, failed: bool)
      requires NoLf(buffer)
      modifies this
      ensures var y := ClientFeedAll(old(View()), chunk, load);
              events == y.events && failed == y.failed && (!failed ==> View() == y.state && NoLf(buffer))
    {
      hide ClientFeedAll, ClientFeed, ClientLine;
      BufferFirst(View(), chunk, load);
      ghost var goal := ClientFeedAll(View(), chunk, load);
      buffer := buffer + chunk;
      events, failed := [], false;
      while '\n' in buffer
        invariant goal.events == events + ClientFeedAll(Client("", ClientFrame(eventType, data)), buffer, load).events
        invariant goal.failed == ClientFeedAll(Client("", ClientFrame(eventType, data)), buffer, load).failed
        invariant !goal.failed ==>
                    goal.state == ClientFeedAll(Client("", ClientFrame(eventType, data)), buffer, load).state
        decreases |buffer|
      {
        var i := IndexOf(buffer, '\n');
        var line, rest := buffer[..i], buffer[i + 1..];
        SplitOnce(ClientFrame(eventType, data), buffer, i, load);
        buffer := rest;
        var event;
        event, failed := TakeLine(line, load);
        if failed {
          assert events + [] == events;
          return;
        }
        if event.Some? { events := events + [event.value]; }
      }
      ClientText(Client("", ClientFrame(eventType, data)), buffer, load);
      assert "" + buffer == buffer;
    }

    method TakeLine(line: string, load: string -> Option<P>) returns (event: Option<Event<P>>, failed: bool)
      modifies this`eventType, this`data
      ensures var y := ClientLine(old(View().frame), line, load);
              && View().frame == y.state && failed == y.failed
              && y.events == if event.Some? then [event.value] else []
    {
      event, failed := None, false;
      if "event:" <= line {
        eventType := Some(Strip(line[6..]));
      } else if "data:" <= line {
        data := data + [Strip(line[5..])];
      } else if line == "" && eventType.Some? {
        var payload := load(Join(data));
        if payload.None? {
          failed := true;
          return;
        }
        event := Some(Event(eventType.value, payload.value));
        eventType, data := None, [];
      }
    }
  }

  /** Appending the chunk to the buffer and starting over is feeding the chunk. */
  lemma BufferFirst<P>(c: Client, chunk: string, load: string -> Option<P>)
    requires NoLf(c.buffer)
    ensures ClientFeedAll(c, chunk, load) == ClientFeedAll(Client("", c.frame), c.buffer + chunk, load)
  {
    ClientText(Client("", c.frame), c.buffer, load);
    ClientConcat(Client("", c.frame), c.buffer, chunk, load);
    assert "" + c.buffer == c.buffer;
  }

  lemma SplitOnce<P>(f: ClientFrame, text: string, i: nat, load: string -> Option<P>)
    requires i < |text| && text[i] == '\n' && NoLf(text[..i])
    ensures ClientFeedAll(Client("", f), text, load) ==
            var y := ClientLine(f, text[..i], load);
            if y.failed then Yield(Client("", y.state), [], true)
            else
              var z := ClientFeedAll(Client("", y.state), text[i + 1..], load);
              Yield(z.state, y.events + z.events, z.failed)
  {
    assert text == text[..i] + "\n" + text[i + 1..];
    assert "" + text[..i] == text[..i];
    ClientOneLine(Client("", f), text[..i], text[i + 1..], load);
  }

  function TakeAll<P>(c: Client, chunks: seq<string>, load: string -> Option<P>): Yield<Client, P>
    decreases |chunks|
  {
    if chunks == [] then Yield(c, [], false)
    else
      var first := ClientFeedAll(c, chunks[0], load);
      if first.failed then first
      else
        var rest := TakeAll(first.state, chunks[1..], load);
        Yield(rest.state, first.events + rest.events, rest.failed)
  }

  /** Here empty chunks do no harm either. */
  lemma {:induction false} ClientChunkingDoesNotMatter<P>(c: Client, chunks: seq<string>, load: string -> Option<P>)
    ensures TakeAll(c, chunks, load) == ClientFeedAll(c, Concat(chunks), load)
    decreases |chunks|
  {
    if chunks != [] {
      var first := ClientFeedAll(c, chunks[0], load);
      if !first.failed { ClientChunkingDoesNotMatter(first.state, chunks[1..], load); }
      ClientConcat(c, chunks[0], Concat(chunks[1..]), load);
    }
  }

  lemma ClientFields<P>(f: ClientFrame, kind: string, text: string, load: string -> Option<P>)
    requires kind in TRANSITION_TYPES && WireSafe(text)
    ensures ClientLine(f, "event: " + kind, load) == Yield(f.(eventType := Some(kind)), [], false)
    ensures ClientLine(f, "data: " + text, load) == Yield(f.(data := f.data + [text]), [], false)
  {
    hide TRANSITION_TYPES, Strip;
    KindIsClean(kind);
    StripsTo(" ", kind, "");
    StripsTo(" ", text, "");
    assert " " + kind + "" == " " + kind && " " + text + "" == " " + text;
    assert "event: " + kind == "event:" + (" " + kind);
    assert "data: " + text == "data:" + (" " + text);
    assert ("event:" + (" " + kind))[6..] == " " + kind;
    assert ("data:" + (" " + text))[5..] == " " + text;
    assert ("data:" + (" " + text))[0] == 'd';
  }

  lemma ClientFrameBody<P>(e: Event<P>, dump: P -> string, load: string -> Option<P>, rest: string)
    requires Faithful([e], dump, load)
    ensures ClientFeedAll(CLIENT_INITIAL, FrameBody(e, dump) + rest, load) ==
            ClientFeedAll(Client("", ClientFrame(Some(e.kind), [dump(e.payload)])), rest, load)
  {
    hide ClientFeedAll, ClientLine;
    assert e in [e];
    var kind, text := e.kind, dump(e.payload);
    KindIsClean(kind);
    ClientFields(ClientFrame(None, []), kind, text, load);
    ClientFields(ClientFrame(Some(kind), []), kind, text, load);
    var lineA, lineB := "event: " + kind, "data: " + text;
    assert FrameBody(e, dump) + rest == lineA + "\n" + (lineB + "\n" + rest);
    assert "" + lineA == lineA && "" + lineB == lineB && [] + [text] == [text];
    ClientOneLine(CLIENT_INITIAL, lineA, lineB + "\n" + rest, load);
    ClientOneLine(Client("", ClientFrame(Some(kind), [])), lineB, rest, load);
  }

  lemma ClientWholeFrame<P>(e: Event<P>, dump: P -> string, load: string -> Option<P>, rest: string)
    requires Faithful([e], dump, load)
    ensures ClientFeedAll(CLIENT_INITIAL, FrameText(e, dump) + rest, load) ==
            var z := ClientFeedAll(CLIENT_INITIAL, rest, load); Yield(z.state, [e] + z.events, z.failed)
  {
    hide ClientFeedAll;
    assert e in [e];
    var text := "\n" + rest;
    assert FrameText(e, dump) + rest == FrameBody(e, dump) + text;
    ClientFrameBody(e, dump, load, text);
    JoinOne(dump(e.payload));
    assert "" + "\n" + rest == text && "" + "" == "";
    ClientOneLine(Client("", ClientFrame(Some(e.kind), [dump(e.payload)])), "", rest, load);
  }

  lemma ClientCutFrameIsSilent<P>(e: Event<P>, dump: P -> string, load: string -> Option<P>, n: nat)
    requires Faithful([e], dump, load) && n < |FrameText(e, dump)|
    ensures var y := ClientFeedAll(CLIENT_INITIAL, FrameText(e, dump)[..n], load); y.events == [] && !y.failed
  {
    hide ClientFeedAll;
    var body := FrameBody(e, dump);
    assert FrameText(e, dump) == body + "\n" && body + "" == body;
    ClientFrameBody(e, dump, load, "");
    ClientText(Client("", ClientFrame(Some(e.kind), [dump(e.payload)])), "", load);
    ClientConcat(CLIENT_INITIAL, body[..n], body[n..], load);
    assert body[..n] + body[n..] == body;
    assert FrameText(e, dump)[..n] == body[..n];
  }

  /** The Home Assistant client recovers the same events from the same cut stream, and never raises. */
  lemma {:induction false} ClientRecoversEvents<P>(events: seq<Event<P>>, dump: P -> string,
      load: string -> Option<P>, n: nat)
    requires Faithful(events, dump, load) && n <= |Print(events, dump)|
    ensures var y := ClientFeedAll(CLIENT_INITIAL, Print(events, dump)[..n], load);
            y.events == events[..Completed(events, dump, n)] && !y.failed
    ensures ClientFeedAll(CLIENT_INITIAL, Print(events, dump), load) == Yield(CLIENT_INITIAL, events, false)
    decreases |events|
  {
    hide ClientFeed, ClientFeedAll, FrameText, Faithful;
    if events == [] {
      ClientNothing(load);
    } else {
      var e, rest := events[0], Print(events[1..], dump);
      var size := |FrameText(e, dump)|;
      FaithfulParts(events, dump, load);
      ClientRecoversEvents(events[1..], dump, load, if n < size then 0 else n - size);
      ClientWholeFrame(e, dump, load, rest);
      ClientCut(e, dump, load, rest, n);
      FirstCompleted(events, dump, n);
      assert events == [e] + events[1..];
      hide Completed;
    }
  }

  lemma ClientNothing<P>(load: string -> Option<P>)
    ensures ClientFeedAll(CLIENT_INITIAL, "", load) == Yield(CLIENT_INITIAL, [], false)
  {}

  lemma ClientCut<P>(e: Event<P>, dump: P -> string, load: string -> Option<P>, rest: string, n: nat)
    requires Faithful([e], dump, load) && n <= |FrameText(e, dump) + rest|
    ensures var text := FrameText(e, dump);
            var y := ClientFeedAll(CLIENT_INITIAL, (text + rest)[..n], load);
            if n < |text| then y.events == [] && !y.failed
            else
              var z := ClientFeedAll(CLIENT_INITIAL, rest[..n - |text|], load);
              y.events == [e] + z.events && y.failed == z.failed
  {
    hide ClientFeedAll, FrameText, Faithful;
    var text := FrameText(e, dump);
    if n < |text| {
      ClientCutFrameIsSilent(e, dump, load, n);
      assert (text + rest)[..n] == text[..n];
    } else {
      ClientWholeFrame(e, dump, load, rest[..n - |text|]);
      assert (text + rest)[..n] == text + rest[..n - |text|];
    }
  }

  lemma ClientRecoversFromChunks<P>(
    events: seq<Event<P>>, chunks: seq<string>, dump: P -> string, load: string -> Option<P>, n: nat)
    requires Faithful(events, dump, load) && n <= |Print(events, dump)|
    requires Concat(chunks) == Print(events, dump)[..n]
    ensures var y := TakeAll(CLIENT_INITIAL, chunks, load);
            y.events == events[..Completed(events, dump, n)] && !y.failed
  {
    hide ClientFeedAll, Faithful, Print;
    ClientRecoversEvents(events, dump, load, n);
    ClientChunkingDoesNotMatter(CLIENT_INITIAL, chunks, load);
  }
}
