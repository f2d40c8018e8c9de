/**
 Server-Sent Events (section 9.2 of the WHATWG HTML standard), after packages/api-client/src/responses.ts:
 a parser fed with text in pieces, and the text events are written as. The time of arrival that the
 source copies into each event is left away.
 */
module Sse {
  import opened Wrappers
  import opened Numerals
  import opened Texts

  datatype SseEvent = SseEvent(index: nat, event: Option<string>, data: string, id: Option<string>, retry: Option<nat>)

  // `data`, `event`, `id` and `retry` are what the lines since the last blank line have set.
  datatype State = State(
    buffer: string, index: nat, data: seq<string>, event: Option<string>, id: Option<string>, retry: Option<nat>)

  const INITIAL := State("", 0, [], None, None, None)

  predicate IsBreak(c: char) {
    c == '\r' || c == '\n'
  }

  // The first line break, or the length.
  function BreakAt(s: string): (i: nat)
    ensures i <= |s| && (forall k :: 0 <= k < i ==> !IsBreak(s[k])) && (i < |s| ==> IsBreak(s[i]))
  {
    if s == "" || IsBreak(s[0]) then 0 else 1 + BreakAt(s[1..])
  }

  // A carriage return at the very end may be the first half of a line break.
  function FullBreak(s: string): (r: Option<nat>)
    ensures r.Some? ==> r.value < |s|
  {
    var i := BreakAt(s);
    if i == |s| || (s[i] == '\r' && i == |s| - 1) then None else Some(i)
  }

  // The length of the line break at a place.
  function BreakLength(s: string, i: nat): (n: nat)
    requires i < |s|
    ensures 0 < n <= |s| - i
  {
    if s[i] == '\r' && i + 1 < |s| && s[i + 1] == '\n' then 2 else 1
  }

  function Complete(s: State): seq<SseEvent> {
    if s.data == [] then []
    else [SseEvent(s.index + 1, if s.event == Some("") then None else s.event, Join('\n', s.data), s.id, s.retry)]
  }

  function Cleared(s: State): State {
    State(s.buffer, s.index + |Complete(s)|, [], None, None, None)
  }

  function FieldOf(line: string): string {
    line[..IndexOf(line, ':')]
  }

  function ValueOf(line: string): string {
    var colon := IndexOf(line, ':');
    var value := if colon == |line| then "" else line[colon + 1..];
    if value != "" && value[0] == ' ' then value[1..] else value
  }

  // A line that is not blank.
  function TakeField(s: State, line: string): State {
    var field, value := FieldOf(line), ValueOf(line);
    if line != "" && line[0] == ':' then s
    else if field == "data" then s.(data := s.data + [value])
    else if field == "event" then s.(event := Some(value))
    else if field == "id" then if '\0' in value then s else s.(id := Some(value))
    else if field == "retry" && value != "" && AllDigits(value) then s.(retry := Some(ToNat(value)))
    else s
  }

  datatype Fed = Fed(state: State, events: seq<SseEvent>)

  function HandleLine(s: State, line: string): Fed {
    if line == "" then Fed(Cleared(s), Complete(s)) else Fed(TakeField(s, line), [])
  }

  lemma LineKeepsBuffer(s: State, line: string)
    ensures HandleLine(s, line).state.buffer == s.buffer
  {
  }

  // Takes every whole line from the buffer.
  function Drain(s: State): Fed
    decreases |s.buffer|
  {
    match FullBreak(s.buffer)
    case None => Fed(s, [])
    case Some(i) =>
      var line := HandleLine(s.(buffer := s.buffer[i + BreakLength(s.buffer, i)..]), s.buffer[..i]);
      LineKeepsBuffer(s.(buffer := s.buffer[i + BreakLength(s.buffer, i)..]), s.buffer[..i]);
      var rest := Drain(line.state);
      Fed(rest.state, line.events + rest.events)
  }

  function Push(s: State, text: string): Fed {
    Drain(s.(buffer := s.buffer + text))
  }

  function PushAll(s: State, chunks: seq<string>): Fed {
    if chunks == [] then Fed(s, [])
    else
      var before := PushAll(s, chunks[..|chunks| - 1]);
      var last := Push(before.state, chunks[|chunks| - 1]);
      Fed(last.state, before.events + last.events)
  }

  // The end of the stream: a cut line is taken, and an event without its blank line is given.
  function Flush(s: State): Fed {
    var line := if s.buffer != "" && s.buffer[|s.buffer| - 1] == '\r' then s.buffer[..|s.buffer| - 1] else s.buffer;
    var cut := if s.buffer != "" then HandleLine(s, line) else Fed(s, []);
    var last := cut.state.(buffer := "");
    Fed(Cleared(last), cut.events + Complete(last))
  }

  // The events of a whole stream.
  function Parse(text: string): seq<SseEvent> {
    var pushed := Push(INITIAL, text);
    pushed.events + Flush(pushed.state).events
  }

  /* ---------- Pieces do not matter ---------- */

  lemma {:induction false} BreakInFront(a: string, b: string)
    requires BreakAt(a) < |a|
    ensures BreakAt(a + b) == BreakAt(a)
  {
    if !IsBreak(a[0]) {
      assert (a + b)[1..] == a[1..] + b;
      BreakInFront(a[1..], b);
    }
  }

  // A whole line at the front is the same whatever follows.
  lemma {:induction false} FrontLineStays(a: string, b: string)
    requires FullBreak(a).Some?
    ensures FullBreak(a + b) == FullBreak(a)
    ensures var i := FullBreak(a).value;
            && BreakLength(a + b, i) == BreakLength(a, i)
            && (a + b)[..i] == a[..i]
            && (a + b)[i + BreakLength(a, i)..] == a[i + BreakLength(a, i)..] + b
  {
    BreakInFront(a, b);
  }

  lemma OnlyBuffer(s: State, line: string, buffer: string)
    ensures HandleLine(s.(buffer := buffer), line) ==
            Fed(HandleLine(s, line).state.(buffer := buffer), HandleLine(s, line).events)
  {
  }

  // What the first whole line does.
  function FirstLine(s: State, i: nat): (r: Fed)
    requires i < |s.buffer|
    ensures r.state.buffer == s.buffer[i + BreakLength(s.buffer, i)..]
  {
    LineKeepsBuffer(s.(buffer := s.buffer[i + BreakLength(s.buffer, i)..]), s.buffer[..i]);
    HandleLine(s.(buffer := s.buffer[i + BreakLength(s.buffer, i)..]), s.buffer[..i])
  }

  lemma DrainStep(s: State)
    ensures FullBreak(s.buffer) == None ==> Drain(s) == Fed(s, [])
    ensures FullBreak(s.buffer).Some? ==>
              var line := FirstLine(s, FullBreak(s.buffer).value);
              Drain(s) == Fed(Drain(line.state).state, line.events + Drain(line.state).events)
  {
    hide HandleLine, FullBreak, BreakLength;
  }

  // More text behind the first whole line changes only what is left.
  lemma FirstLineStays(s: State, text: string)
    requires FullBreak(s.buffer).Some?
    ensures var t := s.(buffer := s.buffer + text);
            && FullBreak(t.buffer) == FullBreak(s.buffer)
            && var line := FirstLine(s, FullBreak(s.buffer).value);
               FirstLine(t, FullBreak(s.buffer).value) == Fed(line.state.(buffer := line.state.buffer + text), line.events)
  {
    hide HandleLine, FullBreak, BreakLength;
    var i := FullBreak(s.buffer).value;
    FrontLineStays(s.buffer, text);
    var rest := s.buffer[i + BreakLength(s.buffer, i)..];
    LineKeepsBuffer(s.(buffer := rest), s.buffer[..i]);
    OnlyBuffer(s.(buffer := rest), s.buffer[..i], rest + text);
  }

  lemma {:induction false} DrainOfTwo(s: State, text: string)
    ensures var first := Drain(s);
            var second := Push(first.state, text);
            Push(s, text) == Fed(second.state, first.events + second.events)
    decreases |s.buffer|
  {
    hide FirstLine, FullBreak, BreakLength, Drain;
    var t := s.(buffer := s.buffer + text);
    DrainStep(s);
    match FullBreak(s.buffer)
    case None =>
      assert [] + Drain(t).events == Drain(t).events;
    case Some(i) =>
      FirstLineStays(s, text);
      DrainStep(t);
      var line := FirstLine(s, i);
      DrainOfTwo(line.state, text);
      var rest := Drain(line.state);
      assert line.events + (rest.events + Push(rest.state, text).events) == line.events + rest.events + Push(rest.state, text).events;
  }

  lemma PushNothing(s: State)
    requires Drain(s) == Fed(s, [])
    ensures Push(s, "") == Fed(s, [])
  {
    assert s.buffer + "" == s.buffer;
  }

  lemma PushTwice(s: State, a: string, b: string)
    ensures var first := Push(s, a);
            var second := Push(first.state, b);
            Push(s, a + b) == Fed(second.state, first.events + second.events)
  {
    hide Drain;
    DrainOfTwo(s.(buffer := s.buffer + a), b);
    assert s.buffer + (a + b) == s.buffer + a + b;
  }

  /**
   However a text is cut into pieces, also between a carriage return and its line feed, the parser gives
   the same events and comes to the same state.
   */
  lemma {:induction false} PiecesDoNotMatter(s: State, chunks: seq<string>)
    requires Drain(s) == Fed(s, [])
    ensures PushAll(s, chunks) == Push(s, Concat(chunks))
  {
    hide Push, Drain;
    if chunks == [] {
      PushNothing(s);
    } else {
      var n := |chunks| - 1;
      PiecesDoNotMatter(s, chunks[..n]);
      PushTwice(s, Concat(chunks[..n]), chunks[n]);
    }
  }

  /* ---------- Writing ---------- */

  function FieldLine(name: string, value: string): string {
    name + ": " + value
  }

  function DataLines(lines: seq<string>): seq<string> {
    seq(|lines|, i requires 0 <= i < |lines| => FieldLine("data", lines[i]))
  }

  function LinesOf(e: SseEvent): (r: seq<string>)
    ensures r != []
  {
    (if e.event.Some? && e.event.value != "" then [FieldLine("event", e.event.value)] else [])
    + (if e.id.Some? then [FieldLine("id", e.id.value)] else [])
    + (if e.retry.Some? then [FieldLine("retry", Digits(e.retry.value))] else [])
    + DataLines(Split('\n', e.data))
  }

  function Block(e: SseEvent): string {
    Join('\n', LinesOf(e)) + "\n\n"
  }

  function Serialize(events: seq<SseEvent>): string {
    if events == [] then "" else Serialize(events[..|events| - 1]) + Block(events[|events| - 1])
  }

  predicate OneLine(s: string) {
    forall i :: 0 <= i < |s| ==> !IsBreak(s[i])
  }

  // An event that can be written without loss.
  predicate Clean(e: SseEvent) {
    && '\r' !in e.data
    && (e.event.Some? ==> e.event.value != "" && OneLine(e.event.value))
    && (e.id.Some? ==> OneLine(e.id.value) && '\0' !in e.id.value)
  }

  predicate AllClean(events: seq<SseEvent>) {
    forall i :: 0 <= i < |events| ==> Clean(events[i])
  }

  predicate Numbered(events: seq<SseEvent>) {
    forall i :: 0 <= i < |events| ==> events[i].index == i + 1
  }

  /* ---------- Reading what was written ---------- */

  lemma FrontLine(line: string, rest: string)
    requires OneLine(line)
    ensures var text := line + "\n" + rest;
            && FullBreak(text) == Some(|line|) && BreakLength(text, |line|) == 1
            && text[..|line|] == line && text[|line| + 1..] == rest
  {
    var text := line + "\n" + rest;
    assert text[|line|] == '\n';
    BreakAfter(line, "\n" + rest);
    assert text == line + ("\n" + rest);
  }

  lemma {:induction false} BreakAfter(line: string, rest: string)
    requires OneLine(line) && rest != "" && IsBreak(rest[0])
    ensures BreakAt(line + rest) == |line|
  {
    if line == "" {
      assert line + rest == rest;
    } else {
      assert (line + rest)[1..] == line[1..] + rest;
      BreakAfter(line[1..], rest);
    }
  }

  // The fields of lines, none of them blank, set one after another.
  function TakeFields(s: State, lines: seq<string>): State
    decreases |lines|
  {
    if lines == [] then s else TakeFields(TakeField(s, lines[0]), lines[1..])
  }

  // Lines with a line feed after each.
  function Terminated(lines: seq<string>): string {
    if lines == [] then "" else lines[0] + "\n" + Terminated(lines[1..])
  }

  lemma {:induction false} FieldsDrained(s: State, lines: seq<string>, rest: string)
    requires s.buffer == Terminated(lines) + rest
    requires forall i :: 0 <= i < |lines| ==> OneLine(lines[i]) && lines[i] != ""
    ensures Drain(s) == Drain(TakeFields(s.(buffer := rest), lines))
    decreases |lines|
  {
    hide FullBreak, BreakLength, TakeField, OneLine;
    if lines == [] {
      assert "" + rest == rest;
    } else {
      var more := Terminated(lines[1..]) + rest;
      assert s.buffer == lines[0] + "\n" + more;
      FrontLine(lines[0], more);
      var t := s.(buffer := more);
      var u := TakeField(t, lines[0]);
      FieldKeepsBuffer(t, lines[0], rest);
      FieldsDrained(u, lines[1..], rest);
      assert [] + Drain(u).events == Drain(u).events;
    }
  }

  lemma FieldKeepsBuffer(s: State, line: string, buffer: string)
    ensures TakeField(s, line).buffer == s.buffer
    ensures TakeField(s.(buffer := buffer), line) == TakeField(s, line).(buffer := buffer)
  {
  }

  // What one written field sets.
  lemma FieldRead(s: State, name: string, value: string)
    requires ':' !in name && name != ""
    ensures var line := FieldLine(name, value);
            line != "" && line[0] != ':' && FieldOf(line) == name && ValueOf(line) == value
  {
    var line := FieldLine(name, value);
    assert line == name + [':'] + (" " + value);
    IndexFound(name, ':', " " + value);
    assert line[..|name|] == name && line[|name| + 1..] == " " + value;
    assert (" " + value)[1..] == value;
    assert line[0] == name[0];
    assert name[0] in name;
  }

  lemma {:induction false} FieldsOfTwo(s: State, a: seq<string>, b: seq<string>)
    ensures TakeFields(s, a + b) == TakeFields(TakeFields(s, a), b)
    decreases |a|
  {
    if a == [] {
      assert a + b == b;
    } else {
      assert (a + b)[1..] == a[1..] + b;
      FieldsOfTwo(TakeField(s, a[0]), a[1..], b);
    }
  }

  lemma OneField(s: State, line: string)
    ensures TakeFields(s, [line]) == TakeField(s, line) && TakeFields(s, []) == s
  {
    assert [line][1..] == [];
  }

  lemma {:induction false} DataRead(s: State, lines: seq<string>)
    ensures TakeFields(s, DataLines(lines)) == s.(data := s.data + lines)
    decreases |lines|
  {
    hide FieldOf, ValueOf, FieldLine;
    if lines == [] {
      assert DataLines(lines) == [] && s.data + lines == s.data;
    } else {
      FieldRead(s, "data", lines[0]);
      assert DataLines(lines)[0] == FieldLine("data", lines[0]);
      assert DataLines(lines)[1..] == DataLines(lines[1..]);
      DataRead(s.(data := s.data + [lines[0]]), lines[1..]);
      assert s.data + [lines[0]] + lines[1..] == s.data + lines;
    }
  }

  // The state in which an event is about to be given.
  function Ready(s: State, e: SseEvent): State {
    State(s.buffer, s.index, Split('\n', e.data), e.event, e.id, e.retry)
  }

  lemma EventRead(s: State, event: Option<string>)
    requires event.Some? ==> event.value != ""
    ensures var lines := if event.Some? && event.value != "" then [FieldLine("event", event.value)] else [];
            TakeFields(s, lines) == if event.Some? then s.(event := event) else s
  {
    hide FieldOf, ValueOf, FieldLine;
    OneField(s, FieldLine("event", event.GetOr("")));
    FieldRead(s, "event", event.GetOr(""));
    DifferentNames();
  }

  lemma IdRead(s: State, id: Option<string>)
    requires id.Some? ==> '\0' !in id.value
    ensures var lines := if id.Some? then [FieldLine("id", id.value)] else [];
            TakeFields(s, lines) == if id.Some? then s.(id := id) else s
  {
    hide FieldOf, ValueOf, FieldLine;
    OneField(s, FieldLine("id", id.GetOr("")));
    FieldRead(s, "id", id.GetOr(""));
    DifferentNames();
  }

  lemma RetryRead(s: State, retry: Option<nat>)
    ensures var lines := if retry.Some? then [FieldLine("retry", Digits(retry.value))] else [];
            TakeFields(s, lines) == if retry.Some? then s.(retry := retry) else s
  {
    hide FieldOf, ValueOf, FieldLine, Digits, ToNat, AllDigits;
    OneField(s, FieldLine("retry", Digits(retry.GetOr(0))));
    FieldRead(s, "retry", Digits(retry.GetOr(0)));
    DigitsRead(retry.GetOr(0));
    DifferentNames();
  }

  lemma DifferentNames()
    ensures "event" != "data" && "id" != "data" && "id" != "event" && "retry" != "data" && "retry" != "event" && "retry" != "id"
  {
    assert "event"[0] == 'e' && "retry"[0] == 'r';
    assert |"id"| == 2;
  }

  lemma {:induction false} LinesRead(s: State, e: SseEvent)
    requires Clean(e) && s.data == [] && s.event == None && s.id == None && s.retry == None
    ensures TakeFields(s, LinesOf(e)) == Ready(s, e)
  {
    hide TakeFields, FieldLine, DataLines, Split, Digits;
    var a := if e.event.Some? && e.event.value != "" then [FieldLine("event", e.event.value)] else [];
    var b := if e.id.Some? then [FieldLine("id", e.id.value)] else [];
    var c := if e.retry.Some? then [FieldLine("retry", Digits(e.retry.value))] else [];
    var d := DataLines(Split('\n', e.data));
    FieldsOfTwo(s, a + b + c, d);
    FieldsOfTwo(s, a + b, c);
    FieldsOfTwo(s, a, b);
    EventRead(s, e.event);
    var s1 := s.(event := e.event);
    IdRead(s1, e.id);
    var s2 := s1.(id := e.id);
    RetryRead(s2, e.retry);
    var s3 := s2.(retry := e.retry);
    DataRead(s3, Split('\n', e.data));
    assert [] + Split('\n', e.data) == Split('\n', e.data);
  }

  lemma {:induction false} TerminatedJoin(lines: seq<string>)
    requires lines != []
    ensures Join('\n', lines) + "\n" == Terminated(lines)
  {
    if |lines| == 1 {
      assert lines[1..] == [];
      assert Terminated(lines) == lines[0] + "\n" + "";
    } else {
      TerminatedJoin(lines[1..]);
      assert Join('\n', lines) + "\n" == lines[0] + "\n" + (Join('\n', lines[1..]) + "\n");
    }
  }

  lemma LinesWritten(e: SseEvent)
    requires Clean(e)
    ensures LinesOf(e) != [] && forall i :: 0 <= i < |LinesOf(e)| ==> OneLine(LinesOf(e)[i]) && LinesOf(e)[i] != ""
  {
    hide Digits;
    var parts := Split('\n', e.data);
    if e.retry.Some? {
      DigitsRead(e.retry.value);
    }
    PartsPlain(e.data);
    var d := DataLines(parts);
    forall i | 0 <= i < |d| ensures OneLine(d[i]) && d[i] != "" {
      assert OneLine(parts[i]);
    }
  }

  lemma {:induction false} PartsPlain(data: string)
    requires '\r' !in data
    ensures forall i :: 0 <= i < |Split('\n', data)| ==> OneLine(Split('\n', data)[i])
  {
    if data != "" {
      PartsPlain(data[1..]);
    }
  }

  // One block: its lines, then the blank line that gives the event.
  lemma {:induction false} BlockRead(s: State, e: SseEvent, rest: string)
    requires Clean(e) && s.data == [] && s.event == None && s.id == None && s.retry == None
    requires s.buffer == Block(e) + rest
    ensures var t := State(rest, s.index + 1, [], None, None, None);
            Drain(s) == Fed(Drain(t).state, [e.(index := s.index + 1)] + Drain(t).events)
  {
    hide LinesOf, TakeFields, OneLine, Split, FullBreak, BreakLength, Terminated, Join;
    LinesWritten(e);
    TerminatedJoin(LinesOf(e));
    assert s.buffer == Terminated(LinesOf(e)) + ("\n" + rest);
    FieldsDrained(s, LinesOf(e), "\n" + rest);
    var r := s.(buffer := "\n" + rest);
    LinesRead(r, e);
    BlankRead(Ready(r, e), e, rest);
  }

  lemma BlankRead(s: State, e: SseEvent, rest: string)
    requires s == State("\n" + rest, s.index, Split('\n', e.data), e.event, e.id, e.retry) && Clean(e)
    ensures var t := State(rest, s.index + 1, [], None, None, None);
            Drain(s) == Fed(Drain(t).state, [e.(index := s.index + 1)] + Drain(t).events)
  {
    hide Split, FullBreak, BreakLength, Join, Drain, Clean;
    NothingIsOneLine();
    FrontLine("", rest);
    assert "" + "\n" + rest == "\n" + rest;
    DrainStep(s);
    JoinSplit('\n', e.data);
    BlankGives(s, e, rest);
  }

  lemma BlankGives(s: State, e: SseEvent, rest: string)
    requires s.data == Split('\n', e.data) && Join('\n', s.data) == e.data && Clean(e)
    requires s.event == e.event && s.id == e.id && s.retry == e.retry
    ensures HandleLine(s.(buffer := rest), "") ==
            Fed(State(rest, s.index + 1, [], None, None, None), [e.(index := s.index + 1)])
  {
    hide Split, Join;
  }

  lemma NothingIsOneLine()
    ensures OneLine("")
  {
  }

  // Between two events.
  function Fresh(buffer: string, index: nat): State {
    State(buffer, index, [], None, None, None)
  }

  lemma {:induction false} OneBlock(n: nat, e: SseEvent)
    requires Clean(e)
    ensures Drain(Fresh(Block(e), n)) == Fed(Fresh("", n + 1), [e.(index := n + 1)])
  {
    hide Drain, Clean, Block;
    assert Block(e) == Block(e) + "";
    BlockRead(Fresh(Block(e), n), e, "");
    NothingDrained(n + 1);
    assert [e.(index := n + 1)] + [] == [e.(index := n + 1)];
  }

  function Renumber(events: seq<SseEvent>): (r: seq<SseEvent>)
    ensures |r| == |events|
  {
    seq(|events|, i requires 0 <= i < |events| => events[i].(index := i + 1))
  }

  lemma RenumberGrows(events: seq<SseEvent>)
    requires events != []
    ensures var n := |events| - 1;
            Renumber(events) == Renumber(events[..n]) + [events[n].(index := n + 1)]
  {
  }

  lemma DrainBoth(a: string, b: string, n: nat, m: nat, before: seq<SseEvent>, more: seq<SseEvent>)
    requires Drain(Fresh(a, 0)) == Fed(Fresh("", n), before) && Drain(Fresh(b, n)) == Fed(Fresh("", m), more)
    ensures Drain(Fresh(a + b, 0)) == Fed(Fresh("", m), before + more)
  {
    hide Drain;
    DrainOfTwo(Fresh(a, 0), b);
    assert "" + b == b;
  }

  lemma {:induction false} EventsRead(events: seq<SseEvent>)
    requires AllClean(events)
    ensures Drain(Fresh(Serialize(events), 0)) == Fed(Fresh("", |events|), Renumber(events))
    decreases |events|
  {
    hide Drain, Block, Clean, Renumber, Fresh;
    if events == [] {
      NothingDrained(0);
      NothingWritten();
    } else {
      var n := |events| - 1;
      EventsRead(events[..n]);
      OneBlock(n, events[n]);
      RenumberGrows(events);
      DrainBoth(Serialize(events[..n]), Block(events[n]), n, n + 1, Renumber(events[..n]), [events[n].(index := n + 1)]);
    }
  }

  lemma NothingWritten()
    ensures Serialize([]) == "" && Renumber([]) == []
  {
  }

  lemma NothingDrained(index: nat)
    ensures Drain(Fresh("", index)) == Fed(Fresh("", index), [])
  {
  }

  /* ---------- What the parser can give ---------- */

  // What the fields of a parser may hold.
  predicate Plain(s: State) {
    && (forall i :: 0 <= i < |s.data| ==> OneLine(s.data[i]))
    && (s.event.Some? ==> OneLine(s.event.value))
    && (s.id.Some? ==> OneLine(s.id.value) && '\0' !in s.id.value)
  }

  lemma {:induction false} JoinPlain(parts: seq<string>)
    requires parts != [] && forall i :: 0 <= i < |parts| ==> OneLine(parts[i])
    ensures '\r' !in Join('\n', parts)
  {
    if |parts| > 1 {
      JoinPlain(parts[1..]);
    }
    assert forall k :: 0 <= k < |parts[0]| ==> parts[0][k] != '\r';
  }

  lemma LinePlain(s: State, line: string)
    requires Plain(s) && OneLine(line)
    ensures Plain(HandleLine(s, line).state) && AllClean(HandleLine(s, line).events)
    ensures HandleLine(s, line).state.index == s.index + |HandleLine(s, line).events|
    ensures forall i :: 0 <= i < |HandleLine(s, line).events| ==> HandleLine(s, line).events[i].index == s.index + 1 + i
  {
    if line == "" && s.data != [] {
      JoinPlain(s.data);
    }
  }

  // Events numbered on from an index.
  predicate NumberedFrom(events: seq<SseEvent>, index: nat) {
    forall i :: 0 <= i < |events| ==> events[i].index == index + 1 + i
  }

  lemma FirstLinePlain(s: State, i: nat)
    requires Plain(s) && FullBreak(s.buffer) == Some(i)
    ensures var line := FirstLine(s, i);
            && Plain(line.state) && AllClean(line.events) && NumberedFrom(line.events, s.index)
            && line.state.index == s.index + |line.events|
  {
    hide HandleLine, Clean;
    LinePlain(s.(buffer := s.buffer[i + BreakLength(s.buffer, i)..]), s.buffer[..i]);
  }

  lemma BothClean(a: seq<SseEvent>, b: seq<SseEvent>, index: nat)
    requires AllClean(a) && AllClean(b) && NumberedFrom(a, index) && NumberedFrom(b, index + |a|)
    ensures AllClean(a + b) && NumberedFrom(a + b, index)
  {
    hide Clean;
  }

  lemma {:induction false} DrainPlain(s: State)
    requires Plain(s)
    ensures var d := Drain(s);
            && Plain(d.state) && AllClean(d.events) && NumberedFrom(d.events, s.index)
            && d.state.index == s.index + |d.events| && FullBreak(d.state.buffer) == None
    decreases |s.buffer|
  {
    hide Plain, FirstLine, FullBreak, BreakLength, Drain, AllClean, NumberedFrom;
    DrainStep(s);
    NoneClean(s.index);
    match FullBreak(s.buffer)
    case None =>
    case Some(i) =>
      FirstLinePlain(s, i);
      var line := FirstLine(s, i);
      DrainPlain(line.state);
      BothClean(line.events, Drain(line.state).events, s.index);
  }

  lemma NoneClean(index: nat)
    ensures AllClean([]) && NumberedFrom([], index)
  {
  }

  lemma CutLine(buffer: string)
    requires FullBreak(buffer) == None
    ensures OneLine(if buffer != "" && buffer[|buffer| - 1] == '\r' then buffer[..|buffer| - 1] else buffer)
  {
  }

  lemma FlushPlain(s: State)
    requires Plain(s) && FullBreak(s.buffer) == None
    ensures AllClean(Flush(s).events) && NumberedFrom(Flush(s).events, s.index)
  {
    hide HandleLine, FullBreak;
    var line := if s.buffer != "" && s.buffer[|s.buffer| - 1] == '\r' then s.buffer[..|s.buffer| - 1] else s.buffer;
    CutLine(s.buffer);
    LinePlain(s, line);
    var cut := if s.buffer != "" then HandleLine(s, line) else Fed(s, []);
    if cut.state.data != [] {
      JoinPlain(cut.state.data);
    }
  }

  /** Whatever the text, every event the parser gives is clean, and they are numbered from 1. */
  lemma {:induction false} ParsedIsClean(text: string)
    ensures AllClean(Parse(text)) && Numbered(Parse(text))
  {
    hide Drain, Flush, Clean, FullBreak;
    var pushed := Push(INITIAL, text);
    DrainPlain(INITIAL.(buffer := INITIAL.buffer + text));
    FlushPlain(pushed.state);
    BothClean(pushed.events, Flush(pushed.state).events, 0);
  }

  /**
   Writing events and parsing the text gives the same events if and only if they are numbered from 1 and
   clean: data without carriage returns, event names that are not empty and ids, both on one line, and
   ids without NUL.
   */
  lemma {:induction false} WrittenComesBack(events: seq<SseEvent>)
    ensures Parse(Serialize(events)) == events <==> AllClean(events) && Numbered(events)
  {
    hide Drain, Flush, Clean, Serialize;
    if AllClean(events) && Numbered(events) {
      Renumbered(events);
    }
    if Parse(Serialize(events)) == events {
      ParsedIsClean(Serialize(events));
    }
  }

  /** Clean events come back with new numbers. */
  lemma {:induction false} Renumbered(events: seq<SseEvent>)
    requires AllClean(events)
    ensures Parse(Serialize(events)) == Renumber(events)
    ensures Numbered(events) ==> Renumber(events) == events
  {
    hide Drain, Clean, Serialize;
    assert "" + Serialize(events) == Serialize(events);
    EventsRead(events);
    assert Renumber(events) + [] == Renumber(events);
    if Numbered(events) {
      assert forall i :: 0 <= i < |events| ==> events[i].(index := i + 1) == events[i];
    }
  }
}
