/**
 What the events of any stream are, told of the whole text: its lines, the blocks of lines between blank
 ones, and in each block the last value of each field; and that the parser gives exactly these events.
 */
module SseStream {
  import opened Wrappers
  import opened Numerals
  import opened Texts
  import opened Sse

  /* ---------- Lines ---------- */

  // The text with a line feed for each line break: for "\r\n", for "\r" and for "\n".
  function WithLineFeeds(text: string): string {
    if text == "" then ""
    else if text[0] != '\r' then [text[0]] + WithLineFeeds(text[1..])
    else if |text| > 1 && text[1] == '\n' then "\n" + WithLineFeeds(text[2..])
    else "\n" + WithLineFeeds(text[1..])
  }

  // The lines of a text; one that the end cuts off counts unless there is nothing in it.
  function LinesIn(text: string): seq<string> {
    var parts := Split('\n', WithLineFeeds(text));
    var n := |parts| - 1;
    if parts[n] == "" then parts[..n] else parts
  }

  /* ---------- Fields ---------- */

  // A line with a colon: the name before the first one, the value behind it without one space. A line
  // without a colon is a name.
  predicate IsField(line: string, name: string, value: string) {
    && ':' !in name
    && ((line == name && value == "") || line == name + ": " + value
        || (line == name + ":" + value && (value == "" || value[0] != ' ')))
  }

  ghost predicate HasField(line: string, name: string) {
    exists value :: IsField(line, name, value)
  }

  ghost function FieldIn(line: string, name: string): (value: string)
    requires HasField(line, name)
    ensures IsField(line, name, value)
  {
    var value :| IsField(line, name, value);
    value
  }

  // The values a field of this name has in the lines, in their order.
  ghost function ValuesIn(lines: seq<string>, name: string): seq<string> {
    var n := |lines| - 1;
    if n < 0 then []
    else ValuesIn(lines[..n], name) + if HasField(lines[n], name) then [FieldIn(lines[n], name)] else []
  }

  // The last of them that counts.
  function LastOf(values: seq<string>, counts: string -> bool): Option<string> {
    var n := |values| - 1;
    if n < 0 then None else if counts(values[n]) then Some(values[n]) else LastOf(values[..n], counts)
  }

  predicate IsAny(s: string) {
    true
  }

  predicate IsNulFree(s: string) {
    forall i :: 0 <= i < |s| ==> s[i] as int != 0
  }

  predicate IsNumber(s: string) {
    s != "" && forall i :: 0 <= i < |s| ==> '0' <= s[i] <= '9'
  }

  /* ---------- Events ---------- */

  ghost function RetryOf(lines: seq<string>): Option<nat> {
    var value := LastOf(ValuesIn(lines, "retry"), IsNumber);
    if value.Some? then Some(NumberOf(value.value)) else None
  }

  function NumberOf(s: string): nat {
    if AllDigits(s) then ToNat(s) else 0
  }

  ghost function NameOf(lines: seq<string>): Option<string> {
    var value := LastOf(ValuesIn(lines, "event"), IsAny);
    if value == Some("") then None else value
  }

  // The event of a block of lines, the `n`-th of the stream; none without data.
  ghost function EventOf(lines: seq<string>, n: nat): seq<SseEvent> {
    var data := ValuesIn(lines, "data");
    if data == [] then []
    else [SseEvent(n, NameOf(lines), Join('\n', data), LastOf(ValuesIn(lines, "id"), IsNulFree), RetryOf(lines))]
  }

  // The first blank line, or the number of lines.
  function BlankAt(lines: seq<string>): (i: nat)
    ensures i <= |lines| && (forall k :: 0 <= k < i ==> lines[k] != "") && (i < |lines| ==> lines[i] == "")
  {
    if lines == [] || lines[0] == "" then 0 else 1 + BlankAt(lines[1..])
  }

  // The events of lines, of which `n` stand before: one for each block between blank lines.
  ghost function EventsOf(lines: seq<string>, n: nat): seq<SseEvent>
    decreases |lines|
  {
    var i := BlankAt(lines);
    var first := EventOf(lines[..i], n + 1);
    if i == |lines| then first else first + EventsOf(lines[i + 1..], n + |first|)
  }

  /* ---------- Fields as they are read ---------- */

  lemma FieldParts(line: string)
    ensures var i := IndexOf(line, ':');
            (':' !in line <==> i == |line|) && (i < |line| ==> line == line[..i] + ":" + line[i + 1..])
  {
  }

  lemma FieldIs(line: string, name: string, value: string)
    ensures IsField(line, name, value) <==> FieldOf(line) == name && Sse.ValueOf(line) == value
  {
    FieldParts(line);
    if IsField(line, name, value) {
      FieldTaken(line, name, value);
    }
    if FieldOf(line) == name && Sse.ValueOf(line) == value {
      FieldFound(line);
    }
  }

  lemma FieldTaken(line: string, name: string, value: string)
    requires IsField(line, name, value)
    ensures FieldOf(line) == name && Sse.ValueOf(line) == value
  {
    hide IndexOf;
    if line == name && value == "" {
      assert IndexOf(line, ':') == |line|;
      assert line[..|line|] == line;
    } else {
      var rest := if line == name + ": " + value then " " + value else value;
      assert line == name + [':'] + rest;
      IndexFound(name, ':', rest);
      assert line[..|name|] == name && line[|name| + 1..] == rest;
      assert rest == " " + value ==> rest[1..] == value;
    }
  }

  lemma FieldFound(line: string)
    ensures IsField(line, FieldOf(line), Sse.ValueOf(line))
  {
    hide IndexOf;
    var i := IndexOf(line, ':');
    if i == |line| {
      assert line[..i] == line;
    } else {
      var rest := line[i + 1..];
      assert line == line[..i] + ":" + rest;
      if rest != "" && rest[0] == ' ' {
        assert rest == " " + rest[1..];
        assert line == line[..i] + ": " + rest[1..];
      }
    }
  }

  lemma ValueIs(line: string, name: string)
    ensures HasField(line, name) <==> FieldOf(line) == name
    ensures HasField(line, name) ==> FieldIn(line, name) == Sse.ValueOf(line)
  {
    hide IsField, FieldOf;
    FieldIs(line, name, Sse.ValueOf(line));
    if HasField(line, name) {
      FieldIs(line, name, FieldIn(line, name));
    }
  }

  // One more line.
  lemma ValuesGrow(lines: seq<string>, line: string, name: string)
    ensures ValuesIn(lines + [line], name) ==
            ValuesIn(lines, name) + if FieldOf(line) == name then [Sse.ValueOf(line)] else []
  {
    hide FieldOf;
    ValueIs(line, name);
    assert (lines + [line])[..|lines|] == lines;
  }

  lemma LastGrows(values: seq<string>, value: string, counts: string -> bool)
    ensures LastOf(values + [value], counts) == if counts(value) then Some(value) else LastOf(values, counts)
  {
    assert (values + [value])[..|values|] == values;
  }

  // The parser after the lines of a block.
  ghost predicate Holds(s: State, lines: seq<string>) {
    && s.data == ValuesIn(lines, "data") && s.event == LastOf(ValuesIn(lines, "event"), IsAny)
    && s.id == LastOf(ValuesIn(lines, "id"), IsNulFree) && s.retry == RetryOf(lines)
  }

  lemma NumbersAre(value: string)
    ensures IsNumber(value) <==> value != "" && AllDigits(value)
    ensures IsNulFree(value) <==> '\0' !in value
  {
  }

  lemma CommentIsNoField(line: string)
    requires line != "" && line[0] == ':'
    ensures FieldOf(line) == ""
  {
  }

  // What a line does, by its field and its value.
  lemma TakenIs(s: State, line: string)
    requires line != ""
    ensures var name, value := FieldOf(line), Sse.ValueOf(line);
            TakeField(s, line) ==
            if name == "data" then s.(data := s.data + [value])
            else if name == "event" then s.(event := Some(value))
            else if name == "id" then if IsNulFree(value) then s.(id := Some(value)) else s
            else if name == "retry" && IsNumber(value) then s.(retry := Some(NumberOf(value)))
            else s
  {
    hide FieldOf, IsNumber, IsNulFree, ToNat;
    NumbersAre(Sse.ValueOf(line));
    if line[0] == ':' {
      CommentIsNoField(line);
    }
  }

  lemma {:induction false} OneMoreHolds(s: State, lines: seq<string>, line: string)
    requires Holds(s, lines) && line != ""
    ensures Holds(TakeField(s, line), lines + [line])
  {
    hide FieldOf, TakeField, ValuesIn, IsNumber, IsNulFree, NumberOf;
    var name, value := FieldOf(line), Sse.ValueOf(line);
    TakenIs(s, line);
    ValuesGrow(lines, line, "data");
    ValuesGrow(lines, line, "event");
    ValuesGrow(lines, line, "id");
    ValuesGrow(lines, line, "retry");
    LastGrows(ValuesIn(lines, "event"), value, IsAny);
    LastGrows(ValuesIn(lines, "id"), value, IsNulFree);
    LastGrows(ValuesIn(lines, "retry"), value, IsNumber);
    NamesDiffer();
    assert ValuesIn(lines, "data") + [] == ValuesIn(lines, "data") && ValuesIn(lines, "event") + [] == ValuesIn(lines, "event");
    assert ValuesIn(lines, "id") + [] == ValuesIn(lines, "id") && ValuesIn(lines, "retry") + [] == ValuesIn(lines, "retry");
  }

  lemma NamesDiffer()
    ensures "data" != "event" && "data" != "id" && "data" != "retry" && "event" != "id" && "event" != "retry" && "id" != "retry"
  {
    assert |"data"| == 4 && |"event"| == 5 && |"id"| == 2 && |"retry"| == 5;
    assert "event"[0] == 'e' && "retry"[0] == 'r';
  }

  /* ---------- Lines as they are read ---------- */

  // The lines handled one after another, and the end of the stream.
  function HandleAll(s: State, lines: seq<string>): Fed
    decreases |lines|
  {
    if lines == [] then Fed(s, [])
    else
      var first := HandleLine(s, lines[0]);
      var rest := HandleAll(first.state, lines[1..]);
      Fed(rest.state, first.events + rest.events)
  }

  lemma EndHolds(s: State, lines: seq<string>)
    requires Holds(s, lines)
    ensures Complete(s) == EventOf(lines, s.index + 1)
  {
    hide ValuesIn;
  }

  lemma NothingHolds(s: State)
    requires s.data == [] && s.event == None && s.id == None && s.retry == None
    ensures Holds(s, [])
  {
  }

  lemma {:induction false} BlankFound(before: seq<string>, lines: seq<string>)
    requires (forall k :: 0 <= k < |before| ==> before[k] != "") && (lines == [] || lines[0] == "")
    ensures BlankAt(before + lines) == |before|
  {
    if before != [] {
      assert (before + lines)[1..] == before[1..] + lines;
      BlankFound(before[1..], lines);
    } else {
      assert before + lines == lines;
    }
  }

  // The lines `before` of a block have been handled; the others are next.
  lemma {:induction false} AllHandled(s: State, before: seq<string>, lines: seq<string>)
    requires Holds(s, before) && forall k :: 0 <= k < |before| ==> before[k] != ""
    ensures var fed := HandleAll(s, lines);
            fed.events + Complete(fed.state) == EventsOf(before + lines, s.index)
    decreases |lines|
  {
    hide Holds, Complete, TakeField, EventOf;
    if lines == [] {
      assert before + lines == before;
      BlankFound(before, []);
      EndHolds(s, before);
      assert [] + Complete(s) == Complete(s) && before[..|before|] == before;
    } else if lines[0] == "" {
      BlankFound(before, lines);
      EndHolds(s, before);
      var first := HandleLine(s, "");
      BlankClears(s);
      NothingHolds(first.state);
      AllHandled(first.state, [], lines[1..]);
      var rest := HandleAll(first.state, lines[1..]);
      var all := before + lines;
      assert all[..|before|] == before && all[|before| + 1..] == lines[1..] && [] + lines[1..] == lines[1..];
      assert first.events + rest.events + Complete(rest.state) == first.events + (rest.events + Complete(rest.state));
    } else {
      OneMoreHolds(s, before, lines[0]);
      FieldKeepsIndex(s, lines[0]);
      AllHandled(TakeField(s, lines[0]), before + [lines[0]], lines[1..]);
      var rest := HandleAll(TakeField(s, lines[0]), lines[1..]);
      assert [] + rest.events == rest.events;
      assert before + [lines[0]] + lines[1..] == before + lines;
    }
  }

  lemma BlankClears(s: State)
    ensures var fed := HandleLine(s, "");
            && fed.events == Complete(s) && fed.state.index == s.index + |Complete(s)|
            && fed.state.data == [] && fed.state.event == None && fed.state.id == None && fed.state.retry == None
  {
  }

  lemma FieldKeepsIndex(s: State, line: string)
    ensures TakeField(s, line).index == s.index
    ensures line != "" ==> HandleLine(s, line) == Fed(TakeField(s, line), [])
  {
  }

  /* ---------- The whole stream ---------- */

  lemma {:induction false} LineFeedsAfter(text: string, i: nat)
    requires i < |text| && OneLine(text[..i]) && IsBreak(text[i])
    ensures WithLineFeeds(text) == text[..i] + ("\n" + WithLineFeeds(text[i + BreakLength(text, i)..]))
  {
    if i > 0 {
      assert text[..i][0] == text[0] && text[1..][..i - 1] == text[..i][1..];
      LineFeedsAfter(text[1..], i - 1);
      assert BreakLength(text[1..], i - 1) == BreakLength(text, i);
      assert text[1..][i - 1 + BreakLength(text, i)..] == text[i + BreakLength(text, i)..];
      assert text[..i] == [text[0]] + text[1..][..i - 1];
    } else {
      assert text[..0] == "";
    }
  }

  lemma {:induction false} NoLineFeeds(text: string)
    requires OneLine(text)
    ensures WithLineFeeds(text) == text && '\n' !in text
  {
    if text != "" {
      assert OneLine(text[1..]);
      NoLineFeeds(text[1..]);
      assert text == [text[0]] + text[1..];
    }
  }

  lemma PartsAfter(a: string, b: string)
    requires '\n' !in a
    ensures Split('\n', a + ("\n" + b)) == [a] + Split('\n', b)
  {
    hide Split;
    assert a + ("\n" + b) == a + ['\n'] + b;
    SplitOfTwo('\n', a, b);
    SplitWhole('\n', a);
  }

  // Without the part behind the last break, if that is empty.
  function Whole(parts: seq<string>): seq<string>
    requires parts != []
  {
    var n := |parts| - 1;
    if parts[n] == "" then parts[..n] else parts
  }

  lemma WholeAfter(a: string, parts: seq<string>)
    requires parts != []
    ensures Whole([a] + parts) == [a] + Whole(parts)
  {
    var all := [a] + parts;
    assert all[|all| - 1] == parts[|parts| - 1];
    assert all[..|all| - 1] == [a] + parts[..|parts| - 1];
  }

  lemma FirstLineIs(text: string, i: nat)
    requires i < |text| && OneLine(text[..i]) && IsBreak(text[i])
    ensures LinesIn(text) == [text[..i]] + LinesIn(text[i + BreakLength(text, i)..])
  {
    hide WithLineFeeds, Split, Whole;
    var rest := text[i + BreakLength(text, i)..];
    LineFeedsAfter(text, i);
    NoLineFeeds(text[..i]);
    PartsAfter(text[..i], WithLineFeeds(rest));
    WholeAfter(text[..i], Split('\n', WithLineFeeds(rest)));
    assert LinesIn(text) == Whole(Split('\n', WithLineFeeds(text))) && LinesIn(rest) == Whole(Split('\n', WithLineFeeds(rest))) by {
      LinesAreWhole(text);
      LinesAreWhole(rest);
    }
  }

  lemma LinesAreWhole(text: string)
    ensures LinesIn(text) == Whole(Split('\n', WithLineFeeds(text)))
  {
  }

  lemma NoLines()
    ensures LinesIn("") == []
  {
  }

  // What the end leaves of a buffer.
  lemma LastLineIs(text: string)
    requires FullBreak(text) == None && text != ""
    ensures LinesIn(text) == [if text[|text| - 1] == '\r' then text[..|text| - 1] else text]
  {
    var n := |text| - 1;
    if text[n] == '\r' {
      assert BreakAt(text) == n;
      FirstLineIs(text, n);
      assert text[n + 1..] == "";
      NoLines();
    } else {
      assert OneLine(text);
      NoLineFeeds(text);
      SplitWhole('\n', text);
      assert Split('\n', text) == [text];
    }
  }

  lemma {:induction false} BufferDoesNotMatter(s: State, lines: seq<string>, buffer: string)
    ensures var fed := HandleAll(s, lines);
            HandleAll(s.(buffer := buffer), lines) == Fed(fed.state.(buffer := buffer), fed.events)
    decreases |lines|
  {
    hide HandleLine;
    if lines != [] {
      OnlyBuffer(s, lines[0], buffer);
      BufferDoesNotMatter(HandleLine(s, lines[0]).state, lines[1..], buffer);
    }
  }

  lemma OneLineHandled(s: State, line: string)
    ensures HandleAll(s, [line]) == HandleLine(s, line) && HandleAll(s, []) == Fed(s, [])
  {
    hide HandleLine;
    assert [line][1..] == [] && HandleLine(s, line).events + [] == HandleLine(s, line).events;
  }

  lemma FlushIs(s: State)
    requires FullBreak(s.buffer) == None
    ensures var all := HandleAll(s.(buffer := ""), LinesIn(s.buffer));
            Flush(s).events == all.events + Complete(all.state)
  {
    hide HandleLine, LinesIn, HandleAll;
    NoLines();
    if s.buffer == "" {
      OneLineHandled(s, "");
      assert s.(buffer := "") == s;
      assert [] + Complete(s) == Complete(s);
    } else {
      LastLineIs(s.buffer);
      var line := if s.buffer[|s.buffer| - 1] == '\r' then s.buffer[..|s.buffer| - 1] else s.buffer;
      OneLineHandled(s.(buffer := ""), line);
      OnlyBuffer(s, line, "");
    }
  }

  lemma {:induction false} StreamHandled(s: State)
    ensures var fed := Drain(s);
            var all := HandleAll(s.(buffer := ""), LinesIn(s.buffer));
            fed.events + Flush(fed.state).events == all.events + Complete(all.state)
    decreases |s.buffer|
  {
    hide HandleLine, LinesIn, Flush, Complete, Drain, BreakLength;
    DrainStep(s);
    match FullBreak(s.buffer)
    case None =>
      FlushIs(s);
      assert [] + Flush(s).events == Flush(s).events;
    case Some(i) =>
      var line := FirstLine(s, i);
      var rest := s.buffer[i + BreakLength(s.buffer, i)..];
      StreamHandled(line.state);
      FirstLineIs(s.buffer, i);
      var first := HandleLine(s.(buffer := ""), s.buffer[..i]);
      OnlyBuffer(s.(buffer := ""), s.buffer[..i], rest);
      LineKeepsBuffer(s.(buffer := ""), s.buffer[..i]);
      var lines := LinesIn(rest);
      assert LinesIn(s.buffer)[0] == s.buffer[..i] && LinesIn(s.buffer)[1..] == lines;
      assert line.state.(buffer := "") == first.state;
      var later := HandleAll(first.state, lines);
      var fed := Drain(line.state);
      assert line.events + fed.events + Flush(fed.state).events == line.events + (fed.events + Flush(fed.state).events);
      assert first.events + later.events + Complete(later.state) == first.events + (later.events + Complete(later.state));
  }

  /**
   The events of any stream are those of its blocks: the lines between blank lines, and what the end cuts
   off. Each block with data gives one event, with the last event name, the last identifier without a zero
   character, the last whole number to retry after, and the data lines joined.
   */
  lemma {:induction false} StreamMeans(text: string)
    ensures Parse(text) == EventsOf(LinesIn(text), 0)
  {
    hide Drain, Flush, LinesIn, HandleAll, EventsOf, Complete;
    assert INITIAL.buffer + text == text;
    StreamHandled(INITIAL.(buffer := text));
    NothingHolds(INITIAL);
    AllHandled(INITIAL, [], LinesIn(text));
    assert INITIAL.(buffer := text).(buffer := "") == INITIAL;
    assert [] + LinesIn(text) == LinesIn(text);
  }
}
