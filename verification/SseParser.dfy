/**
 The event stream parser as the source keeps it: the text not yet read and what the lines so far have
 set are variables that each push changes. Every method is proved to do what the function of Sse does.
 */
module SseParser {
  import opened Wrappers
  import opened Numerals
  import opened Texts
  import opened Sse

  class Parser {
    var buffer: string
    var index: nat
    var data: seq<string>
    var event: Option<string>
    var id: Option<string>
    var retry: Option<nat>

    function Value(): State
      reads this
    {
      State(buffer, index, data, event, id, retry)
    }

    constructor ()
      ensures Value() == INITIAL
    {
      buffer, index, data, event, id, retry := "", 0, [], None, None, None;
    }

    /** Takes a piece of text; the events it completes. */
    method Push(text: string) returns (events: seq<SseEvent>)
      modifies this
      ensures Fed(Value(), events) == Sse.Push(old(Value()), text)
    {
      hide Sse.HandleLine, FullBreak, BreakLength, Drain;
      ghost var was := Value().(buffer := buffer + text);
      buffer := buffer + text;
      events := [];
      NothingBefore(was);
      while FullBreak(buffer).Some?
        invariant Drain(was) == Fed(Drain(Value()).state, events + Drain(Value()).events)
        decreases |buffer|
      {
        var i := FullBreak(buffer).value;
        var line := buffer[..i];
        ghost var before := Value();
        DrainStep(before);
        buffer := buffer[i + BreakLength(buffer, i)..];
        LineKeepsBuffer(Value(), line);
        var complete := HandleLine(line);
        Regrouped(events, complete, Drain(Value()).events);
        events := events + complete;
      }
      DrainStep(Value());
      assert events + [] == events;
    }

    lemma NothingBefore(s: State)
      ensures Drain(s) == Fed(Drain(s).state, [] + Drain(s).events)
    {
    }

    lemma Regrouped(a: seq<SseEvent>, b: seq<SseEvent>, c: seq<SseEvent>)
      ensures a + (b + c) == a + b + c
    {
    }

    /** The end of the stream. */
    method Flush() returns (events: seq<SseEvent>)
      modifies this
      ensures Fed(Value(), events) == Sse.Flush(old(Value()))
    {
      hide Sse.HandleLine, Complete;
      events := [];
      if buffer != "" {
        var line := if buffer[|buffer| - 1] == '\r' then buffer[..|buffer| - 1] else buffer;
        events := HandleLine(line);
        buffer := "";
      }
      var last := Dispatch();
      events := events + last;
    }

    // At most one event: none while a line only sets a field.
    method HandleLine(line: string) returns (complete: seq<SseEvent>)
      modifies this
      ensures Fed(Value(), complete) == Sse.HandleLine(old(Value()), line)
    {
      hide Complete;
      if line == "" {
        complete := Dispatch();
        return;
      }
      complete := [];
      if line[0] == ':' {
        return;
      }
      var field, value := FieldOf(line), ValueOf(line);
      if field == "data" {
        data := data + [value];
      } else if field == "event" {
        event := Some(value);
      } else if field == "id" {
        if '\0' !in value {
          id := Some(value);
        }
      } else if field == "retry" && value != "" && AllDigits(value) {
        retry := Some(ToNat(value));
      }
    }

    method Dispatch() returns (complete: seq<SseEvent>)
      modifies this
      ensures Value() == Cleared(old(Value())) && complete == Complete(old(Value()))
    {
      complete := [];
      if data != [] {
        index := index + 1;
        complete := [SseEvent(index, if event == Some("") then None else event, Join('\n', data), id, retry)];
      }
      data, event, id, retry := [], None, None, None;
    }
  }
}
