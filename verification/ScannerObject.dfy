/**
 The scanner as the source writes it: an object that keeps its place in fields, runs over a chunk with
 inner loops and adds to a range index. Every method is proved to do what the step function of Scanner
 does on the bytes it takes, so what is proved of the step function holds of the object.
 */
module ScannerObject {
  import opened Bytes
  import opened Wrappers
  import opened RangeIndex
  import opened Scanner

  datatype Phase = BETWEEN | IN_STRING | IN_CONTAINER | IN_SCALAR | SKIPPING | DONE

  const OBJECT := 1
  const LIST := 2

  // Which of the brackets on the stack are objects.
  function Kinds(stack: seq<int>): seq<bool> {
    seq(|stack|, i requires 0 <= i < |stack| => stack[i] == OBJECT)
  }

  /* ---------- Feeding from the front ---------- */

  lemma {:induction false} FeedFirst(format: Format, s: State, data: seq<Byte>, i: nat, p: int)
    requires i < |data|
    ensures Feed(format, s, data[i..], p) == Feed(format, Step(format, s, data[i], p), data[i + 1..], p + 1)
  {
    hide Step;
    assert data[i..] == [data[i]] + data[i + 1..];
    FeedAppend(format, s, [data[i]], data[i + 1..], p);
    NothingFed(format, s, p);
    assert [data[i]][..0] == [];
  }

  lemma {:induction false} FeedRun(format: Format, s: State, data: seq<Byte>, i: nat, j: nat, p: int)
    requires i <= j <= |data|
    ensures Feed(format, s, data[i..], p) == Feed(format, Feed(format, s, data[i..j], p), data[j..], p + j - i)
  {
    hide Feed;
    assert data[i..] == data[i..j] + data[j..];
    FeedAppend(format, s, data[i..j], data[j..], p);
  }

  lemma {:induction false} FailedForGood(format: Format, s: State, data: seq<Byte>, p: int)
    requires s.Failed?
    ensures Feed(format, s, data, p) == s
  {
    if data != [] {
      FailedForGood(format, s, data[..|data| - 1], p);
    }
  }

  /* ---------- Parts of a line ---------- */

  lemma {:induction false} BlanksKeep(s: State, blanks: seq<Byte>, p: int)
    requires s.Lines? && forall i :: 0 <= i < |blanks| ==> IsSpace(blanks[i]) && blanks[i] != LF
    ensures Feed(JsonLines, s, blanks, p) == s
  {
    if blanks != [] {
      BlanksKeep(s, blanks[..|blanks| - 1], p);
    }
  }

  lemma {:induction false} ContentStarts(s: State, part: seq<Byte>, p: int)
    requires s.Lines? && part != [] && forall i :: 0 <= i < |part| ==> part[i] != LF
    requires s.content.Some? || !IsSpace(part[0])
    ensures var t := Feed(JsonLines, s, part, p);
            && t.Lines? && t.entries == s.entries && t.content.Some?
            && t.content.value.start == (if s.content.Some? then s.content.value.start else p)
            && (!IsSpace(part[|part| - 1]) ==> t.content.value.end == p + |part|)
  {
    var n := |part| - 1;
    if n > 0 {
      ContentStarts(s, part[..n], p);
    } else {
      assert part[..0] == [];
      NothingFed(JsonLines, s, p);
    }
  }

  // A part without a line break: blanks, content that begins and ends solid, blanks.
  lemma {:induction false} PartFed(s: State, data: seq<Byte>, from: nat, first: nat, last: nat, end: nat, p: int)
    requires s.Lines? && from <= first <= last <= end <= |data|
    requires forall i :: from <= i < end ==> data[i] != LF
    requires forall i :: from <= i < first || last <= i < end ==> IsSpace(data[i])
    requires first < last ==> !IsSpace(data[last - 1]) && (s.content == None ==> !IsSpace(data[first]))
    ensures Feed(JsonLines, s, data[from..end], p) ==
            if first == last then s
            else s.(content := Some(Content(
                       if s.content.Some? then s.content.value.start else p + first - from, p + last - from)))
  {
    hide Feed;
    var a, b, c := data[from..first], data[first..last], data[last..end];
    assert data[from..end] == a + b + c;
    FeedAppend(JsonLines, s, a + b, c, p);
    FeedAppend(JsonLines, s, a, b, p);
    BlanksKeep(s, a, p);
    if b == [] {
      NothingFed(JsonLines, s, p + |a|);
      BlanksKeep(s, c, p + |a|);
    } else {
      ContentStarts(s, b, p + |a|);
      BlanksKeep(Feed(JsonLines, s, b, p + |a|), c, p + |a| + |b|);
    }
  }

  method IndexOfLineFeed(data: seq<Byte>, from: nat) returns (found: int)
    requires from <= |data|
    ensures found == -1 ==> forall i :: from <= i < |data| ==> data[i] != LF
    ensures found != -1 ==> from <= found < |data| && data[found] == LF && forall i :: from <= i < found ==> data[i] != LF
  {
    found := from;
    while found < |data|
      invariant from <= found <= |data| && forall i :: from <= i < found ==> data[i] != LF
    {
      if data[found] == LF {
        return;
      }
      found := found + 1;
    }
    found := -1;
  }

  /* ---------- The object ---------- */

  class JsonDocumentScanner {
    const format: Format
    const index: RangeIndex
    const stack: array<int>

    var contentStart: int
    var contentEnd: int

    var phase: Phase
    var started: bool
    var elementStart: int
    var depth: nat
    var escaped: bool
    var stringIsElement: bool
    var sawNewline: bool

    // What holds even after the index has refused a range.
    ghost predicate Sound()
      reads this, index, index.Repr, stack
    {
      index.Valid() && this !in index.Repr && stack !in index.Repr && stack.Length == MAX_DEPTH
    }

    ghost predicate Valid()
      reads this, index, index.Repr, stack
    {
      && Sound()
      && (phase == IN_CONTAINER || (phase == IN_STRING && !stringIsElement) ==>
            0 < depth <= MAX_DEPTH && forall i :: 0 <= i < depth ==> stack[i] == OBJECT || stack[i] == LIST)
    }

    ghost function Place(): Mode
      requires Valid()
      reads this, index, index.Repr, stack
    {
      match phase
      case BETWEEN => Between
      case IN_STRING => InString(elementStart, escaped, if stringIsElement then [] else Kinds(stack[..depth]))
      case IN_CONTAINER => InContainer(elementStart, Kinds(stack[..depth]))
      case IN_SCALAR => InScalar(elementStart)
      case SKIPPING => Skipping(sawNewline)
      case DONE => Done
    }

    // The state of the step function that the fields stand for.
    ghost function Machine(): State
      requires Valid()
      reads this, index, index.Repr, stack
    {
      if format == JsonLines
      then Lines(if contentStart >= 0 then Some(Content(contentStart, contentEnd)) else None, index.ranges)
      else Values(Place(), started, index.ranges)
    }

    // From `was`, the bytes from `from` on come to the same as those from `i` on do from here; or, once
    // the index has refused a range, to that failure.
    ghost predicate Reached(was: State, data: seq<Byte>, from: nat, i: nat, offset: nat, error: Option<AddError>)
      requires (error == None ==> Valid()) && from <= i <= |data|
      reads this, index, index.Repr, stack
    {
      Feed(format, was, data[from..], offset + from) ==
      if error.Some? then Failed(error.value, index.ranges) else Feed(format, Machine(), data[i..], offset + i)
    }

    constructor (format: Format)
      ensures Valid() && this.format == format && fresh(index) && fresh(index.Repr) && fresh(stack)
      ensures Machine() == Initial(format)
    {
      this.format := format;
      index := new RangeIndex();
      stack := new int[MAX_DEPTH];
      contentStart, contentEnd := -1, 0;
      phase, started, elementStart, depth := BETWEEN, false, 0, 0;
      escaped, stringIsElement, sawNewline := false, false, false;
    }

    /** Takes one chunk, whose first byte is at `offset` of the file. */
    method Take(data: seq<Byte>, offset: nat) returns (error: Option<AddError>)
      requires Valid()
      modifies this, index, index.Repr, stack
      ensures Sound() && (error == None ==> Valid()) && fresh(index.Repr - old(index.Repr))
      ensures Feed(format, old(Machine()), data, offset) ==
              if error.Some? then Failed(error.value, index.ranges) else Machine()
    {
      hide Feed, Step, RangeIndex.Valid;
      if format == JsonLines {
        error := FeedLines(data, offset);
      } else {
        error := FeedValues(data, offset);
      }
      assert data[0..] == data && data[|data|..] == [];
      if error == None {
        NothingFed(format, Machine(), offset + |data|);
      }
    }

    /** The end of the file: what it cuts off is recorded. */
    method Close(totalBytes: nat) returns (error: Option<AddError>)
      requires Valid()
      modifies index, index.Repr
      ensures Sound() && (error == None ==> Valid()) && fresh(index.Repr - old(index.Repr))
      ensures var end := Finish(old(Machine()), totalBytes);
              end.entries == index.ranges && if error.Some? then end == Failed(error.value, index.ranges) else !end.Failed?
    {
      hide RangeIndex.Valid;
      error := None;
      if format == JsonLines {
        if contentStart >= 0 {
          error := index.Add(contentStart, contentEnd, 0);
        }
      } else if phase == IN_STRING || phase == IN_CONTAINER || phase == IN_SCALAR {
        error := index.Add(elementStart, totalBytes, if phase == IN_SCALAR then 0 else DOC_ERROR + DOC_TRUNCATED);
      }
    }

    /* ---------- JSON Lines ---------- */

    method FeedLines(data: seq<Byte>, offset: nat) returns (error: Option<AddError>)
      requires Valid() && format == JsonLines
      modifies this, index, index.Repr
      ensures Sound() && (error == None ==> Valid()) && fresh(index.Repr - old(index.Repr))
      ensures Reached(old(Machine()), data, 0, |data|, offset, error)
    {
      hide Feed, Step, Machine, RangeIndex.Valid;
      ghost var was := Machine();
      var position := 0;
      while position < |data|
        invariant Valid() && fresh(index.Repr - old(index.Repr)) && position <= |data|
        invariant Reached(was, data, 0, position, offset, None)
      {
        var found := IndexOfLineFeed(data, position);
        var end := if found == -1 then |data| else found;
        ghost var before := Machine();
        TakeLinePart(data, position, end, offset);
        FeedRun(format, before, data, position, end, offset + position);
        if found == -1 {
          return None;
        }
        FeedFirst(format, Machine(), data, end, offset + end);
        error := EndLine(offset + end);
        if error.Some? {
          FailedForGood(format, Failed(error.value, index.ranges), data[end + 1..], offset + end + 1);
          return;
        }
        position := found + 1;
      }
      error := None;
    }

    method EndLine(p: nat) returns (error: Option<AddError>)
      requires Valid() && format == JsonLines
      modifies this`contentStart, index, index.Repr
      ensures Sound() && (error == None ==> Valid()) && fresh(index.Repr - old(index.Repr))
      ensures Step(format, old(Machine()), LF, p) ==
              if error.Some? then Failed(error.value, index.ranges) else Machine()
    {
      hide Refusal, RangeIndex.Valid;
      error := None;
      if contentStart >= 0 {
        error := index.Add(contentStart, contentEnd, 0);
      }
      if error == None {
        contentStart := -1;
      }
    }

    // Folds the part of a line that lies in this chunk into the content of the line.
    method TakeLinePart(data: seq<Byte>, from: nat, end: nat, offset: nat)
      requires Valid() && format == JsonLines && from <= end <= |data|
      requires forall i :: from <= i < end ==> data[i] != LF
      modifies this`contentStart, this`contentEnd
      ensures Valid() && Machine() == Feed(JsonLines, old(Machine()), data[from..end], offset + from)
    {
      hide Feed, RangeIndex.Valid;
      ghost var was := Machine();
      var first := from;
      if contentStart < 0 {
        while first < end && IsSpace(data[first])
          invariant from <= first <= end && forall i :: from <= i < first ==> IsSpace(data[i])
        {
          first := first + 1;
        }
        if first == end {
          PartFed(was, data, from, end, end, end, offset + from);
          return;
        }
        contentStart := offset + first;
      }
      var last := end;
      while last > first && IsSpace(data[last - 1])
        invariant first <= last <= end && forall i :: last <= i < end ==> IsSpace(data[i])
      {
        last := last - 1;
      }
      if last > first {
        contentEnd := offset + last;
      }
      PartFed(was, data, from, first, last, end, offset + from);
    }

    /* ---------- Array and sequence ---------- */

    method FeedValues(data: seq<Byte>, offset: nat) returns (error: Option<AddError>)
      requires Valid() && format != JsonLines
      modifies this, index, index.Repr, stack
      ensures Sound() && (error == None ==> Valid()) && fresh(index.Repr - old(index.Repr))
      ensures Reached(old(Machine()), data, 0, |data|, offset, error)
    {
      hide Feed, Step, Machine, RangeIndex.Valid;
      ghost var was := Machine();
      var i := 0;
      error := None;
      while i < |data|
        invariant Valid() && fresh(index.Repr - old(index.Repr)) && i <= |data|
        invariant error == None && Reached(was, data, 0, i, offset, None)
        decreases |data| - i, if phase == SKIPPING || phase == IN_SCALAR then 1 else 0
      {
        ghost var before, from := Machine(), i;
        assert Feed(format, was, data[0..], offset) == Feed(format, before, data[from..], offset + from);
        i, error := OneTurn(data, i, offset);
        if error.Some? {
          return;
        }
      }
    }

    // One turn of the loop, by where the scan stands.
    method OneTurn(data: seq<Byte>, from: nat, offset: nat) returns (i: nat, error: Option<AddError>)
      requires Valid() && format != JsonLines && from < |data|
      modifies this, index, index.Repr, stack
      ensures Sound() && (error == None ==> Valid()) && fresh(index.Repr - old(index.Repr))
      ensures from <= i <= |data| && (i == from && error == None ==> phase == BETWEEN && old(phase) != BETWEEN)
      ensures i == from ==> old(phase) == SKIPPING || old(phase) == IN_SCALAR
      ensures Reached(old(Machine()), data, from, i, offset, error)
    {
      hide Feed, Step, Machine, RangeIndex.Valid;
      error := None;
      match phase
      case DONE =>
        IdleByte(data[from], offset + from);
        FeedFirst(format, Machine(), data, from, offset + from);
        i := from + 1;
      case SKIPPING =>
        i := Skip(data, from, offset);
      case BETWEEN =>
        i, error := BetweenRun(data, from, offset);
      case IN_STRING =>
        i, error := StringRun(data, from, offset);
      case IN_SCALAR =>
        i, error := Scalar(data, from, offset);
      case IN_CONTAINER =>
        i, error := ContainerRun(data, from, offset);
    }

    lemma IdleByte(b: Byte, p: int)
      requires Valid() && phase == DONE && format != JsonLines
      ensures Step(format, Machine(), b, p) == Machine()
    {
    }

    // One byte after damage. The byte that opens a value on a new line is not taken yet.
    method Skip(data: seq<Byte>, from: nat, offset: nat) returns (i: nat)
      requires Valid() && phase == SKIPPING && format != JsonLines && from < |data|
      modifies this`phase, this`sawNewline
      ensures Valid() && from <= i <= |data| && (i == from ==> phase == BETWEEN)
      ensures Reached(old(Machine()), data, from, i, offset, None)
    {
      hide Feed, BetweenStep, StringStep, ContainerStep, ScalarStep, LineStep;
      var b := data[from];
      FeedFirst(format, Machine(), data, from, offset + from);
      if b == LF {
        sawNewline := true;
      } else if !IsSpace(b) && b != COMMA {
        if sawNewline && (b == OPEN_OBJECT || b == OPEN_LIST) {
          sawNewline := false;
          phase := BETWEEN;
          FeedFirst(format, Machine(), data, from, offset + from);
          return from;
        }
        sawNewline := false;
      }
      i := from + 1;
    }

    // One byte of a number or word. The byte that ends it is not taken yet.
    method Scalar(data: seq<Byte>, from: nat, offset: nat) returns (i: nat, error: Option<AddError>)
      requires Valid() && phase == IN_SCALAR && format != JsonLines && from < |data|
      modifies this`phase, index, index.Repr
      ensures Sound() && (error == None ==> Valid()) && fresh(index.Repr - old(index.Repr))
      ensures from <= i <= |data| && (i == from && error == None ==> phase == BETWEEN)
      ensures Reached(old(Machine()), data, from, i, offset, error)
    {
      hide Feed, BetweenStep, StringStep, ContainerStep, SkipStep, LineStep, Refusal, RangeIndex.Valid;
      var b := data[from];
      i, error := from, None;
      FeedFirst(format, Machine(), data, from, offset + from);
      if IsSpace(b) || b == COMMA || b == CLOSE_LIST || b == CLOSE_OBJECT {
        error := index.Add(elementStart, offset + from, 0);
        if error == None {
          phase := BETWEEN;
          FeedFirst(format, Machine(), data, from, offset + from);
        } else {
          FailedForGood(format, Failed(error.value, index.ranges), data[from + 1..], offset + from + 1);
        }
      } else {
        i := i + 1;
      }
    }

    // Records the damaged part and goes on to skip.
    method Damaged(start: int, end: int) returns (error: Option<AddError>)
      requires Valid() && format != JsonLines
      modifies this`depth, this`escaped, this`sawNewline, this`phase, index, index.Repr
      ensures Sound() && (error == None ==> Valid()) && fresh(index.Repr - old(index.Repr))
      ensures Damage(old(Machine()), start, end) == if error.Some? then Failed(error.value, index.ranges) else Machine()
    {
      hide RangeIndex.Valid;
      error := index.Add(start, end, DOC_ERROR);
      if error == None {
        depth, escaped, sawNewline, phase := 0, false, false, SKIPPING;
      }
    }

    method BetweenRun(data: seq<Byte>, from: nat, offset: nat) returns (i: nat, error: Option<AddError>)
      requires Valid() && phase == BETWEEN && format != JsonLines && from < |data|
      modifies this, index, index.Repr, stack
      ensures Sound() && (error == None ==> Valid()) && fresh(index.Repr - old(index.Repr)) && from < i <= |data|
      ensures Reached(old(Machine()), data, from, i, offset, error)
    {
      hide Feed, Step, BetweenStep, Machine, RangeIndex.Valid;
      ghost var was := Machine();
      i, error := from, None;
      while i < |data|
        invariant Valid() && phase == BETWEEN && from <= i <= |data|
        invariant index.Repr == old(index.Repr)
        invariant error == None && Reached(was, data, from, i, offset, None)
      {
        var stop;
        ghost var before := Machine();
        FeedFirst(format, before, data, i, offset + i);
        stop, error := BetweenByte(data[i], offset + i);
        i := i + 1;
        if error.Some? {
          FailedForGood(format, Failed(error.value, index.ranges), data[i..], offset + i);
        }
        if stop {
          return;
        }
      }
    }

    // One byte between values; `stop` when a value, the end of the array or damage begins.
    method BetweenByte(b: Byte, p: nat) returns (stop: bool, error: Option<AddError>)
      requires Valid() && phase == BETWEEN && format != JsonLines
      modifies this, index, index.Repr, stack
      ensures Sound() && (error == None ==> Valid()) && fresh(index.Repr - old(index.Repr))
      ensures error.Some? ==> stop
      ensures !stop ==> phase == BETWEEN && error == None && index.Repr == old(index.Repr)
      ensures Step(format, old(Machine()), b, p) ==
              if error.Some? then Failed(error.value, index.ranges) else Machine()
    {
      hide Feed, StringStep, ContainerStep, ScalarStep, SkipStep, LineStep, Damage, RangeIndex.Valid;
      stop, error := true, None;
      if IsSpace(b) || b == COMMA {
        return false, None;
      }
      if format == ArrayFile && !started {
        if IsByteOrderMark(b) {
          return false, None;
        }
        if b == OPEN_LIST {
          started := true;
          return false, None;
        }
        error := Damaged(p, p + 1);
        return;
      }
      if b == CLOSE_LIST && format == ArrayFile {
        phase := DONE;
        return;
      }
      elementStart := p;
      if b == OPEN_OBJECT || b == OPEN_LIST {
        stack[0] := if b == OPEN_OBJECT then OBJECT else LIST;
        depth := 1;
        phase := IN_CONTAINER;
        assert Kinds(stack[..depth]) == [b == OPEN_OBJECT];
        return;
      }
      if b == QUOTE {
        phase, stringIsElement, escaped := IN_STRING, true, false;
        return;
      }
      if b == CLOSE_OBJECT || b == CLOSE_LIST || b == COLON {
        error := Damaged(p, p + 1);
        return;
      }
      phase := IN_SCALAR;
    }

    method StringRun(data: seq<Byte>, from: nat, offset: nat) returns (i: nat, error: Option<AddError>)
      requires Valid() && phase == IN_STRING && format != JsonLines && from < |data|
      modifies this, index, index.Repr
      ensures Sound() && (error == None ==> Valid()) && fresh(index.Repr - old(index.Repr)) && from < i <= |data|
      ensures Reached(old(Machine()), data, from, i, offset, error)
    {
      hide Feed, Step, Machine, RangeIndex.Valid;
      ghost var was := Machine();
      i, error := from, None;
      while i < |data|
        invariant Valid() && phase == IN_STRING && from <= i <= |data|
        invariant index.Repr == old(index.Repr)
        invariant error == None && Reached(was, data, from, i, offset, None)
      {
        var stop;
        FeedFirst(format, Machine(), data, i, offset + i);
        stop, error := StringByte(data[i], offset + i);
        i := i + 1;
        if error.Some? {
          FailedForGood(format, Failed(error.value, index.ranges), data[i..], offset + i);
        }
        if stop {
          return;
        }
      }
    }

    // One byte of a string; `stop` when the string ends.
    method StringByte(b: Byte, p: nat) returns (stop: bool, error: Option<AddError>)
      requires Valid() && phase == IN_STRING && format != JsonLines
      modifies this, index, index.Repr
      ensures Sound() && (error == None ==> Valid()) && fresh(index.Repr - old(index.Repr))
      ensures error.Some? ==> stop
      ensures !stop ==> phase == IN_STRING && error == None && index.Repr == old(index.Repr)
      ensures Step(format, old(Machine()), b, p) ==
              if error.Some? then Failed(error.value, index.ranges) else Machine()
    {
      hide Feed, BetweenStep, ContainerStep, ScalarStep, SkipStep, LineStep, Refusal, RangeIndex.Valid;
      stop, error := false, None;
      if escaped {
        escaped := false;
      } else if b == BACKSLASH {
        escaped := true;
      } else if b == QUOTE {
        stop := true;
        if stringIsElement {
          error := index.Add(elementStart, p + 1, 0);
          if error == None {
            phase := BETWEEN;
          }
        } else {
          phase := IN_CONTAINER;
        }
      }
    }

    method ContainerRun(data: seq<Byte>, from: nat, offset: nat) returns (i: nat, error: Option<AddError>)
      requires Valid() && phase == IN_CONTAINER && format != JsonLines && from < |data|
      modifies this, index, index.Repr, stack
      ensures Sound() && (error == None ==> Valid()) && fresh(index.Repr - old(index.Repr)) && from < i <= |data|
      ensures Reached(old(Machine()), data, from, i, offset, error)
    {
      hide Feed, Step, Machine, RangeIndex.Valid;
      ghost var was := Machine();
      i, error := from, None;
      while i < |data|
        invariant Valid() && phase == IN_CONTAINER && from <= i <= |data|
        invariant index.Repr == old(index.Repr)
        invariant error == None && Reached(was, data, from, i, offset, None)
      {
        var stop;
        FeedFirst(format, Machine(), data, i, offset + i);
        stop, error := ContainerByte(data[i], offset + i);
        i := i + 1;
        if error.Some? {
          FailedForGood(format, Failed(error.value, index.ranges), data[i..], offset + i);
        }
        if stop {
          return;
        }
      }
    }

    // One byte of an object or array; `stop` when it ends, a string begins or it is damaged.
    method ContainerByte(b: Byte, p: nat) returns (stop: bool, error: Option<AddError>)
      requires Valid() && phase == IN_CONTAINER && format != JsonLines
      modifies this, index, index.Repr, stack
      ensures Sound() && (error == None ==> Valid()) && fresh(index.Repr - old(index.Repr))
      ensures error.Some? ==> stop
      ensures !stop ==> phase == IN_CONTAINER && error == None && index.Repr == old(index.Repr)
      ensures Step(format, old(Machine()), b, p) ==
              if error.Some? then Failed(error.value, index.ranges) else Machine()
    {
      hide Feed, BetweenStep, StringStep, ScalarStep, SkipStep, LineStep, Refusal, Damage;
      stop, error := false, None;
      if b == QUOTE {
        phase, stringIsElement, escaped := IN_STRING, false, false;
        return true, None;
      }
      if b == OPEN_OBJECT || b == OPEN_LIST {
        stop, error := OpeningByte(b, p);
      } else if b == CLOSE_OBJECT || b == CLOSE_LIST {
        stop, error := ClosingByte(b, p);
      }
    }

    method OpeningByte(b: Byte, p: nat) returns (stop: bool, error: Option<AddError>)
      requires Valid() && phase == IN_CONTAINER && format != JsonLines && (b == OPEN_OBJECT || b == OPEN_LIST)
      modifies this, index, index.Repr, stack
      ensures Sound() && (error == None ==> Valid()) && fresh(index.Repr - old(index.Repr))
      ensures error.Some? ==> stop
      ensures !stop ==> phase == IN_CONTAINER && error == None && index.Repr == old(index.Repr)
      ensures ContainerStep(old(Machine()), b, p) ==
              if error.Some? then Failed(error.value, index.ranges) else Machine()
    {
      hide Refusal, Damage, RangeIndex.Valid;
      if depth >= MAX_DEPTH {
        error := Damaged(elementStart, p + 1);
        return true, error;
      }
      stack[depth] := if b == OPEN_OBJECT then OBJECT else LIST;
      depth := depth + 1;
      assert Kinds(stack[..depth]) == old(Kinds(stack[..depth])) + [b == OPEN_OBJECT];
      return false, None;
    }

    method ClosingByte(b: Byte, p: nat) returns (stop: bool, error: Option<AddError>)
      requires Valid() && phase == IN_CONTAINER && format != JsonLines && (b == CLOSE_OBJECT || b == CLOSE_LIST)
      modifies this, index, index.Repr, stack
      ensures Sound() && (error == None ==> Valid()) && fresh(index.Repr - old(index.Repr))
      ensures error.Some? ==> stop
      ensures !stop ==> phase == IN_CONTAINER && error == None && index.Repr == old(index.Repr)
      ensures ContainerStep(old(Machine()), b, p) ==
              if error.Some? then Failed(error.value, index.ranges) else Machine()
    {
      hide Refusal, Damage, RangeIndex.Valid;
      stop, error := false, None;
      var expected := stack[depth - 1];
      if (b == CLOSE_OBJECT && expected != OBJECT) || (b == CLOSE_LIST && expected != LIST) {
        error := Damaged(elementStart, p + 1);
        return true, error;
      }
      depth := depth - 1;
      assert Kinds(stack[..depth]) == old(Kinds(stack[..depth]))[..depth];
      if depth == 0 {
        error := index.Add(elementStart, p + 1, 0);
        if error == None {
          phase := BETWEEN;
        }
        return true, error;
      }
    }
  }
}
