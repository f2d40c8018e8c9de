/**
 The incremental document finder of packages/document-engine/src/scanner.ts, as a step function on
 one byte at a time, and the scanner object that runs over whole chunks with inner loops. The object
 is proved to do what the step function does, which makes its result independent of the chunks.
 */
module Scanner {
  import opened Bytes
  import opened Wrappers
  import opened Texts
  import opened RangeIndex

  datatype Format = JsonLines | ArrayFile | SequenceFile

  const DOC_ERROR := 1
  const DOC_TRUNCATED := 2
  const MAX_DEPTH: nat := 4096

  const LF: Byte := 10
  const QUOTE: Byte := 34
  const COMMA: Byte := 44
  const COLON: Byte := 58
  const OPEN_LIST: Byte := 91
  const BACKSLASH: Byte := 92
  const CLOSE_LIST: Byte := 93
  const OPEN_OBJECT: Byte := 123
  const CLOSE_OBJECT: Byte := 125

  predicate IsSpace(b: Byte) {
    b == 32 || b == 9 || b == 10 || b == 13
  }

  predicate IsByteOrderMark(b: Byte) {
    b == 0xef || b == 0xbb || b == 0xbf
  }

  /* ---------- The step function ---------- */

  // Where an array or sequence scan stands. A stack of open brackets (true: an object) goes with a
  // string only when the string is part of a container.
  datatype Mode =
    | Between
    | InString(start: int, escaped: bool, stack: seq<bool>)
    | InContainer(start: int, stack: seq<bool>)
    | InScalar(start: int)
    | Skipping(sawNewline: bool)
    | Done

  datatype Content = Content(start: int, end: int)

  datatype State =
    | Values(mode: Mode, started: bool, entries: seq<Range>)
    | Lines(content: Option<Content>, entries: seq<Range>)
    | Failed(error: AddError, entries: seq<Range>)

  function Initial(format: Format): State {
    if format == JsonLines then Lines(None, []) else Values(Between, false, [])
  }

  // Records a range and goes on as `next`, unless the index refuses it.
  function Record(s: State, start: int, end: int, flags: nat, next: State): State {
    match Refusal(s.entries, start, end)
    case Some(error) => Failed(error, s.entries)
    case None =>
      var entries := s.entries + [Range(start, end, StoredFlags(flags))];
      match next
      case Values(mode, started, _) => Values(mode, started, entries)
      case Lines(content, _) => Lines(content, entries)
      case Failed(error, _) => Failed(error, entries)
  }

  function Damage(s: State, start: int, end: int): State
    requires s.Values?
  {
    Record(s, start, end, DOC_ERROR, s.(mode := Skipping(false)))
  }

  function BetweenStep(format: Format, s: State, b: Byte, p: int): State
    requires s.Values?
  {
    if IsSpace(b) || b == COMMA then s
    else if format == ArrayFile && !s.started then
      if IsByteOrderMark(b) then s
      else if b == OPEN_LIST then s.(started := true)
      else Damage(s, p, p + 1)
    else if b == CLOSE_LIST && format == ArrayFile then s.(mode := Done)
    else if b == OPEN_OBJECT || b == OPEN_LIST then s.(mode := InContainer(p, [b == OPEN_OBJECT]))
    else if b == QUOTE then s.(mode := InString(p, false, []))
    else if b == CLOSE_OBJECT || b == CLOSE_LIST || b == COLON then Damage(s, p, p + 1)
    else s.(mode := InScalar(p))
  }

  function StringStep(s: State, b: Byte, p: int): State
    requires s.Values? && s.mode.InString?
  {
    var m := s.mode;
    if m.escaped then s.(mode := m.(escaped := false))
    else if b == BACKSLASH then s.(mode := m.(escaped := true))
    else if b == QUOTE then
      if m.stack == [] then Record(s, m.start, p + 1, 0, s.(mode := Between))
      else s.(mode := InContainer(m.start, m.stack))
    else s
  }

  function ContainerStep(s: State, b: Byte, p: int): State
    requires s.Values? && s.mode.InContainer? && s.mode.stack != []
  {
    var m := s.mode;
    if b == QUOTE then s.(mode := InString(m.start, false, m.stack))
    else if b == OPEN_OBJECT || b == OPEN_LIST then
      if |m.stack| >= MAX_DEPTH then Damage(s, m.start, p + 1)
      else s.(mode := InContainer(m.start, m.stack + [b == OPEN_OBJECT]))
    else if b == CLOSE_OBJECT || b == CLOSE_LIST then
      var inner := m.stack[..|m.stack| - 1];
      if m.stack[|m.stack| - 1] != (b == CLOSE_OBJECT) then Damage(s, m.start, p + 1)
      else if inner == [] then Record(s, m.start, p + 1, 0, s.(mode := Between))
      else s.(mode := InContainer(m.start, inner))
    else s
  }

  function ScalarStep(format: Format, s: State, b: Byte, p: int): State
    requires s.Values? && s.mode.InScalar?
  {
    if IsSpace(b) || b == COMMA || b == CLOSE_LIST || b == CLOSE_OBJECT then
      var t := Record(s, s.mode.start, p, 0, s.(mode := Between));
      if t.Values? then BetweenStep(format, t, b, p) else t
    else s
  }

  function SkipStep(format: Format, s: State, b: Byte, p: int): State
    requires s.Values? && s.mode.Skipping?
  {
    if b == LF then s.(mode := Skipping(true))
    else if IsSpace(b) || b == COMMA then s
    else if s.mode.sawNewline && (b == OPEN_OBJECT || b == OPEN_LIST) then BetweenStep(format, s.(mode := Between), b, p)
    else s.(mode := Skipping(false))
  }

  function LineStep(s: State, b: Byte, p: int): State
    requires s.Lines?
  {
    if b == LF then
      match s.content
      case None => s
      case Some(c) => Record(s, c.start, c.end, 0, s.(content := None))
    else if IsSpace(b) then s
    else s.(content := Some(Content(if s.content.Some? then s.content.value.start else p, p + 1)))
  }

  // One byte, at position `p` of the file. A scan whose index refused a range does nothing more.
  function Step(format: Format, s: State, b: Byte, p: int): State {
    match s
    case Failed(_, _) => s
    case Lines(_, _) => LineStep(s, b, p)
    case Values(mode, _, _) =>
      match mode
      case Between => BetweenStep(format, s, b, p)
      case InString(_, _, _) => StringStep(s, b, p)
      case InContainer(_, stack) => if stack == [] then s else ContainerStep(s, b, p)
      case InScalar(_) => ScalarStep(format, s, b, p)
      case Skipping(_) => SkipStep(format, s, b, p)
      case Done => s
  }

  // A run of bytes that starts at position `p`.
  function Feed(format: Format, s: State, bytes: seq<Byte>, p: int): State {
    if |bytes| == 0 then s
    else Step(format, Feed(format, s, bytes[..|bytes| - 1], p), bytes[|bytes| - 1], p + |bytes| - 1)
  }

  // The end of the file, at position `totalBytes`.
  function Finish(s: State, totalBytes: int): State {
    match s
    case Failed(_, _) => s
    case Lines(content, _) =>
      if content.Some? then Record(s, content.value.start, content.value.end, 0, s) else s
    case Values(mode, _, _) =>
      match mode
      case InScalar(start) => Record(s, start, totalBytes, 0, s)
      case InString(start, _, _) => Record(s, start, totalBytes, DOC_ERROR + DOC_TRUNCATED, s)
      case InContainer(start, _) => Record(s, start, totalBytes, DOC_ERROR + DOC_TRUNCATED, s)
      case _ => s
  }

  // Chunks fed one after another, each at the position where the one before ended.
  function FeedChunks(format: Format, s: State, chunks: seq<seq<Byte>>, p: int): State {
    if |chunks| == 0 then s
    else
      var init := chunks[..|chunks| - 1];
      Feed(format, FeedChunks(format, s, init, p), chunks[|chunks| - 1], p + |Concat(init)|)
  }

  lemma NothingFed(format: Format, s: State, p: int)
    ensures Feed(format, s, [], p) == s
  {
  }

  lemma {:induction false} FeedAppend(format: Format, s: State, a: seq<Byte>, b: seq<Byte>, p: int)
    ensures Feed(format, s, a + b, p) == Feed(format, Feed(format, s, a, p), b, p + |a|)
  {
    hide Step;
    if b == [] {
      assert a + b == a;
    } else {
      var n := |b| - 1;
      FeedAppend(format, s, a, b[..n], p);
      assert (a + b)[..|a + b| - 1] == a + b[..n];
    }
  }

  /** However a file is cut into chunks, scanning the chunks is scanning the file. */
  lemma {:induction false} ChunksDoNotMatter(format: Format, s: State, chunks: seq<seq<Byte>>, p: int)
    ensures FeedChunks(format, s, chunks, p) == Feed(format, s, Concat(chunks), p)
  {
    hide Step, Feed;
    if chunks != [] {
      var n := |chunks| - 1;
      ChunksDoNotMatter(format, s, chunks[..n], p);
      FeedAppend(format, s, Concat(chunks[..n]), chunks[n], p);
    } else {
      NothingFed(format, s, p);
    }
  }

  /* ---------- What every scan keeps ---------- */

  // The ranges so far lie before the place the scan has reached, and before what it is inside.
  predicate InPlace(s: State, p: int) {
    && Ordered(s.entries)
    && match s
       case Failed(error, _) => error == TooLarge
       case Lines(content, _) =>
         LastEnd(s.entries) <= p
         && (content.Some? ==> LastEnd(s.entries) <= content.value.start < content.value.end <= p)
       case Values(mode, _, _) =>
         LastEnd(s.entries) <= p &&
         match mode
         case InString(start, _, stack) => LastEnd(s.entries) <= start < p && |stack| <= MAX_DEPTH
         case InContainer(start, stack) => LastEnd(s.entries) <= start < p && 0 < |stack| <= MAX_DEPTH
         case InScalar(start) => LastEnd(s.entries) <= start < p
         case _ => true
  }

  lemma {:induction false} RecordInPlace(s: State, start: int, end: int, flags: nat, next: State, p: int)
    requires InPlace(s, p) && LastEnd(s.entries) <= start <= end <= p + 1
    requires next.Values? ==> !next.mode.InString? && !next.mode.InContainer? && !next.mode.InScalar?
    requires next.Lines? ==> next.content == None
    requires !next.Failed?
    ensures InPlace(Record(s, start, end, flags, next), p + 1)
    ensures end <= p ==> InPlace(Record(s, start, end, flags, next), p)
  {
    if Refusal(s.entries, start, end) == None {
      OrderedAppend(s.entries, Range(start, end, StoredFlags(flags)));
    }
  }

  lemma {:induction false} BetweenInPlace(format: Format, s: State, b: Byte, p: int)
    requires s.Values? && s.mode == Between && InPlace(s, p)
    ensures InPlace(BetweenStep(format, s, b, p), p + 1)
  {
    hide Ordered;
    RecordInPlace(s, p, p + 1, DOC_ERROR, s.(mode := Skipping(false)), p);
  }

  lemma {:induction false} StepInPlace(format: Format, s: State, b: Byte, p: int)
    requires InPlace(s, p)
    ensures InPlace(Step(format, s, b, p), p + 1)
  {
    hide Ordered, Refusal, BetweenStep;
    match s
    case Failed(_, _) =>
    case Lines(content, _) =>
      if content.Some? {
        RecordInPlace(s, content.value.start, content.value.end, 0, s.(content := None), p);
      }
    case Values(mode, _, _) =>
      match mode
      case Between => BetweenInPlace(format, s, b, p);
      case InString(start, _, _) => RecordInPlace(s, start, p + 1, 0, s.(mode := Between), p);
      case InContainer(start, _) =>
        RecordInPlace(s, start, p + 1, 0, s.(mode := Between), p);
        RecordInPlace(s, start, p + 1, DOC_ERROR, s.(mode := Skipping(false)), p);
      case InScalar(start) =>
        RecordInPlace(s, start, p, 0, s.(mode := Between), p);
        var t := Record(s, start, p, 0, s.(mode := Between));
        if t.Values? {
          BetweenInPlace(format, t, b, p);
        }
      case Skipping(_) => BetweenInPlace(format, s.(mode := Between), b, p);
      case Done =>
  }

  lemma {:induction false} FeedInPlace(format: Format, s: State, bytes: seq<Byte>, p: int)
    requires InPlace(s, p)
    ensures InPlace(Feed(format, s, bytes, p), p + |bytes|)
  {
    hide Step, InPlace;
    if bytes != [] {
      var n := |bytes| - 1;
      FeedInPlace(format, s, bytes[..n], p);
      StepInPlace(format, Feed(format, s, bytes[..n], p), bytes[n], p + n);
    }
  }

  /**
   On any bytes at all the recorded ranges are in order and do not overlap, so the index never
   refuses one for its place; it can only find an item too large.
   */
  lemma {:induction false} AnyBytesInOrder(format: Format, bytes: seq<Byte>)
    ensures var s := Finish(Feed(format, Initial(format), bytes, 0), |bytes|);
            Ordered(s.entries) && (s.Failed? ==> s.error == TooLarge)
  {
    FeedInPlace(format, Initial(format), bytes, 0);
    var s := Feed(format, Initial(format), bytes, 0);
    match s
    case Failed(_, _) =>
    case Lines(content, _) =>
      if content.Some? {
        RecordInPlace(s, content.value.start, content.value.end, 0, s.(content := None), |bytes|);
      }
    case Values(mode, _, _) =>
      match mode
      case InString(start, _, _) => RecordInPlace(s, start, |bytes|, 3, s.(mode := Between), |bytes|);
      case InContainer(start, _) => RecordInPlace(s, start, |bytes|, 3, s.(mode := Between), |bytes|);
      case InScalar(start) => RecordInPlace(s, start, |bytes|, 0, s.(mode := Between), |bytes|);
      case _ =>
  }
}
