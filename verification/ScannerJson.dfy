/**
 Well-formed files: on a JSON array, or a sequence of JSON values, written in any layout, the scan
 records one entry for every top-level value, with exactly its bytes and without flags.
 */
module ScannerJson {
  import opened Bytes
  import opened Wrappers
  import opened RangeIndex
  import opened Scanner

  /* ---------- JSON text (RFC 8259), with every blank kept ---------- */

  type Blanks = s: seq<Byte> | forall i :: 0 <= i < |s| ==> IsSpace(s[i]) witness []

  type Digits = s: seq<Byte> | forall i :: 0 <= i < |s| ==> 48 <= s[i] <= 57 witness []

  datatype Exponent = NoExponent | Exponent(letter: Byte, sign: seq<Byte>, digits: Digits)

  datatype Literal = True | False | Null | Number(minus: bool, whole: Digits, fraction: Digits, exponent: Exponent)

  // One character of a string, or a backslash and the character it escapes. The hexadecimal digits
  // of a \u escape are characters of their own.
  datatype Piece = Plain(b: Byte) | Escape(b: Byte)

  datatype Item = Item(before: Blanks, value: Json, after: Blanks)

  datatype Member = Member(before: Blanks, key: seq<Piece>, afterKey: Blanks, item: Item)

  datatype Json =
    | Scalar(literal: Literal)
    | Str(body: seq<Piece>)
    | Arr(blank: Blanks, items: seq<Item>)
    | Obj(blank: Blanks, members: seq<Member>)

  predicate WellFormedLiteral(l: Literal) {
    match l
    case Number(_, whole, _, exponent) =>
      && |whole| > 0 && (whole[0] == 48 ==> |whole| == 1)
      && (exponent.Exponent? ==>
            && (exponent.letter == 69 || exponent.letter == 101)
            && (exponent.sign == [] || exponent.sign == [43] || exponent.sign == [45])
            && |exponent.digits| > 0)
    case _ => true
  }

  predicate WellFormedPieces(body: seq<Piece>) {
    forall i :: 0 <= i < |body| ==>
      match body[i]
      case Plain(b) => b >= 32 && b != QUOTE && b != BACKSLASH
      case Escape(b) => b in {34, 92, 47, 98, 102, 110, 114, 116, 117}
  }

  predicate WellFormed(v: Json) {
    match v
    case Scalar(l) => WellFormedLiteral(l)
    case Str(body) => WellFormedPieces(body)
    case Arr(_, items) => forall i :: 0 <= i < |items| ==> WellFormed(items[i].value)
    case Obj(_, members) =>
      forall i :: 0 <= i < |members| ==> WellFormedPieces(members[i].key) && WellFormed(members[i].item.value)
  }

  // How deep brackets nest.
  predicate NestsWithin(v: Json, depth: int) {
    match v
    case Scalar(_) => true
    case Str(_) => true
    case Arr(_, items) => depth > 0 && forall i :: 0 <= i < |items| ==> NestsWithin(items[i].value, depth - 1)
    case Obj(_, members) => depth > 0 && forall i :: 0 <= i < |members| ==> NestsWithin(members[i].item.value, depth - 1)
  }

  function LiteralText(l: Literal): seq<Byte> {
    match l
    case True => [116, 114, 117, 101]
    case False => [102, 97, 108, 115, 101]
    case Null => [110, 117, 108, 108]
    case Number(minus, whole, fraction, exponent) =>
      (if minus then [45] else []) + whole + (if fraction == [] then [] else [46] + fraction)
      + match exponent
        case NoExponent => []
        case Exponent(letter, sign, digits) => [letter] + sign + digits
  }

  function PieceText(p: Piece): seq<Byte> {
    match p
    case Plain(b) => [b]
    case Escape(b) => [BACKSLASH, b]
  }

  function BodyText(body: seq<Piece>): seq<Byte> {
    if |body| == 0 then [] else BodyText(body[..|body| - 1]) + PieceText(body[|body| - 1])
  }

  function StringText(body: seq<Piece>): seq<Byte> {
    [QUOTE] + BodyText(body) + [QUOTE]
  }

  function JsonText(v: Json): seq<Byte>
    decreases v, 0
  {
    match v
    case Scalar(l) => LiteralText(l)
    case Str(body) => StringText(body)
    case Arr(blank, items) => [OPEN_LIST] + (if items == [] then blank else ItemsText(items)) + [CLOSE_LIST]
    case Obj(blank, members) => [OPEN_OBJECT] + (if members == [] then blank else MembersText(members)) + [CLOSE_OBJECT]
  }

  function ItemText(i: Item): seq<Byte>
    decreases i, 1
  {
    i.before + JsonText(i.value) + i.after
  }

  // Items joined by commas.
  function ItemsText(items: seq<Item>): seq<Byte>
    requires |items| > 0
    decreases items, 2
  {
    var n := |items| - 1;
    if n == 0 then ItemText(items[0]) else ItemsText(items[..n]) + [COMMA] + ItemText(items[n])
  }

  function MemberText(m: Member): seq<Byte>
    decreases m, 1
  {
    m.before + StringText(m.key) + m.afterKey + [COLON] + ItemText(m.item)
  }

  function MembersText(members: seq<Member>): seq<Byte>
    requires |members| > 0
    decreases members, 2
  {
    var n := |members| - 1;
    if n == 0 then MemberText(members[0]) else MembersText(members[..n]) + [COMMA] + MemberText(members[n])
  }

  /* ---------- Bytes that change nothing ---------- */

  // Bytes of a number, `true`, `false` or `null`.
  predicate IsLiteralByte(b: Byte) {
    48 <= b <= 57 || b == 43 || b == 45 || b == 46 || b == 69 || 97 <= b <= 122
  }

  lemma LiteralBytes(l: Literal)
    requires WellFormedLiteral(l)
    ensures |LiteralText(l)| > 0 && forall i :: 0 <= i < |LiteralText(l)| ==> IsLiteralByte(LiteralText(l)[i])
  {
    match l
    case Number(minus, whole, fraction, exponent) =>
      var tail: seq<Byte> := match exponent
        case NoExponent => []
        case Exponent(letter, sign, digits) => [letter] + sign + digits;
      var head := (if minus then [45] else []) + whole;
      var middle := if fraction == [] then [] else [46] + fraction;
      assert forall i :: 0 <= i < |tail| ==> IsLiteralByte(tail[i]);
      assert forall i :: 0 <= i < |head| ==> IsLiteralByte(head[i]);
      assert forall i :: 0 <= i < |middle| ==> IsLiteralByte(middle[i]);
      assert LiteralText(l) == head + middle + tail;
    case _ =>
  }

  predicate IsNeutral(b: Byte) {
    b != QUOTE && b != OPEN_LIST && b != CLOSE_LIST && b != OPEN_OBJECT && b != CLOSE_OBJECT
  }

  function In(start: int, stack: seq<bool>, started: bool, entries: seq<Range>): State {
    Values(InContainer(start, stack), started, entries)
  }

  lemma {:induction false} NeutralFed(
      format: Format, start: int, stack: seq<bool>, started: bool, entries: seq<Range>, bytes: seq<Byte>, p: int)
    requires stack != [] && forall i :: 0 <= i < |bytes| ==> IsNeutral(bytes[i])
    ensures var s := In(start, stack, started, entries);
            Feed(format, s, bytes, p) == s
  {
    hide BetweenStep, StringStep, ScalarStep, SkipStep, LineStep, Record;
    if bytes != [] {
      NeutralFed(format, start, stack, started, entries, bytes[..|bytes| - 1], p);
    }
  }

  lemma FeedByte(format: Format, s: State, b: Byte, p: int)
    ensures Feed(format, s, [b], p) == Step(format, s, b, p)
  {
    assert [b][..0] == [];
    assert Feed(format, s, [b][..0], p) == s;
  }

  lemma {:induction false} FeedThree(format: Format, s: State, a: seq<Byte>, b: seq<Byte>, c: seq<Byte>, p: int)
    ensures Feed(format, s, a + b + c, p) ==
            Feed(format, Feed(format, Feed(format, s, a, p), b, p + |a|), c, p + |a| + |b|)
  {
    hide Feed;
    FeedAppend(format, s, a + b, c, p);
    FeedAppend(format, s, a, b, p);
  }

  /* ---------- Strings ---------- */

  lemma {:induction false} BodyFed(
      format: Format, start: int, stack: seq<bool>, started: bool, entries: seq<Range>, body: seq<Piece>, p: int)
    requires WellFormedPieces(body)
    ensures var s := Values(InString(start, false, stack), started, entries);
            Feed(format, s, BodyText(body), p) == s
  {
    hide BetweenStep, ContainerStep, ScalarStep, SkipStep, LineStep, Record;
    if body != [] {
      var n := |body| - 1;
      var s := Values(InString(start, false, stack), started, entries);
      BodyFed(format, start, stack, started, entries, body[..n], p);
      var q := p + |BodyText(body[..n])|;
      FeedAppend(format, s, BodyText(body[..n]), PieceText(body[n]), p);
      match body[n]
      case Plain(b) => FeedByte(format, s, b, q);
      case Escape(b) =>
        assert PieceText(body[n]) == [BACKSLASH] + [b];
        FeedAppend(format, s, [BACKSLASH], [b], q);
        FeedByte(format, s, BACKSLASH, q);
        FeedByte(format, Values(InString(start, true, stack), started, entries), b, q + 1);
    }
  }

  // A string inside a container.
  lemma {:induction false} StringFed(
      format: Format, start: int, stack: seq<bool>, started: bool, entries: seq<Range>, body: seq<Piece>, p: int)
    requires stack != [] && WellFormedPieces(body)
    ensures var s := In(start, stack, started, entries);
            Feed(format, s, StringText(body), p) == s
  {
    hide Feed, BodyText;
    var s := In(start, stack, started, entries);
    var t := Values(InString(start, false, stack), started, entries);
    FeedThree(format, s, [QUOTE], BodyText(body), [QUOTE], p);
    FeedByte(format, s, QUOTE, p);
    BodyFed(format, start, stack, started, entries, body, p + 1);
    FeedByte(format, t, QUOTE, p + 1 + |BodyText(body)|);
  }

  /* ---------- Values inside a container ---------- */

  lemma {:induction false} Bracketed(
      format: Format, start: int, stack: seq<bool>, started: bool, entries: seq<Range>,
      isObject: bool, inner: seq<Byte>, p: int)
    requires 0 < |stack| < MAX_DEPTH
    requires var t := In(start, stack + [isObject], started, entries);
             Feed(format, t, inner, p + 1) == t
    ensures var s := In(start, stack, started, entries);
            var open, close := if isObject then OPEN_OBJECT else OPEN_LIST, if isObject then CLOSE_OBJECT else CLOSE_LIST;
            Feed(format, s, [open] + inner + [close], p) == s
  {
    hide Feed;
    var s, t := In(start, stack, started, entries), In(start, stack + [isObject], started, entries);
    var open, close := if isObject then OPEN_OBJECT else OPEN_LIST, if isObject then CLOSE_OBJECT else CLOSE_LIST;
    FeedThree(format, s, [open], inner, [close], p);
    FeedByte(format, s, open, p);
    FeedByte(format, t, close, p + 1 + |inner|);
    assert (stack + [isObject])[..|stack|] == stack;
  }

  lemma {:induction false} ValueFed(
      format: Format, start: int, stack: seq<bool>, started: bool, entries: seq<Range>, v: Json, p: int)
    requires WellFormed(v) && 0 < |stack| <= MAX_DEPTH && NestsWithin(v, MAX_DEPTH - |stack|)
    ensures var s := In(start, stack, started, entries);
            Feed(format, s, JsonText(v), p) == s
    decreases v, 1
  {
    match v
    case Scalar(l) =>
      LiteralBytes(l);
      NeutralFed(format, start, stack, started, entries, LiteralText(l), p);
    case Str(body) => StringFed(format, start, stack, started, entries, body, p);
    case Arr(blank, items) =>
      ArrInnerFed(format, start, stack + [false], started, entries, v, p + 1);
      Bracketed(format, start, stack, started, entries, false, if items == [] then blank else ItemsText(items), p);
    case Obj(blank, members) =>
      ObjInnerFed(format, start, stack + [true], started, entries, v, p + 1);
      Bracketed(format, start, stack, started, entries, true, if members == [] then blank else MembersText(members), p);
  }

  lemma {:induction false} ArrInnerFed(
      format: Format, start: int, stack: seq<bool>, started: bool, entries: seq<Range>, v: Json, p: int)
    requires v.Arr? && WellFormed(v) && 0 < |stack| <= MAX_DEPTH
    requires forall i :: 0 <= i < |v.items| ==> NestsWithin(v.items[i].value, MAX_DEPTH - |stack|)
    ensures var s := In(start, stack, started, entries);
            Feed(format, s, if v.items == [] then v.blank else ItemsText(v.items), p) == s
    decreases v, 0
  {
    if v.items == [] {
      NeutralFed(format, start, stack, started, entries, v.blank, p);
    } else {
      ItemsFed(format, start, stack, started, entries, v.items, p);
    }
  }

  lemma {:induction false} ObjInnerFed(
      format: Format, start: int, stack: seq<bool>, started: bool, entries: seq<Range>, v: Json, p: int)
    requires v.Obj? && WellFormed(v) && 0 < |stack| <= MAX_DEPTH
    requires forall i :: 0 <= i < |v.members| ==> NestsWithin(v.members[i].item.value, MAX_DEPTH - |stack|)
    ensures var s := In(start, stack, started, entries);
            Feed(format, s, if v.members == [] then v.blank else MembersText(v.members), p) == s
    decreases v, 0
  {
    if v.members == [] {
      NeutralFed(format, start, stack, started, entries, v.blank, p);
    } else {
      MembersFed(format, start, stack, started, entries, v.members, p);
    }
  }

  lemma {:induction false} ItemFed(
      format: Format, start: int, stack: seq<bool>, started: bool, entries: seq<Range>, item: Item, p: int)
    requires WellFormed(item.value) && 0 < |stack| <= MAX_DEPTH && NestsWithin(item.value, MAX_DEPTH - |stack|)
    ensures var s := In(start, stack, started, entries);
            Feed(format, s, ItemText(item), p) == s
    decreases item
  {
    hide Feed, JsonText, WellFormed, NestsWithin;
    var s := In(start, stack, started, entries);
    var q := p + |item.before|;
    FeedThree(format, s, item.before, JsonText(item.value), item.after, p);
    NeutralFed(format, start, stack, started, entries, item.before, p);
    ValueFed(format, start, stack, started, entries, item.value, q);
    NeutralFed(format, start, stack, started, entries, item.after, q + |JsonText(item.value)|);
  }

  lemma {:induction false} ItemsFed(
      format: Format, start: int, stack: seq<bool>, started: bool, entries: seq<Range>, items: seq<Item>, p: int)
    requires |items| > 0 && 0 < |stack| <= MAX_DEPTH
    requires forall i :: 0 <= i < |items| ==>
               WellFormed(items[i].value) && NestsWithin(items[i].value, MAX_DEPTH - |stack|)
    ensures var s := In(start, stack, started, entries);
            Feed(format, s, ItemsText(items), p) == s
    decreases items
  {
    hide Feed, JsonText, WellFormed, NestsWithin, ItemText;
    var n := |items| - 1;
    if n == 0 {
      ItemFed(format, start, stack, started, entries, items[0], p);
    } else {
      var s := In(start, stack, started, entries);
      var q := p + |ItemsText(items[..n])|;
      ItemsFed(format, start, stack, started, entries, items[..n], p);
      FeedThree(format, s, ItemsText(items[..n]), [COMMA], ItemText(items[n]), p);
      NeutralFed(format, start, stack, started, entries, [COMMA], q);
      ItemFed(format, start, stack, started, entries, items[n], q + 1);
    }
  }

  lemma {:induction false} MemberFed(
      format: Format, start: int, stack: seq<bool>, started: bool, entries: seq<Range>, m: Member, p: int)
    requires WellFormedPieces(m.key) && WellFormed(m.item.value)
    requires 0 < |stack| <= MAX_DEPTH && NestsWithin(m.item.value, MAX_DEPTH - |stack|)
    ensures var s := In(start, stack, started, entries);
            Feed(format, s, MemberText(m), p) == s
    decreases m
  {
    hide Feed, JsonText, WellFormed, NestsWithin, ItemText, StringText, WellFormedPieces;
    var s := In(start, stack, started, entries);
    var head := m.before + StringText(m.key) + m.afterKey;
    FeedThree(format, s, m.before, StringText(m.key), m.afterKey, p);
    NeutralFed(format, start, stack, started, entries, m.before, p);
    StringFed(format, start, stack, started, entries, m.key, p + |m.before|);
    NeutralFed(format, start, stack, started, entries, m.afterKey, p + |m.before| + |StringText(m.key)|);
    FeedThree(format, s, head, [COLON], ItemText(m.item), p);
    NeutralFed(format, start, stack, started, entries, [COLON], p + |head|);
    ItemFed(format, start, stack, started, entries, m.item, p + |head| + 1);
  }

  lemma {:induction false} MembersFed(
      format: Format, start: int, stack: seq<bool>, started: bool, entries: seq<Range>, members: seq<Member>, p: int)
    requires |members| > 0 && 0 < |stack| <= MAX_DEPTH
    requires forall i :: 0 <= i < |members| ==>
               && WellFormedPieces(members[i].key) && WellFormed(members[i].item.value)
               && NestsWithin(members[i].item.value, MAX_DEPTH - |stack|)
    ensures var s := In(start, stack, started, entries);
            Feed(format, s, MembersText(members), p) == s
    decreases members
  {
    hide Feed, JsonText, WellFormed, NestsWithin, MemberText, WellFormedPieces;
    var n := |members| - 1;
    if n == 0 {
      MemberFed(format, start, stack, started, entries, members[0], p);
    } else {
      var s := In(start, stack, started, entries);
      var q := p + |MembersText(members[..n])|;
      MembersFed(format, start, stack, started, entries, members[..n], p);
      FeedThree(format, s, MembersText(members[..n]), [COMMA], MemberText(members[n]), p);
      NeutralFed(format, start, stack, started, entries, [COMMA], q);
      MemberFed(format, start, stack, started, entries, members[n], q + 1);
    }
  }

  /* ---------- Top-level values ---------- */

  // A number or word that ends only with the next byte, taken as ending here.
  function Settle(s: State, p: int): State {
    if s.Values? && s.mode.InScalar? then Record(s, s.mode.start, p, 0, s.(mode := Between)) else s
  }

  predicate AtRest(s: State) {
    s.Failed? || (s.Values? && s.mode == Between)
  }

  function Recorded(s: State, r: Range): State {
    if s.Values? then Record(s, r.start, r.end, 0, s) else s
  }

  // The ranges recorded one after another, as long as the index takes them.
  function RecordRanges(s: State, ranges: seq<Range>): State {
    if |ranges| == 0 then s else Recorded(RecordRanges(s, ranges[..|ranges| - 1]), ranges[|ranges| - 1])
  }

  // Where the value of an item that begins at `p` lies.
  function ValueRange(i: Item, p: int): Range {
    Range(p + |i.before|, p + |i.before| + |JsonText(i.value)|, 0)
  }

  lemma {:induction false} RestFed(format: Format, s: State, bytes: seq<Byte>, p: int)
    requires AtRest(s) || (s.Values? && s.mode == Done)
    requires s.Values? && s.mode == Between ==> forall i :: 0 <= i < |bytes| ==> IsSpace(bytes[i])
    ensures Feed(format, s, bytes, p) == s
  {
    if bytes != [] {
      RestFed(format, s, bytes[..|bytes| - 1], p);
    }
  }

  lemma {:induction false} LiteralFed(format: Format, start: int, started: bool, entries: seq<Range>, bytes: seq<Byte>, p: int)
    requires forall i :: 0 <= i < |bytes| ==> IsLiteralByte(bytes[i])
    ensures var s := Values(InScalar(start), started, entries);
            Feed(format, s, bytes, p) == s
  {
    if bytes != [] {
      LiteralFed(format, start, started, entries, bytes[..|bytes| - 1], p);
    }
  }

  // A top-level value from the space between values.
  predicate Ready(format: Format, s: State) {
    AtRest(s) && (s.Values? && format == ArrayFile ==> s.started)
  }

  lemma {:induction false} ScalarFound(format: Format, s: State, l: Literal, p: int)
    requires s.Values? && Ready(format, s) && WellFormedLiteral(l)
    ensures Feed(format, s, LiteralText(l), p) == s.(mode := InScalar(p))
  {
    hide LiteralText, Feed, WellFormedLiteral, LineStep, SkipStep, ScalarStep, ContainerStep, StringStep, Record;
    var text := LiteralText(l);
    LiteralBytes(l);
    assert text == [text[0]] + text[1..];
    FeedAppend(format, s, [text[0]], text[1..], p);
    FeedByte(format, s, text[0], p);
    LiteralFed(format, p, s.started, s.entries, text[1..], p + 1);
  }

  lemma {:induction false} StringFound(format: Format, s: State, body: seq<Piece>, p: int)
    requires s.Values? && Ready(format, s) && WellFormedPieces(body)
    ensures Feed(format, s, StringText(body), p) == Recorded(s, Range(p, p + |StringText(body)|, 0))
  {
    hide BodyText, Feed;
    FeedThree(format, s, [QUOTE], BodyText(body), [QUOTE], p);
    FeedByte(format, s, QUOTE, p);
    BodyFed(format, p, [], s.started, s.entries, body, p + 1);
    FeedByte(format, Values(InString(p, false, []), s.started, s.entries), QUOTE, p + 1 + |BodyText(body)|);
  }

  lemma {:induction false} ContainerFound(format: Format, s: State, isObject: bool, inner: seq<Byte>, p: int)
    requires s.Values? && Ready(format, s)
    requires var t := In(p, [isObject], s.started, s.entries);
             Feed(format, t, inner, p + 1) == t
    ensures var open, close := if isObject then OPEN_OBJECT else OPEN_LIST, if isObject then CLOSE_OBJECT else CLOSE_LIST;
            Feed(format, s, [open] + inner + [close], p) == Recorded(s, Range(p, p + 2 + |inner|, 0))
  {
    hide Feed;
    var t := In(p, [isObject], s.started, s.entries);
    var open, close := if isObject then OPEN_OBJECT else OPEN_LIST, if isObject then CLOSE_OBJECT else CLOSE_LIST;
    FeedThree(format, s, [open], inner, [close], p);
    FeedByte(format, s, open, p);
    FeedByte(format, t, close, p + 1 + |inner|);
  }

  lemma {:induction false} ValueFound(format: Format, s: State, v: Json, p: int)
    requires s.Values? && Ready(format, s) && WellFormed(v) && NestsWithin(v, MAX_DEPTH)
    ensures var t := Feed(format, s, JsonText(v), p);
            if v.Scalar? then t == s.(mode := InScalar(p)) else t == Recorded(s, Range(p, p + |JsonText(v)|, 0))
  {
    hide Feed, ItemsText, MembersText, StringText, LiteralText, Ready, Recorded;
    match v
    case Scalar(l) => ScalarFound(format, s, l, p);
    case Str(body) => StringFound(format, s, body, p);
    case Arr(blank, items) =>
      ArrInnerFed(format, p, [false], s.started, s.entries, v, p + 1);
      ContainerFound(format, s, false, if items == [] then blank else ItemsText(items), p);
    case Obj(blank, members) =>
      ObjInnerFed(format, p, [true], s.started, s.entries, v, p + 1);
      ContainerFound(format, s, true, if members == [] then blank else MembersText(members), p);
  }

  // A byte that ends a number or word settles it.
  lemma {:induction false} EndingByte(format: Format, s: State, b: Byte, p: int)
    requires IsSpace(b) || b == COMMA || b == CLOSE_LIST
    requires AtRest(s) || (s.Values? && s.mode.InScalar?)
    ensures Step(format, s, b, p) == Step(format, Settle(s, p), b, p)
  {
  }

  // Blanks after a value settle it.
  lemma {:induction false} BlanksSettle(format: Format, s: State, blanks: Blanks, p: int)
    requires AtRest(s) || (s.Values? && s.mode.InScalar?)
    ensures var t := Feed(format, s, blanks, p);
            && Settle(t, p + |blanks|) == Settle(s, p)
            && (blanks != [] || AtRest(s) ==> AtRest(t))
            && (AtRest(t) || (t.Values? && t.mode.InScalar?))
  {
    if blanks != [] {
      var b := blanks[0];
      assert blanks == [b] + blanks[1..];
      FeedAppend(format, s, [b], blanks[1..], p);
      FeedByte(format, s, b, p);
      EndingByte(format, s, b, p);
      RestFed(format, Settle(s, p), blanks[1..], p + 1);
    }
  }

  lemma {:induction false} ItemFound(format: Format, s: State, item: Item, p: int)
    requires Ready(format, s) && WellFormed(item.value) && NestsWithin(item.value, MAX_DEPTH)
    ensures var t := Feed(format, s, ItemText(item), p);
            && Settle(t, p + |ItemText(item)|) == Recorded(s, ValueRange(item, p))
            && (!item.value.Scalar? || item.after != [] ==> AtRest(t))
            && (AtRest(t) || (t.Values? && t.mode.InScalar?))
            && Ready(format, Settle(t, p + |ItemText(item)|))
  {
    hide Feed, JsonText, NestsWithin, WellFormed, Refusal;
    var start := p + |item.before|;
    var end := start + |JsonText(item.value)|;
    FeedThree(format, s, item.before, JsonText(item.value), item.after, p);
    RestFed(format, s, item.before, p);
    if s.Values? {
      ValueFound(format, s, item.value, start);
      BlanksSettle(format, Feed(format, s, JsonText(item.value), start), item.after, end);
    } else {
      RestFed(format, s, JsonText(item.value), start);
      RestFed(format, s, item.after, end);
    }
  }

  predicate WellFormedItems(items: seq<Item>) {
    forall i :: 0 <= i < |items| ==> WellFormed(items[i].value) && NestsWithin(items[i].value, MAX_DEPTH)
  }

  /* ---------- Files ---------- */

  // Where the values lie whose items, joined by `joint`, begin at `p`.
  function ValueRanges(items: seq<Item>, joint: seq<Byte>, p: int): seq<Range> {
    var n := |items| - 1;
    if n < 0 then [] else
    ValueRanges(items[..n], joint, p) + [ValueRange(items[n], p + |Joined(items[..n], joint)|)]
  }

  // The items with `joint` after every one of them.
  function Joined(items: seq<Item>, joint: seq<Byte>): seq<Byte> {
    var n := |items| - 1;
    if n < 0 then [] else Joined(items[..n], joint) + ItemText(items[n]) + joint
  }

  lemma {:induction false} ItemsTextJoined(items: seq<Item>)
    requires items != []
    ensures ItemsText(items) == Joined(items[..|items| - 1], [COMMA]) + ItemText(items[|items| - 1])
    ensures ItemsText(items) + [COMMA] == Joined(items, [COMMA])
  {
    hide ItemText;
    var n := |items| - 1;
    if n > 0 {
      ItemsTextJoined(items[..n]);
    } else {
      assert items[..0] == [];
    }
  }

  // A number or word is followed by a blank or by the end.
  predicate Separated(items: seq<Item>) {
    forall i :: 0 <= i < |items| - 1 && items[i].value.Scalar? ==> items[i].after != []
  }

  // Either every item is followed by a comma, or numbers and words are set apart by blanks.
  predicate Apart(items: seq<Item>, joint: seq<Byte>) {
    joint == [COMMA] || (joint == [] && forall i :: 0 <= i < |items| && items[i].value.Scalar? ==> items[i].after != [])
  }

  lemma {:induction false} JointFed(format: Format, s: State, joint: seq<Byte>, p: int)
    requires joint == [COMMA] || (joint == [] && AtRest(s))
    requires AtRest(s) || (s.Values? && s.mode.InScalar?)
    ensures Feed(format, s, joint, p) == Settle(s, p)
    ensures AtRest(Settle(s, p))
  {
    if joint == [COMMA] {
      FeedByte(format, s, COMMA, p);
      EndingByte(format, s, COMMA, p);
    }
  }

  lemma {:induction false} RangesGrow(s: State, items: seq<Item>, joint: seq<Byte>, p: int)
    requires items != []
    ensures var n := |items| - 1;
            && RecordRanges(s, ValueRanges(items, joint, p)) ==
               Recorded(RecordRanges(s, ValueRanges(items[..n], joint, p)), ValueRange(items[n], p + |Joined(items[..n], joint)|))
            && Joined(items, joint) == Joined(items[..n], joint) + ItemText(items[n]) + joint
  {
    hide Recorded, ValueRange, ItemText;
    var n := |items| - 1;
    var ranges := ValueRanges(items, joint, p);
    assert ranges[..|ranges| - 1] == ValueRanges(items[..n], joint, p);
  }

  lemma {:induction false} ItemsFound(format: Format, s: State, items: seq<Item>, joint: seq<Byte>, p: int)
    requires Ready(format, s) && WellFormedItems(items) && Apart(items, joint)
    ensures Feed(format, s, Joined(items, joint), p) == RecordRanges(s, ValueRanges(items, joint, p))
    ensures Ready(format, RecordRanges(s, ValueRanges(items, joint, p)))
  {
    hide Feed, ItemText, Settle, Recorded, ValueRange, NestsWithin, WellFormed, Ready, AtRest, RecordRanges, ValueRanges, Joined;
    var n := |items| - 1;
    if n < 0 {
      NothingFed(format, s, p);
      NothingJoined(s, items, joint, p);
    } else {
      RangesGrow(s, items, joint, p);
      var prefix := Joined(items[..n], joint);
      var q := p + |prefix|;
      ItemsFound(format, s, items[..n], joint, p);
      var t := RecordRanges(s, ValueRanges(items[..n], joint, p));
      FeedThree(format, s, prefix, ItemText(items[n]), joint, p);
      ItemFound(format, t, items[n], q);
      JointFed(format, Feed(format, t, ItemText(items[n]), q), joint, q + |ItemText(items[n])|);
    }
  }

  lemma NothingJoined(s: State, items: seq<Item>, joint: seq<Byte>, p: int)
    requires items == []
    ensures Joined(items, joint) == [] && RecordRanges(s, ValueRanges(items, joint, p)) == s
  {
  }

  // All items but for what follows the last one.
  lemma {:induction false} LastItemFound(format: Format, s: State, items: seq<Item>, joint: seq<Byte>, p: int)
    requires items != [] && Ready(format, s) && WellFormedItems(items) && Apart(items[..|items| - 1], joint)
    ensures var text := Joined(items[..|items| - 1], joint) + ItemText(items[|items| - 1]);
            var t := Feed(format, s, text, p);
            && (AtRest(t) || (t.Values? && t.mode.InScalar?))
            && Settle(t, p + |text|) == RecordRanges(s, ValueRanges(items, joint, p))
            && Ready(format, RecordRanges(s, ValueRanges(items, joint, p)))
  {
    hide Feed, ItemText, Settle, Recorded, ValueRange, NestsWithin, WellFormed, Ready, AtRest, Joined, Apart, RecordRanges, ValueRanges;
    var n := |items| - 1;
    var prefix := Joined(items[..n], joint);
    ItemsFound(format, s, items[..n], joint, p);
    FeedAppend(format, s, prefix, ItemText(items[n]), p);
    ItemFound(format, RecordRanges(s, ValueRanges(items[..n], joint, p)), items[n], p + |prefix|);
    RangesGrow(s, items, joint, p);
  }

  const BOM: seq<Byte> := [0xef, 0xbb, 0xbf]

  lemma {:induction false} MarkFed(bom: bool, blanks: Blanks)
    ensures Feed(ArrayFile, Initial(ArrayFile), (if bom then BOM else []) + blanks, 0) == Initial(ArrayFile)
  {
    hide Feed;
    var s := Initial(ArrayFile);
    var mark := if bom then BOM else [];
    FeedAppend(ArrayFile, s, mark, blanks, 0);
    RestFed(ArrayFile, s, blanks, |mark|);
    if bom {
      assert BOM == [0xef] + [0xbb] + [0xbf];
      FeedThree(ArrayFile, s, [0xef], [0xbb], [0xbf], 0);
      FeedByte(ArrayFile, s, 0xef, 0);
      FeedByte(ArrayFile, s, 0xbb, 1);
      FeedByte(ArrayFile, s, 0xbf, 2);
    } else {
      NothingFed(ArrayFile, s, 0);
    }
  }

  lemma ReadyRests(format: Format, s: State)
    requires Ready(format, s)
    ensures AtRest(s)
  {
  }

  // The inside of the array, up to its closing bracket.
  lemma {:induction false} ListFound(s: State, blank: Blanks, items: seq<Item>, p: int)
    requires Ready(ArrayFile, s) && WellFormedItems(items)
    ensures var text := if items == [] then blank else ItemsText(items);
            var t := Feed(ArrayFile, s, text, p);
            && (AtRest(t) || (t.Values? && t.mode.InScalar?))
            && Settle(t, p + |text|) == RecordRanges(s, ValueRanges(items, [COMMA], p))
            && Ready(ArrayFile, RecordRanges(s, ValueRanges(items, [COMMA], p)))
  {
    hide Feed, ItemsText, Joined, RecordRanges, ValueRanges, Record, WellFormedItems, Ready;
    if items == [] {
      NothingJoined(s, items, [COMMA], p);
      ReadyRests(ArrayFile, s);
      RestFed(ArrayFile, s, blank, p);
    } else {
      ItemsTextJoined(items);
      LastItemFound(ArrayFile, s, items, [COMMA], p);
    }
  }

  lemma {:induction false} RecordRangesStarted(s: State, ranges: seq<Range>)
    requires s.Values?
    ensures var t := RecordRanges(s, ranges);
            if t.Values? then t == Values(s.mode, s.started, t.entries) else t.Failed?
  {
    hide Refusal;
    if ranges != [] {
      RecordRangesStarted(s, ranges[..|ranges| - 1]);
    }
  }

  // The array from its opening bracket to its closing one, and anything after it.
  lemma {:induction false} ArrayFound(v: Json, tail: seq<Byte>, p: int)
    requires v.Arr? && WellFormedItems(v.items)
    ensures var s := Values(Between, true, []);
            var t := Feed(ArrayFile, Initial(ArrayFile), JsonText(v) + tail, p);
            var all := RecordRanges(s, ValueRanges(v.items, [COMMA], p + 1));
            t == if all.Values? then all.(mode := Done) else all
  {
    hide Feed, ValueRanges, RecordRanges, ItemsText, WellFormedItems;
    var s0, s := Initial(ArrayFile), Values(Between, true, []);
    var inner := if v.items == [] then v.blank else ItemsText(v.items);
    var all := RecordRanges(s, ValueRanges(v.items, [COMMA], p + 1));
    var q := p + 1 + |inner|;
    FeedAppend(ArrayFile, s0, JsonText(v), tail, p);
    FeedThree(ArrayFile, s0, [OPEN_LIST], inner, [CLOSE_LIST], p);
    FeedByte(ArrayFile, s0, OPEN_LIST, p);
    ListFound(s, v.blank, v.items, p + 1);
    var t := Feed(ArrayFile, s, inner, p + 1);
    FeedByte(ArrayFile, t, CLOSE_LIST, q);
    EndingByte(ArrayFile, t, CLOSE_LIST, q);
    RecordRangesStarted(s, ValueRanges(v.items, [COMMA], p + 1));
    RestFed(ArrayFile, if all.Values? then all.(mode := Done) else all, tail, p + |JsonText(v)|);
  }

  // What a scan has to do with a list of ranges: it holds them all, unless one is too large.
  predicate Holds(s: State, ranges: seq<Range>) {
    if Small(ranges) then !s.Failed? && s.entries == ranges else s.Failed? && s.error == TooLarge
  }

  // Each range, and each gap before one, has at most 4 GiB.
  predicate Small(ranges: seq<Range>) {
    forall i :: 0 <= i < |ranges| ==> SmallAt(ranges, i)
  }

  predicate SmallAt(ranges: seq<Range>, i: nat)
    requires i < |ranges|
  {
    Gap(ranges, i) <= MAX_U32 && ranges[i].end - ranges[i].start <= MAX_U32
  }

  predicate Forward(ranges: seq<Range>) {
    forall i :: 0 <= i < |ranges| ==> ForwardAt(ranges, i)
  }

  predicate ForwardAt(ranges: seq<Range>, i: nat)
    requires i < |ranges|
  {
    0 <= Gap(ranges, i) && ranges[i].start <= ranges[i].end && ranges[i].flags == 0
  }

  lemma SameBefore(before: seq<Range>, r: Range, i: nat)
    requires i < |before|
    ensures SmallAt(before + [r], i) == SmallAt(before, i) && ForwardAt(before + [r], i) == ForwardAt(before, i)
  {
    assert Gap(before + [r], i) == Gap(before, i);
  }

  lemma Last(before: seq<Range>, r: Range)
    ensures var ranges := before + [r];
            && LastEnd(ranges) == r.end
            && (SmallAt(ranges, |before|) <==> r.start - LastEnd(before) <= MAX_U32 && r.end - r.start <= MAX_U32)
            && (ForwardAt(ranges, |before|) <==> LastEnd(before) <= r.start <= r.end && r.flags == 0)
  {
  }

  lemma {:induction false} OneRangeMore(before: seq<Range>, r: Range)
    ensures var ranges := before + [r];
            && LastEnd(ranges) == r.end
            && (Small(ranges) <==> Small(before) && r.start - LastEnd(before) <= MAX_U32 && r.end - r.start <= MAX_U32)
            && (Forward(ranges) <==> Forward(before) && LastEnd(before) <= r.start <= r.end && r.flags == 0)
  {
    hide SmallAt, ForwardAt, LastEnd;
    var ranges := before + [r];
    Last(before, r);
    forall i | 0 <= i < |before|
      ensures SmallAt(ranges, i) == SmallAt(before, i) && ForwardAt(ranges, i) == ForwardAt(before, i)
    {
      SameBefore(before, r, i);
    }
  }

  lemma {:induction false} RangesHeld(s: State, ranges: seq<Range>)
    requires s.Values? && s.entries == [] && Forward(ranges)
    ensures Holds(RecordRanges(s, ranges), ranges)
  {
    hide Small, Forward, LastEnd;
    if ranges != [] {
      var before := ranges[..|ranges| - 1];
      assert before + [ranges[|ranges| - 1]] == ranges;
      OneRangeMore(before, ranges[|ranges| - 1]);
      RangesHeld(s, before);
      RecordRangesStarted(s, before);
    } else {
      NoneSmall();
    }
  }

  lemma NoneSmall()
    ensures Small([])
  {
  }

  lemma {:induction false} ValueRangesForward(items: seq<Item>, joint: seq<Byte>, p: int)
    requires p >= 0
    ensures var ranges := ValueRanges(items, joint, p);
            Forward(ranges) && 0 <= LastEnd(ranges) <= p + |Joined(items, joint)|
  {
    hide JsonText, Forward, Small;
    var n := |items| - 1;
    if n >= 0 {
      ValueRangesForward(items[..n], joint, p);
      OneRangeMore(ValueRanges(items[..n], joint, p), ValueRange(items[n], p + |Joined(items[..n], joint)|));
    } else {
      NoneForward();
    }
  }

  lemma NoneForward()
    ensures Forward([])
  {
  }

  /**
   A well-formed array file, in any layout, with or without a byte order mark and with anything after
   the array: one entry without flags for every element, with exactly its bytes.
   */
  lemma {:induction false} ElementsAreFound(bom: bool, blanks: Blanks, v: Json, tail: seq<Byte>)
    requires v.Arr? && WellFormedItems(v.items)
    ensures var head := (if bom then BOM else []) + blanks;
            var text := head + (JsonText(v) + tail);
            var s := Finish(Feed(ArrayFile, Initial(ArrayFile), text, 0), |text|);
            Holds(s, ValueRanges(v.items, [COMMA], |head| + 1))
  {
    hide Feed, ValueRanges, RecordRanges, JsonText, WellFormedItems, Holds;
    var s0 := Initial(ArrayFile);
    var head := (if bom then BOM else []) + blanks;
    var s := Values(Between, true, []);
    var ranges := ValueRanges(v.items, [COMMA], |head| + 1);
    FeedAppend(ArrayFile, s0, head, JsonText(v) + tail, 0);
    MarkFed(bom, blanks);
    ArrayFound(v, tail, |head|);
    ValueRangesForward(v.items, [COMMA], |head| + 1);
    RangesHeld(s, ranges);
    RecordRangesStarted(s, ranges);
    HoldsWhereverItStands(RecordRanges(s, ranges), ranges);
  }

  lemma HoldsWhereverItStands(s: State, ranges: seq<Range>)
    requires Holds(s, ranges) && !s.Lines?
    ensures Holds(if s.Values? then s.(mode := Done) else s, ranges)
  {
  }

  /**
   Values one after another, in any layout: one entry without flags for every value, with exactly its
   bytes. A number or a word at the very end is recorded when the file ends.
   */
  lemma {:induction false} ValuesAreFound(items: seq<Item>)
    requires WellFormedItems(items) && Separated(items)
    ensures var text := Joined(items, []);
            var s := Finish(Feed(SequenceFile, Initial(SequenceFile), text, 0), |text|);
            Holds(s, ValueRanges(items, [], 0))
  {
    hide Feed, ValueRanges, RecordRanges, ItemText, WellFormedItems, Holds;
    var s := Initial(SequenceFile);
    var text := Joined(items, []);
    var ranges := ValueRanges(items, [], 0);
    ValueRangesForward(items, [], 0);
    RangesHeld(s, ranges);
    if items == [] {
      NothingFed(SequenceFile, s, 0);
      NothingFound(s);
    } else {
      var n := |items| - 1;
      assert text == Joined(items[..n], []) + ItemText(items[n]);
      LastItemFound(SequenceFile, s, items, [], 0);
      SettledAtTheEnd(Feed(SequenceFile, s, text, 0), |text|, ranges);
    }
  }

  lemma NothingFound(s: State)
    ensures ValueRanges([], [], 0) == [] && RecordRanges(s, []) == s
  {
  }

  lemma {:induction false} SettledAtTheEnd(t: State, end: int, ranges: seq<Range>)
    requires AtRest(t) || (t.Values? && t.mode.InScalar?)
    requires Holds(Settle(t, end), ranges)
    ensures Holds(Finish(t, end), ranges)
  {
    hide Refusal, Small;
  }

  /* ---------- A byte order mark before a sequence ---------- */

  lemma EntriesGrow(format: Format, s: State, b: Byte, p: int)
    ensures s.entries <= Step(format, s, b, p).entries
  {
    hide Refusal;
  }

  // The mark is the beginning of the first value that is found.
  predicate MarkTaken(s: State) {
    if s.entries != [] then s.entries[0].start == 0
    else s.Failed? || (s.Values? && s.mode == InScalar(0))
  }

  lemma MarkStays(s: State, b: Byte, p: int)
    requires MarkTaken(s)
    ensures MarkTaken(Step(SequenceFile, s, b, p))
  {
    hide Refusal;
    EntriesGrow(SequenceFile, s, b, p);
    if s.entries == [] && !s.Failed? && (IsSpace(b) || b == COMMA || b == CLOSE_LIST || b == CLOSE_OBJECT) {
      var t := Record(s, 0, p, 0, s.(mode := Between));
      if t.Values? {
        EntriesGrow(SequenceFile, t, b, p);
        assert t.entries == [Range(0, p, StoredFlags(0))];
      }
    }
  }

  lemma {:induction false} MarkFedOn(s: State, bytes: seq<Byte>, p: int)
    requires MarkTaken(s)
    ensures MarkTaken(Feed(SequenceFile, s, bytes, p))
  {
    hide Step, MarkTaken;
    if bytes != [] {
      var n := |bytes| - 1;
      MarkFedOn(s, bytes[..n], p);
      MarkStays(Feed(SequenceFile, s, bytes[..n], p), bytes[n], p + n);
    }
  }

  /**
   In a sequence a byte order mark is the beginning of a number or word: whatever follows it, the first
   entry starts at 0, where no value does.
   */
  lemma {:induction false} MarkTakenForValue(bytes: seq<Byte>)
    ensures var t := Finish(Feed(SequenceFile, Initial(SequenceFile), BOM + bytes, 0), |BOM + bytes|);
            if t.entries == [] then t.Failed? else t.entries[0].start == 0
  {
    hide Feed, Refusal;
    var s := Initial(SequenceFile);
    FeedAppend(SequenceFile, s, BOM, bytes, 0);
    assert BOM == [0xef] + [0xbb] + [0xbf];
    FeedThree(SequenceFile, s, [0xef], [0xbb], [0xbf], 0);
    FeedByte(SequenceFile, s, 0xef, 0);
    var scalar := Values(InScalar(0), false, []);
    FeedByte(SequenceFile, scalar, 0xbb, 1);
    FeedByte(SequenceFile, scalar, 0xbf, 2);
    MarkFedOn(scalar, bytes, 3);
  }
}
