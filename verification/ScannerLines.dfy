/**
 JSON Lines: the scan records, for every line of any file, its content without the blanks around it,
 and nothing for a blank line.
 */
module ScannerLines {
  import opened Bytes
  import opened Wrappers
  import opened RangeIndex
  import opened Scanner

  /* ---------- What a line is ---------- */

  // The first place from `from` on, before `until`, that is not blank.
  function FirstSolid(bytes: seq<Byte>, from: nat, until: nat): (r: nat)
    requires from <= until <= |bytes|
    ensures from <= r <= until
    ensures (forall i :: from <= i < r ==> IsSpace(bytes[i])) && (r < until ==> !IsSpace(bytes[r]))
    decreases until - from
  {
    if from < until && IsSpace(bytes[from]) then FirstSolid(bytes, from + 1, until) else from
  }

  // One past the last place that is not blank.
  function LastSolid(bytes: seq<Byte>, from: nat, until: nat): (r: nat)
    requires from <= until <= |bytes|
    ensures from <= r <= until
    ensures (forall i :: r <= i < until ==> IsSpace(bytes[i])) && (r > from ==> !IsSpace(bytes[r - 1]))
    decreases until - from
  {
    if from < until && IsSpace(bytes[until - 1]) then LastSolid(bytes, from, until - 1) else until
  }

  function LineEnd(bytes: seq<Byte>, from: nat): (r: nat)
    requires from <= |bytes|
    ensures from <= r <= |bytes|
    ensures forall i :: from <= i < r ==> bytes[i] != LF
    ensures r < |bytes| ==> bytes[r] == LF
    decreases |bytes| - from
  {
    if from < |bytes| && bytes[from] != LF then LineEnd(bytes, from + 1) else from
  }

  // The trimmed content of one line, if it has any.
  function LineContent(bytes: seq<Byte>, from: nat, until: nat): Option<Content>
    requires from <= until <= |bytes|
  {
    var first := FirstSolid(bytes, from, until);
    if first == until then None else Some(Content(first, LastSolid(bytes, first, until)))
  }

  // The contents of the lines from `from` on.
  function LineContents(bytes: seq<Byte>, from: nat): seq<Content>
    requires from <= |bytes|
    decreases |bytes| - from
  {
    var end := LineEnd(bytes, from);
    var content := LineContent(bytes, from, end);
    var more := if end < |bytes| then LineContents(bytes, end + 1) else [];
    if content.Some? then [content.value] + more else more
  }

  // The contents recorded one after another, as long as the index takes them.
  function RecordAll(s: State, contents: seq<Content>): State
    decreases |contents|
  {
    if |contents| == 0 || !s.Lines? then s
    else RecordAll(Record(s, contents[0].start, contents[0].end, 0, s), contents[1..])
  }

  /* ---------- One line ---------- */

  lemma {:induction false} FirstSolidUnique(bytes: seq<Byte>, from: nat, until: nat, r: nat)
    requires from <= r <= until <= |bytes|
    requires forall i :: from <= i < r ==> IsSpace(bytes[i])
    requires r < until ==> !IsSpace(bytes[r])
    ensures FirstSolid(bytes, from, until) == r
  {
  }

  lemma {:induction false} LastSolidUnique(bytes: seq<Byte>, from: nat, until: nat, r: nat)
    requires from <= r <= until <= |bytes|
    requires forall i :: r <= i < until ==> IsSpace(bytes[i])
    requires r > from ==> !IsSpace(bytes[r - 1])
    ensures LastSolid(bytes, from, until) == r
  {
  }

  // One more byte of a line.
  lemma {:induction false} ContentNext(bytes: seq<Byte>, from: nat, k: nat)
    requires from <= k < |bytes|
    ensures var c := LineContent(bytes, from, k);
            LineContent(bytes, from, k + 1) ==
            if IsSpace(bytes[k]) then c
            else Some(Content(if c.Some? then c.value.start else k, k + 1))
  {
    var first := FirstSolid(bytes, from, k);
    if first == k && IsSpace(bytes[k]) {
      FirstSolidUnique(bytes, from, k + 1, k + 1);
    } else {
      FirstSolidUnique(bytes, from, k + 1, first);
      if IsSpace(bytes[k]) {
        LastSolidUnique(bytes, first, k + 1, LastSolid(bytes, first, k));
      } else {
        LastSolidUnique(bytes, first, k + 1, k + 1);
      }
    }
  }

  lemma EmptyLine(bytes: seq<Byte>, from: nat)
    requires from <= |bytes|
    ensures LineContent(bytes, from, from) == None
  {
  }

  lemma {:induction false} LineFed(bytes: seq<Byte>, from: nat, k: nat, entries: seq<Range>)
    requires from <= k <= |bytes| && forall i :: from <= i < k ==> bytes[i] != LF
    ensures Feed(JsonLines, Lines(None, entries), bytes[from..k], from) == Lines(LineContent(bytes, from, k), entries)
    decreases k
  {
    hide Record, LineContent;
    if k > from {
      LineFed(bytes, from, k - 1, entries);
      assert bytes[from..k][..k - 1 - from] == bytes[from..k - 1];
      ContentNext(bytes, from, k - 1);
    } else {
      NothingFed(JsonLines, Lines(None, entries), from);
      EmptyLine(bytes, from);
    }
  }

  /* ---------- All lines ---------- */

  lemma {:induction false} FailedStays(s: State, bytes: seq<Byte>, p: int)
    requires s.Failed?
    ensures Feed(JsonLines, s, bytes, p) == s
  {
    if bytes != [] {
      FailedStays(s, bytes[..|bytes| - 1], p);
    }
  }

  lemma {:induction false} RestFed(s: State, bytes: seq<Byte>, from: nat, middle: nat)
    requires from <= middle <= |bytes|
    ensures Feed(JsonLines, s, bytes[from..], from) ==
            Feed(JsonLines, Feed(JsonLines, s, bytes[from..middle], from), bytes[middle..], middle)
  {
    hide Feed;
    assert bytes[from..] == bytes[from..middle] + bytes[middle..];
    FeedAppend(JsonLines, s, bytes[from..middle], bytes[middle..], from);
  }

  // The end of the file, seen as a state: the last content is recorded and taken.
  function Closed(s: State): State {
    if s.Lines? && s.content.Some? then Record(s, s.content.value.start, s.content.value.end, 0, s.(content := None)) else s
  }

  lemma {:induction false} OnlyLines(s: State, bytes: seq<Byte>, p: int)
    requires !s.Values?
    ensures !Feed(JsonLines, s, bytes, p).Values?
  {
    if bytes != [] {
      OnlyLines(s, bytes[..|bytes| - 1], p);
    }
  }

  // One whole line and its line break.
  lemma {:induction false} LineAndBreakFed(bytes: seq<Byte>, from: nat, end: nat, entries: seq<Range>)
    requires from <= end < |bytes| && bytes[end] == LF && forall i :: from <= i < end ==> bytes[i] != LF
    ensures Feed(JsonLines, Lines(None, entries), bytes[from..], from) ==
            Feed(JsonLines, LineStep(Lines(LineContent(bytes, from, end), entries), LF, end), bytes[end + 1..], end + 1)
  {
    hide LineStep, LineContent;
    var s := Lines(None, entries);
    var t := Lines(LineContent(bytes, from, end), entries);
    LineFed(bytes, from, end, entries);
    RestFed(s, bytes, from, end + 1);
    assert bytes[from..end + 1][..end - from] == bytes[from..end];
    assert Feed(JsonLines, s, bytes[from..end + 1], from) == LineStep(t, LF, end);
  }

  lemma {:induction false} LinesFed(bytes: seq<Byte>, from: nat, entries: seq<Range>)
    requires from <= |bytes|
    ensures Closed(Feed(JsonLines, Lines(None, entries), bytes[from..], from))
            == RecordAll(Lines(None, entries), LineContents(bytes, from))
    decreases |bytes| - from
  {
    hide Record, Feed, LineContent, RecordAll, LineStep;
    var s := Lines(None, entries);
    var end := LineEnd(bytes, from);
    var content := LineContent(bytes, from, end);
    if end == |bytes| {
      LineFed(bytes, from, end, entries);
      assert bytes[from..end] == bytes[from..];
      LastLine(s, content);
    } else {
      LineAndBreakFed(bytes, from, end, entries);
      var u := LineStep(Lines(content, entries), LF, end);
      var more := LineContents(bytes, end + 1);
      LineTaken(entries, content, end, more);
      if u.Lines? {
        LinesFed(bytes, end + 1, u.entries);
      } else {
        FailedStays(u, bytes[end + 1..], end + 1);
        NothingRecorded(u, more);
      }
    }
  }

  lemma NothingRecorded(s: State, contents: seq<Content>)
    requires !s.Lines?
    ensures RecordAll(s, contents) == s
  {
  }

  lemma {:induction false} LastLine(s: State, content: Option<Content>)
    requires s.Lines? && s.content == None
    ensures Closed(s.(content := content)) ==
            RecordAll(s, if content.Some? then [content.value] + [] else [])
    ensures content.Some? ==> [content.value] + [] == [content.value]
  {
    if content.Some? {
      var c := content.value;
      assert ([c] + [])[1..] == [];
    }
  }

  lemma {:induction false} LineTaken(entries: seq<Range>, content: Option<Content>, p: int, more: seq<Content>)
    ensures var s := Lines(None, entries);
            var u := LineStep(Lines(content, entries), LF, p);
            && (u.Lines? ==> u.content == None)
            && !u.Values?
            && RecordAll(s, if content.Some? then [content.value] + more else more) == RecordAll(u, more)
  {
    if content.Some? {
      assert ([content.value] + more)[1..] == more;
    }
  }

  /**
   The entries of a JSON Lines file are the contents of its lines, in order, as far as the index
   takes them: all of them unless one is too large.
   */
  lemma {:induction false} LinesAreFound(bytes: seq<Byte>)
    ensures var s := Finish(Feed(JsonLines, Initial(JsonLines), bytes, 0), |bytes|);
            var all := RecordAll(Lines(None, []), LineContents(bytes, 0));
            s.entries == all.entries && (s.Failed? <==> all.Failed?)
  {
    LinesFed(bytes, 0, []);
    assert bytes[0..] == bytes;
    OnlyLines(Lines(None, []), bytes, 0);
  }
}
