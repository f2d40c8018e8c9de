/**
 The edited document of packages/editor-core/src/pieceTable.ts as the source keeps it: pieces, two
 stacks of earlier and later pieces, a cache of where pieces start, and the saved point. Every operation
 is stated on the plain sequence of lines the pieces stand for.
 */
module LinePieceTable {
  import opened Wrappers
  import opened Pieces
  import opened PieceHistory

  // Where each piece starts.
  function Starts(pieces: seq<Piece>): seq<nat> {
    seq(|pieces|, i requires 0 <= i < |pieces| => |Content(pieces[..i])|)
  }

  function Least(a: int, b: int): int {
    if a < b then a else b
  }

  function Most(a: int, b: int): int {
    if a > b then a else b
  }

  // The text of a line, given the lines of the file.
  function TextOf(line: Line, file: seq<string>): string {
    match line
    case FromFile(n) => if 0 <= n < |file| then file[n] else ""
    case Typed(text) => text
  }

  function Texts(lines: seq<Line>, file: seq<string>): seq<string> {
    seq(|lines|, i requires 0 <= i < |lines| => TextOf(lines[i], file))
  }

  // The texts of one part; a short read of the file leaves lines empty.
  function PartTexts(p: Piece, readOriginal: (int, nat) -> seq<string>): seq<string> {
    match p
    case Added(lines) => lines
    case Original(from, count) =>
      var got := readOriginal(from, count);
      seq(count, i requires 0 <= i < count => if i < |got| then got[i] else "")
  }

  // Reads any lines of the file that are there.
  ghost predicate ReadsFile(readOriginal: (int, nat) -> seq<string>, file: seq<string>) {
    forall from: int, count: nat :: 0 <= from && from + count <= |file| ==> readOriginal(from, count) == file[from..from + count]
  }

  lemma PartRead(p: Piece, readOriginal: (int, nat) -> seq<string>, file: seq<string>)
    ensures |PartTexts(p, readOriginal)| == SizeOf(p)
    ensures ReadsFile(readOriginal, file) && InFile([p], |file|) ==> PartTexts(p, readOriginal) == Texts(LinesOf(p), file)
  {
    assert [p][0] == p;
  }

  lemma TextsOfTwo(a: seq<Line>, b: seq<Line>, file: seq<string>)
    ensures Texts(a + b, file) == Texts(a, file) + Texts(b, file)
  {
  }

  /* ---------- Pieces by their places ---------- */

  lemma {:induction false} PrefixGrows(pieces: seq<Piece>, i: nat)
    requires i < |pieces|
    ensures Content(pieces[..i + 1]) == Content(pieces[..i]) + LinesOf(pieces[i])
  {
    assert pieces[..i + 1][..i] == pieces[..i];
  }

  lemma {:induction false} PrefixOf(pieces: seq<Piece>, i: nat)
    requires i <= |pieces|
    ensures |Content(pieces[..i])| <= |Content(pieces)|
    ensures Content(pieces)[..|Content(pieces[..i])|] == Content(pieces[..i])
  {
    assert pieces == pieces[..i] + pieces[i..];
    ContentOfTwo(pieces[..i], pieces[i..]);
  }

  lemma {:induction false} StartsGrow(pieces: seq<Piece>, i: nat, j: nat)
    requires i <= j <= |pieces|
    ensures |Content(pieces[..i])| <= |Content(pieces[..j])|
  {
    assert pieces[..j][..i] == pieces[..i];
    PrefixOf(pieces[..j], i);
  }

  // The part of piece `i` that lies in `[first, last)`.
  lemma {:induction false} PartOfPiece(pieces: seq<Piece>, i: nat, first: nat, last: nat)
    requires i < |pieces| && first < last <= |Content(pieces)|
    requires SizeOf(pieces[i]) > 0 && first < |Content(pieces[..i + 1])| && |Content(pieces[..i])| < last
    ensures var start, end := |Content(pieces[..i])|, |Content(pieces[..i + 1])|;
            var a, b := Most(first, start), Least(last, end);
            && start <= a < b <= end == start + SizeOf(pieces[i])
            && LinesOf(pieces[i])[a - start..b - start] == Content(pieces)[a..b]
  {
    hide Content, LinesOf;
    PrefixGrows(pieces, i);
    PrefixOf(pieces, i + 1);
    var start, end := |Content(pieces[..i])|, |Content(pieces[..i + 1])|;
    var a, b := Most(first, start), Least(last, end);
    WholeInParts(Content(pieces), Content(pieces[..i + 1]), Content(pieces[..i]), LinesOf(pieces[i]), a, b);
  }

  lemma WholeInParts(content: seq<Line>, prefix: seq<Line>, before: seq<Line>, lines: seq<Line>, a: nat, b: nat)
    requires |before| <= a <= b <= |prefix| <= |content|
    requires prefix == before + lines && content[..|prefix|] == prefix
    ensures lines[a - |before|..b - |before|] == content[a..b]
  {
    forall k | 0 <= k < b - a ensures lines[a - |before|..b - |before|][k] == content[a..b][k] {
      assert content[..|prefix|][a + k] == prefix[a + k];
    }
  }

  // The part of piece `i` that lies in `[first, last)`, as a piece.
  lemma {:induction false} PartTaken(pieces: seq<Piece>, i: nat, first: nat, last: nat)
    requires i < |pieces| && first < last <= |Content(pieces)|
    requires SizeOf(pieces[i]) > 0 && first < |Content(pieces[..i + 1])| && |Content(pieces[..i])| < last
    ensures var start, end := |Content(pieces[..i])|, |Content(pieces[..i + 1])|;
            var a, b := Most(first, start), Least(last, end);
            && start <= a < b <= end == start + SizeOf(pieces[i]) <= |Content(pieces)|
            && |Slice(pieces[i], a - start, b - start)| == 1 && SizeOf(Slice(pieces[i], a - start, b - start)[0]) == b - a
            && Content(Slice(pieces[i], a - start, b - start)) == Content(pieces)[a..b]
  {
    hide Content, LinesOf;
    PartOfPiece(pieces, i, first, last);
    PrefixOf(pieces, i + 1);
    var start, end := |Content(pieces[..i])|, |Content(pieces[..i + 1])|;
    SliceContent(pieces[i], Most(first, start) - start, Least(last, end) - start);
  }

  // What the lines before a splice are after one more piece.
  lemma BeforeGrows(content: seq<Line>, lines: seq<Line>, from: nat)
    ensures var n := |content|;
            (content + lines)[..Least(from, n + |lines|)] ==
            content[..Least(from, n)] + lines[..if n < from then Least(|lines|, from - n) else 0]
  {
  }

  // What the lines after a splice are after one more piece.
  lemma AfterGrows(content: seq<Line>, lines: seq<Line>, cut: nat)
    ensures var n := |content|;
            (content + lines)[Least(cut, n + |lines|)..] ==
            content[Least(cut, n)..] + lines[if n + |lines| > cut then Most(0, cut - n) else |lines|..]
  {
  }

  /* ---------- Sameness ---------- */

  predicate SamePiece(a: Piece, b: Piece) {
    match a
    case Original(from, count) => b.Original? && b.from == from && b.count == count
    case Added(lines) => b.Added? && |b.lines| == |lines| && forall k :: 0 <= k < |lines| ==> lines[k] == b.lines[k]
  }

  predicate SamePieces(a: seq<Piece>, b: seq<Piece>) {
    |a| == |b| && forall i :: 0 <= i < |a| ==> SamePiece(a[i], b[i])
  }

  lemma SameIsEqual(a: seq<Piece>, b: seq<Piece>)
    ensures SamePieces(a, b) <==> a == b
  {
    if SamePieces(a, b) {
      forall i | 0 <= i < |a| ensures a[i] == b[i] {
        assert SamePiece(a[i], b[i]);
      }
    }
  }

  /* ---------- The object ---------- */

  class LinePieceTable {
    const originalLineCount: nat
    var current: seq<Piece>
    var undoStack: seq<seq<Piece>>
    var redoStack: seq<seq<Piece>>
    var starts: Option<seq<nat>>
    var total: nat
    var savedPoint: seq<Piece>

    // Pieces the document may consist of.
    ghost predicate Fine(pieces: seq<Piece>) {
      && Normal(pieces) && InFile(pieces, originalLineCount)
      && (originalLineCount > 0 ==> pieces != [])
    }

    ghost predicate Valid()
      reads this
    {
      && Fine(current) && Fine(savedPoint)
      && (forall i :: 0 <= i < |undoStack| ==> Fine(undoStack[i]))
      && (forall i :: 0 <= i < |redoStack| ==> Fine(redoStack[i]))
      && total == |Content(current)|
      && (starts.Some? ==> starts.value == Starts(current))
      && Bounded(Past())
    }

    function Past(): History<seq<Piece>>
      reads this`undoStack, this`current, this`redoStack
    {
      History(undoStack, current, redoStack)
    }

    ghost function Document(): seq<Line>
      reads this`current
    {
      Content(current)
    }

    constructor (originalLineCount: nat)
      ensures Valid() && this.originalLineCount == originalLineCount
      ensures Document() == LinesOf(Original(0, originalLineCount)) && savedPoint == current
      ensures undoStack == [] && redoStack == []
    {
      this.originalLineCount := originalLineCount;
      var opened_ := if originalLineCount > 0 then [Original(0, originalLineCount)] else [];
      current, savedPoint := opened_, opened_;
      undoStack, redoStack, starts := [], [], None;
      total := originalLineCount;
      ContentOfOne(Original(0, originalLineCount));
      NoContent();
    }

    /** Whether a line differs, in where it comes from or in its text, from what was last saved. */
    method Dirty() returns (dirty: bool)
      requires Valid()
      ensures dirty <==> Document() != Content(savedPoint)
    {
      hide Content, SamePieces, Normal, InFile;
      dirty := !SamePieces(current, savedPoint);
      SameIsEqual(current, savedPoint);
      if Content(current) == Content(savedPoint) {
        NormalFormUnique(current, savedPoint);
      }
    }

    method MarkSaved()
      requires Valid()
      modifies this`savedPoint
      ensures Valid() && savedPoint == current
    {
      savedPoint := current;
    }

    /** Replaces `deleteCount` lines from `from` on with `lines`; refused when `from` is out of range. */
    method Splice(from: int, deleteCount: int, lines: seq<string>) returns (ok: bool)
      requires Valid()
      modifies this
      ensures Valid() && savedPoint == old(savedPoint)
      ensures ok == (0 <= from <= old(total))
      ensures var left := old(total) - from;
              var remove := if !ok || deleteCount <= 0 then 0 else if deleteCount <= left then deleteCount else left;
              if !ok || (remove == 0 && lines == []) then Past() == old(Past())
              else
                var next := old(Document())[..from] + TypedLines(lines) + old(Document())[from + remove..];
                Past() == PieceHistory.Push(old(Past()), current) && Document() == if next == [] then [Typed("")] else next
    {
      hide Content, Normal, InFile, Starts, Bounded, LinesOf;
      if from < 0 || from > total {
        return false;
      }
      ok := true;
      var remove := Most(0, Least(deleteCount, total - from));
      if remove == 0 && lines == [] {
        return;
      }
      var before, after := Around(from, from + remove);
      var middle := if lines != [] then [Added(lines)] else [];
      var next := Normalize(before + middle + after);
      MiddleContent(lines);
      ContentOfTwo(before + middle, after);
      ContentOfTwo(before, middle);
      TwoInFile(before, middle);
      TwoInFile(before + middle, after);
      ghost var document := Content(current);
      assert Content(next) == document[..from] + TypedLines(lines) + document[from + remove..];
      Take(next);
    }

    lemma MiddleContent(lines: seq<string>)
      ensures var middle := if lines != [] then [Added(lines)] else [];
              Content(middle) == TypedLines(lines) && InFile(middle, originalLineCount)
    {
      if lines != [] {
        ContentOfOne(Added(lines));
      } else {
        NoContent();
      }
    }

    lemma TwoInFile(a: seq<Piece>, b: seq<Piece>)
      requires InFile(a, originalLineCount) && InFile(b, originalLineCount)
      ensures InFile(a + b, originalLineCount)
    {
    }

    // The pieces before line `from` and the pieces from line `cut` on.
    method Around(from: nat, cut: nat) returns (before: seq<Piece>, after: seq<Piece>)
      requires Valid() && from <= cut <= total
      ensures Content(before) == Document()[..from] && Content(after) == Document()[cut..]
      ensures InFile(before, originalLineCount) && InFile(after, originalLineCount)
    {
      hide Content, Normal, InFile, Starts, Bounded, LinesOf;
      before, after := [], [];
      var position, i := 0, 0;
      NoContent();
      NoneInFile();
      assert current[..0] == [];
      while i < |current|
        invariant i <= |current| && position == |Content(current[..i])|
        invariant Content(before) == Content(current[..i])[..Least(from, position)]
        invariant Content(after) == Content(current[..i])[Least(cut, position)..]
        invariant InFile(before, originalLineCount) && InFile(after, originalLineCount)
      {
        var piece := current[i];
        var size := SizeOf(piece);
        var end := position + size;
        ghost var content := Content(current[..i]);
        PrefixGrows(current, i);
        BeforeGrows(content, LinesOf(piece), from);
        AfterGrows(content, LinesOf(piece), cut);
        if position < from {
          before := SliceAdded(before, piece, 0, Least(size, from - position));
        }
        if end > cut {
          after := SliceAdded(after, piece, Most(0, cut - position), size);
        }
        position, i := end, i + 1;
      }
      assert current[..i] == current;
    }

    lemma NoneInFile()
      ensures InFile([], originalLineCount)
    {
    }

    method SliceAdded(pieces: seq<Piece>, piece: Piece, from: nat, end: nat) returns (out: seq<Piece>)
      requires Valid() && piece in current && from <= end <= SizeOf(piece) && InFile(pieces, originalLineCount)
      ensures Content(out) == Content(pieces) + LinesOf(piece)[from..end] && InFile(out, originalLineCount)
    {
      hide Content, Normal, Starts, Bounded, LinesOf;
      SliceContent(piece, from, end);
      ContentOfTwo(pieces, Slice(piece, from, end));
      SliceInFile(piece, from, end, originalLineCount);
      out := pieces + Slice(piece, from, end);
    }

    // A new edit, with one empty line in place of none.
    method Take(next: seq<Piece>)
      requires Valid() && Normal(next) && InFile(next, originalLineCount)
      modifies this
      ensures Valid() && savedPoint == old(savedPoint)
      ensures Past() == PieceHistory.Push(old(Past()), current)
      ensures Document() == if Content(next) == [] then [Typed("")] else Content(next)
    {
      hide Content, InFile, Starts, LinesOf;
      EmptyLine();
      NoContent();
      OnlyEmptyIsEmpty(next);
      ghost var was := Past();
      undoStack := undoStack + [current];
      if |undoStack| > HISTORY_LIMIT {
        undoStack := undoStack[1..];
      }
      redoStack := [];
      Set(if next != [] then next else [Added([""])]);
      assert undoStack == Latest(was.undo + [was.current]);
    }

    lemma EmptyLine()
      ensures Content([Added([""])]) == [Typed("")] && Normal([Added([""])]) && InFile([Added([""])], originalLineCount)
    {
      ContentOfOne(Added([""]));
      assert LinesOf(Added([""])) == [Typed("")];
    }

    lemma OnlyEmptyIsEmpty(next: seq<Piece>)
      requires Normal(next)
      ensures Content(next) == [] ==> next == []
    {
      if next != [] {
        WithinFirst(next);
      }
    }

    method Set(next: seq<Piece>)
      requires Fine(next)
      modifies this`current, this`starts, this`total
      ensures current == next && starts == None && total == |Content(next)|
    {
      hide Content, InFile, LinesOf, Normal;
      current, starts := next, None;
      var sum, i := 0, 0;
      NoContent();
      assert next[..0] == [];
      while i < |next|
        invariant i <= |next| && sum == |Content(next[..i])| && current == next && starts == None
      {
        PrefixGrows(next, i);
        sum, i := sum + SizeOf(next[i]), i + 1;
      }
      assert next[..i] == next;
      total := sum;
    }

    /** Replaces the whole document by saved pieces, unless they name lines the file does not have. */
    method Restore(pieces: seq<Piece>) returns (ok: bool)
      requires Valid()
      modifies this
      ensures Valid() && savedPoint == old(savedPoint)
      ensures ok == InFile(pieces, originalLineCount)
      ensures if !ok then Past() == old(Past())
              else Past() == PieceHistory.Push(old(Past()), current)
                   && Document() == if Content(pieces) == [] then [Typed("")] else Content(pieces)
    {
      hide Content, Normal, Starts, LinesOf;
      var i := 0;
      while i < |pieces|
        invariant i <= |pieces| && InFile(pieces[..i], originalLineCount)
      {
        var piece := pieces[i];
        if piece.Original? && (piece.from < 0 || piece.from + piece.count > originalLineCount) {
          return false;
        }
        i := i + 1;
      }
      assert pieces[..i] == pieces;
      ok := true;
      var next := Normalize(pieces);
      Take(next);
    }

    method SetLine(index: int, text: string) returns (ok: bool)
      requires Valid()
      modifies this
      ensures Valid() && savedPoint == old(savedPoint)
      ensures ok == (0 <= index < old(total))
      ensures if !ok then Past() == old(Past())
              else Past() == PieceHistory.Push(old(Past()), current)
                   && Document() == old(Document())[index := Typed(text)]
    {
      hide Content, Normal, InFile, LinesOf, Starts, Bounded;
      if index < 0 || index >= total {
        return false;
      }
      ok := Splice(index, 1, [text]);
      assert TypedLines([text]) == [Typed(text)];
    }

    method Undo() returns (ok: bool)
      requires Valid()
      modifies this
      ensures Valid() && savedPoint == old(savedPoint)
      ensures ok == (old(undoStack) != []) && Past() == Back(old(Past()))
    {
      hide Content, Normal, InFile, Starts;
      var n := |undoStack| - 1;
      if n < 0 {
        return false;
      }
      var previous := undoStack[n];
      undoStack, redoStack := undoStack[..n], redoStack + [current];
      Set(previous);
      ok := true;
    }

    method Redo() returns (ok: bool)
      requires Valid()
      modifies this
      ensures Valid() && savedPoint == old(savedPoint)
      ensures ok == (old(redoStack) != []) && Past() == Forth(old(Past()))
    {
      hide Content, Normal, InFile, Starts;
      var n := |redoStack| - 1;
      if n < 0 {
        return false;
      }
      var next := redoStack[n];
      undoStack, redoStack := undoStack + [current], redoStack[..n];
      Set(next);
      ok := true;
    }

    method StartsOf() returns (r: seq<nat>)
      requires Valid()
      modifies this`starts
      ensures Valid() && r == Starts(current)
    {
      hide Content, Normal, InFile, LinesOf, Bounded;
      if starts.Some? {
        return starts.value;
      }
      r := [];
      var at, i := 0, 0;
      NoContent();
      assert current[..0] == [];
      while i < |current|
        invariant i <= |current| && at == |Content(current[..i])| && r == Starts(current)[..i]
      {
        PrefixGrows(current, i);
        r := r + [at];
        at, i := at + SizeOf(current[i]), i + 1;
      }
      starts := Some(r);
    }

    // The lines of `[from, from + count)` that the document has.
    ghost function Lines(from: int, count: int): seq<Line>
      reads this`current
    {
      var first, last := if from > 0 then from else 0, if from + count < |Document()| then from + count else |Document()|;
      if first >= last then [] else Document()[first..last]
    }

    /** The parts of a range of lines, none of them empty, in document order. */
    method Segments(from: int, count: int) returns (out: seq<Piece>)
      requires Valid()
      modifies this`starts
      ensures Valid() && Content(out) == Lines(from, count)
      ensures InFile(out, originalLineCount) && forall i :: 0 <= i < |out| ==> SizeOf(out[i]) > 0
    {
      hide Content, Normal, InFile, LinesOf, Bounded, Starts;
      var first, last := Most(0, from), Least(total, from + count);
      out := [];
      NoContent();
      NoneInFile();
      if first >= last {
        return;
      }
      var places := StartsOf();
      var low := PieceAt(places, first);
      out := Parts(places, low, first, last);
    }

    // The piece that holds line `first`.
    method PieceAt(places: seq<nat>, first: nat) returns (low: nat)
      requires Valid() && places == Starts(current) && first < total
      ensures low < |current|
      ensures |Content(current[..low])| <= first < |Content(current[..low + 1])|
    {
      hide Content, Normal, InFile, LinesOf, Bounded;
      NoContent();
      assert current[..0] == [] && current[..|current|] == current;
      low := 0;
      var high := |current| - 1;
      while low < high
        invariant 0 <= low <= high < |current|
        invariant |Content(current[..low])| <= first < |Content(current[..high + 1])|
      {
        var middle := (low + high + 1) / 2;
        if places[middle] <= first {
          low := middle;
        } else {
          high := middle - 1;
        }
      }
    }

    method Parts(places: seq<nat>, low: nat, first: nat, last: nat) returns (out: seq<Piece>)
      requires Valid() && places == Starts(current) && first < last <= total && low < |current|
      requires |Content(current[..low])| <= first < |Content(current[..low + 1])|
      ensures Content(out) == Document()[first..last]
      ensures InFile(out, originalLineCount) && forall i :: 0 <= i < |out| ==> SizeOf(out[i]) > 0
    {
      hide Content, InFile, LinesOf, Bounded, Slice;
      out := [];
      NoContent();
      NoneInFile();
      assert current[..|current|] == current;
      var i := low;
      while i < |current| && places[i] < last
        invariant low <= i <= |current|
        invariant i < |current| ==> first < |Content(current[..i + 1])|
        invariant i > low ==> first < |Content(current[..i])|
        invariant |Content(current[..i])| <= total
        invariant Content(out) == Document()[first..Most(first, Least(last, |Content(current[..i])|))]
        invariant InFile(out, originalLineCount) && forall j :: 0 <= j < |out| ==> SizeOf(out[j]) > 0
      {
        var piece, start := current[i], places[i];
        var takeFrom := Most(first, start) - start;
        var takeTo := Least(last, start + SizeOf(piece)) - start;
        PartTaken(current, i, first, last);
        if i + 1 < |current| {
          StartsGrow(current, i + 1, i + 2);
        }
        ContentOfTwo(out, Slice(piece, takeFrom, takeTo));
        PieceInFile(i);
        SliceInFile(piece, takeFrom, takeTo, originalLineCount);
        TwoInFile(out, Slice(piece, takeFrom, takeTo));
        Adjacent(Document(), first, start, last, start + SizeOf(piece));
        out := out + Slice(piece, takeFrom, takeTo);
        i := i + 1;
      }
    }

    lemma PieceInFile(i: nat)
      requires Valid() && i < |current|
      ensures InFile([current[i]], originalLineCount)
    {
    }

    lemma Adjacent(lines: seq<Line>, first: nat, start: nat, last: nat, end: nat)
      requires first < last <= |lines| && start < last && start <= end && first < end <= |lines|
      ensures lines[first..Most(first, Least(last, start))] + lines[Most(first, start)..Least(last, end)]
              == lines[first..Least(last, end)]
    {
    }

    /** The line of the file a line of the document is, if it is one. */
    method OriginalLineAt(index: int) returns (n: Option<int>)
      requires Valid()
      modifies this`starts
      ensures Valid()
      ensures n == if 0 <= index < total && Document()[index].FromFile? then Some(Document()[index].n) else None
    {
      hide Normal, InFile, Bounded, Starts;
      var parts := Segments(index, 1);
      NoContent();
      if parts == [] {
        return None;
      }
      WithinFirst(parts);
      assert LinesOf(parts[0])[0] == Content(parts)[0];
      n := if parts[0].Original? then Some(parts[0].from) else None;
    }

    /**
     The texts of a range of lines. With the whole file to read from they are the texts of exactly those
     lines; a short read keeps their number.
     */
    method Read(from: int, count: int, readOriginal: (int, nat) -> seq<string>) returns (lines: seq<string>)
      requires Valid()
      modifies this`starts
      ensures Valid() && |lines| == |Lines(from, count)|
      ensures forall file :: ReadsFile(readOriginal, file) && |file| == originalLineCount ==>
                lines == Texts(Lines(from, count), file)
    {
      hide Content, Normal, InFile, LinesOf, Bounded, Starts, ReadsFile, PartTexts, Texts;
      var parts := Segments(from, count);
      lines := [];
      NoContent();
      assert parts[..0] == [];
      NoTexts();
      var i := 0;
      while i < |parts|
        invariant Valid() && i <= |parts| && |lines| == |Content(parts[..i])|
        invariant forall file :: ReadsFile(readOriginal, file) && |file| == originalLineCount ==>
                    lines == Texts(Content(parts[..i]), file)
      {
        var part := PartTexts(parts[i], readOriginal);
        PrefixGrows(parts, i);
        OneInFile(parts, i);
        forall file | ReadsFile(readOriginal, file) && |file| == originalLineCount
          ensures lines + part == Texts(Content(parts[..i + 1]), file)
        {
          PartRead(parts[i], readOriginal, file);
          TextsOfTwo(Content(parts[..i]), LinesOf(parts[i]), file);
        }
        PartRead(parts[i], readOriginal, []);
        lines := lines + part;
        i := i + 1;
      }
      assert parts[..i] == parts;
    }

    lemma OneInFile(parts: seq<Piece>, i: nat)
      requires InFile(parts, originalLineCount) && i < |parts|
      ensures InFile([parts[i]], originalLineCount)
    {
    }

    lemma NoTexts()
      ensures forall file :: Texts([], file) == []
    {
    }
  }
}
