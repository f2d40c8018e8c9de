/**
 An edited document as runs of lines (packages/editor-core/src/pieceTable.ts): what a sequence of pieces
 stands for, and why its normal form is the only one.
 */
module Pieces {
  import opened Wrappers

  // A run of lines of the file, or of lines that were typed in.
  datatype Piece =
    | Original(from: int, count: nat)
    | Added(lines: seq<string>)

  // One line of the document: a line of the file, or a text.
  datatype Line = FromFile(n: int) | Typed(text: string)

  function SizeOf(p: Piece): nat {
    match p
    case Original(_, count) => count
    case Added(lines) => |lines|
  }

  function TypedLines(lines: seq<string>): seq<Line> {
    seq(|lines|, i requires 0 <= i < |lines| => Typed(lines[i]))
  }

  function LinesOf(p: Piece): (r: seq<Line>)
    ensures |r| == SizeOf(p)
  {
    match p
    case Original(from, count) => seq(count, i => FromFile(from + i))
    case Added(lines) => TypedLines(lines)
  }

  // The document that pieces stand for.
  function Content(pieces: seq<Piece>): seq<Line> {
    if pieces == [] then [] else Content(pieces[..|pieces| - 1]) + LinesOf(pieces[|pieces| - 1])
  }

  // Whether the second of two neighbours continues the first.
  predicate Joins(a: Piece, b: Piece) {
    (a.Original? && b.Original? && a.from + a.count == b.from) || (a.Added? && b.Added?)
  }

  function Joined(a: Piece, b: Piece): Piece
    requires Joins(a, b)
  {
    if a.Original? then Original(a.from, a.count + b.count) else Added(a.lines + b.lines)
  }

  // No piece is empty, and none continues the one before it.
  predicate Normal(pieces: seq<Piece>) {
    && (forall i :: 0 <= i < |pieces| ==> SizeOf(pieces[i]) > 0)
    && (forall i :: 0 < i < |pieces| ==> !Joins(pieces[i - 1], pieces[i]))
  }

  // Every line of the file that is named is there.
  predicate InFile(pieces: seq<Piece>, lineCount: nat) {
    forall i :: 0 <= i < |pieces| && pieces[i].Original? ==>
      0 <= pieces[i].from && pieces[i].from + pieces[i].count <= lineCount
  }

  /* ---------- Content ---------- */

  lemma ContentGrows(pieces: seq<Piece>, p: Piece)
    ensures Content(pieces + [p]) == Content(pieces) + LinesOf(p)
  {
    assert (pieces + [p])[..|pieces|] == pieces;
  }

  lemma {:induction false} ContentOfTwo(a: seq<Piece>, b: seq<Piece>)
    ensures Content(a + b) == Content(a) + Content(b)
  {
    hide LinesOf, Content;
    if b == [] {
      assert a + b == a;
      NoContent();
    } else {
      var n := |b| - 1;
      ContentOfTwo(a, b[..n]);
      assert a + b == (a + b[..n]) + [b[n]] && b == b[..n] + [b[n]];
      ContentGrows(a + b[..n], b[n]);
      ContentGrows(b[..n], b[n]);
    }
  }

  lemma NoContent()
    ensures Content([]) == []
  {
  }

  lemma ContentOfOne(p: Piece)
    ensures Content([p]) == LinesOf(p)
  {
    assert [p][..0] == [];
  }

  lemma ContentFirst(pieces: seq<Piece>)
    requires pieces != []
    ensures Content(pieces) == LinesOf(pieces[0]) + Content(pieces[1..])
  {
    assert pieces == [pieces[0]] + pieces[1..];
    ContentOfTwo([pieces[0]], pieces[1..]);
    ContentOfOne(pieces[0]);
  }

  // The part `[from, to)` of a piece, as zero or one piece.
  function Slice(p: Piece, from: nat, to: nat): (r: seq<Piece>)
    requires from < to ==> to <= SizeOf(p)
    ensures |r| <= 1 && (from < to ==> |r| == 1 && SizeOf(r[0]) == to - from)
  {
    if to <= from then []
    else match p
      case Original(start, _) => [Original(start + from, to - from)]
      case Added(lines) => [Added(lines[from..to])]
  }

  lemma SliceContent(p: Piece, from: nat, to: nat)
    requires from <= to <= SizeOf(p)
    ensures Content(Slice(p, from, to)) == LinesOf(p)[from..to]
  {
    hide Content;
    if from < to {
      var part := Slice(p, from, to)[0];
      ContentOfOne(part);
      forall k | 0 <= k < to - from ensures LinesOf(part)[k] == LinesOf(p)[from..to][k] {
        assert LinesOf(p)[from..to][k] == LinesOf(p)[from + k];
      }
    } else {
      NoContent();
    }
  }

  lemma SliceInFile(p: Piece, from: nat, to: nat, lineCount: nat)
    requires (from < to ==> to <= SizeOf(p)) && InFile([p], lineCount)
    ensures InFile(Slice(p, from, to), lineCount)
  {
    assert [p][0] == p;
  }

  /* ---------- Normal form ---------- */

  lemma JoinedContent(a: Piece, b: Piece)
    requires Joins(a, b)
    ensures LinesOf(Joined(a, b)) == LinesOf(a) + LinesOf(b)
  {
  }

  lemma NormalRest(pieces: seq<Piece>)
    requires Normal(pieces) && pieces != []
    ensures Normal(pieces[1..])
  {
  }

  // The lines after the first piece do not continue it.
  lemma AfterFirst(pieces: seq<Piece>)
    requires Normal(pieces) && |pieces| > 1
    ensures var n := SizeOf(pieces[0]);
            && |Content(pieces)| > n
            && (pieces[0].Added? ==> Content(pieces)[n].FromFile?)
            && (pieces[0].Original? ==> Content(pieces)[n] != FromFile(pieces[0].from + n))
  {
    ContentFirst(pieces);
    ContentFirst(pieces[1..]);
    assert pieces[1..][0] == pieces[1];
    assert !Joins(pieces[1 - 1], pieces[1]);
    assert Content(pieces)[SizeOf(pieces[0])] == LinesOf(pieces[1])[0];
  }

  lemma WithinFirst(pieces: seq<Piece>)
    requires pieces != []
    ensures |Content(pieces)| >= SizeOf(pieces[0])
    ensures |pieces| == 1 ==> |Content(pieces)| == SizeOf(pieces[0])
    ensures forall k :: 0 <= k < SizeOf(pieces[0]) ==> Content(pieces)[k] == LinesOf(pieces[0])[k]
  {
    ContentFirst(pieces);
    if |pieces| == 1 {
      assert pieces[1..] == [];
    }
  }

  // The first piece of one normal form is no longer than that of another of the same content.
  lemma FirstNoLonger(a: seq<Piece>, b: seq<Piece>)
    requires Normal(a) && Normal(b) && a != [] && b != [] && Content(a) == Content(b)
    ensures SizeOf(b[0]) <= SizeOf(a[0])
  {
    hide Content;
    WithinFirst(a);
    WithinFirst(b);
    assert Content(a)[0] == LinesOf(a[0])[0] && Content(b)[0] == LinesOf(b[0])[0];
    if |a| > 1 {
      AfterFirst(a);
    }
  }

  /** Pieces in normal form are known from what they stand for. */
  lemma {:induction false} NormalFormUnique(a: seq<Piece>, b: seq<Piece>)
    requires Normal(a) && Normal(b) && Content(a) == Content(b)
    ensures a == b
    decreases |a|
  {
    if a == [] {
      if b != [] {
        ContentFirst(b);
      }
    } else if b == [] {
      ContentFirst(a);
    } else {
      FirstNoLonger(a, b);
      FirstNoLonger(b, a);
      ContentFirst(a);
      ContentFirst(b);
      FirstEqual(a[0], b[0], Content(a[1..]), Content(b[1..]));
      NormalRest(a);
      NormalRest(b);
      NormalFormUnique(a[1..], b[1..]);
      assert a == [a[0]] + a[1..] && b == [b[0]] + b[1..];
    }
  }

  lemma FirstEqual(p: Piece, q: Piece, restP: seq<Line>, restQ: seq<Line>)
    requires SizeOf(p) == SizeOf(q) > 0 && LinesOf(p) + restP == LinesOf(q) + restQ
    ensures p == q && restP == restQ
  {
    var all, n := LinesOf(p) + restP, SizeOf(p);
    assert all[..n] == LinesOf(p) && all[..n] == LinesOf(q);
    assert all[n..] == restP && all[n..] == restQ;
    assert LinesOf(p)[0] == LinesOf(q)[0];
    if p.Added? {
      forall i | 0 <= i < n ensures p.lines[i] == q.lines[i] {
        assert LinesOf(p)[i] == LinesOf(q)[i];
      }
    }
  }

  /** Drops empty pieces and joins neighbours; the contract leaves one result. */
  method Normalize(pieces: seq<Piece>) returns (out: seq<Piece>)
    ensures Content(out) == Content(pieces) && Normal(out)
    ensures forall lineCount :: InFile(pieces, lineCount) ==> InFile(out, lineCount)
  {
    hide Content, Joins, Joined, SizeOf, LinesOf;
    out := [];
    var i := 0;
    while i < |pieces|
      invariant i <= |pieces|
      invariant Content(out) == Content(pieces[..i]) && Normal(out)
      invariant forall lineCount :: InFile(pieces, lineCount) ==> InFile(out, lineCount)
    {
      assert pieces[..i + 1] == pieces[..i] + [pieces[i]];
      ContentGrows(pieces[..i], pieces[i]);
      out := TakeIn(out, pieces[i]);
      i := i + 1;
    }
    assert pieces[..i] == pieces;
  }

  // One turn of the loop.
  method TakeIn(pieces: seq<Piece>, p: Piece) returns (out: seq<Piece>)
    requires Normal(pieces)
    ensures Content(out) == Content(pieces) + LinesOf(p) && Normal(out)
    ensures forall lineCount :: InFile(pieces, lineCount) && InFile([p], lineCount) ==> InFile(out, lineCount)
  {
    hide Content, LinesOf;
    if SizeOf(p) == 0 {
      EmptyPiece(p);
      return pieces;
    }
    var n := |pieces| - 1;
    if n >= 0 && Joins(pieces[n], p) {
      out := pieces[..n] + [Joined(pieces[n], p)];
      JoinLast(pieces, p);
    } else {
      out := pieces + [p];
      ContentGrows(pieces, p);
      assert [p][0] == p;
    }
  }

  lemma EmptyPiece(p: Piece)
    requires SizeOf(p) == 0
    ensures LinesOf(p) == []
  {
  }

  lemma JoinLast(pieces: seq<Piece>, p: Piece)
    requires Normal(pieces) && pieces != [] && Joins(pieces[|pieces| - 1], p)
    ensures var n := |pieces| - 1;
            var out := pieces[..n] + [Joined(pieces[n], p)];
            && Content(out) == Content(pieces) + LinesOf(p) && Normal(out)
            && (forall lineCount :: InFile(pieces, lineCount) && InFile([p], lineCount) ==> InFile(out, lineCount))
  {
    hide LinesOf;
    var n := |pieces| - 1;
    JoinedContent(pieces[n], p);
    ContentGrows(pieces[..n], Joined(pieces[n], p));
    assert Content(pieces) == Content(pieces[..n]) + LinesOf(pieces[n]);
    forall lineCount | InFile(pieces, lineCount) && InFile([p], lineCount)
      ensures InFile(pieces[..n] + [Joined(pieces[n], p)], lineCount)
    {
      assert [p][0] == p;
    }
  }
}
