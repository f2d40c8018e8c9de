/**
 Undo and redo of packages/editor-core/src/pieceTable.ts as one history: a list of at most 500 points
 behind the current one and the points ahead of it.
 */
module PieceHistory {

  const HISTORY_LIMIT: nat := 500

  datatype History<T> = History(undo: seq<T>, current: T, redo: seq<T>)

  datatype Operation<T> = Edit(next: T) | Undo | Redo

  function Latest<T>(points: seq<T>): seq<T> {
    if |points| > HISTORY_LIMIT then points[|points| - HISTORY_LIMIT..] else points
  }

  // A new edit: the points ahead are dropped.
  function Push<T>(h: History<T>, next: T): History<T> {
    History(Latest(h.undo + [h.current]), next, [])
  }

  function Back<T>(h: History<T>): History<T> {
    var n := |h.undo| - 1;
    if n < 0 then h else History(h.undo[..n], h.undo[n], h.redo + [h.current])
  }

  function Forth<T>(h: History<T>): History<T> {
    var n := |h.redo| - 1;
    if n < 0 then h else History(h.undo + [h.current], h.redo[n], h.redo[..n])
  }

  function Apply<T>(h: History<T>, op: Operation<T>): History<T> {
    match op
    case Edit(next) => Push(h, next)
    case Undo => Back(h)
    case Redo => Forth(h)
  }

  function Run<T>(h: History<T>, ops: seq<Operation<T>>): History<T> {
    if ops == [] then h else Apply(Run(h, ops[..|ops| - 1]), ops[|ops| - 1])
  }

  function Reversed<T>(s: seq<T>): seq<T> {
    if s == [] then [] else [s[|s| - 1]] + Reversed(s[..|s| - 1])
  }

  // All points in the order of time; the current one stands at `|h.undo|`.
  function Timeline<T>(h: History<T>): seq<T> {
    h.undo + [h.current] + Reversed(h.redo)
  }

  predicate Bounded<T>(h: History<T>) {
    |h.undo| <= 500 && |h.undo| + |h.redo| <= 500
  }

  lemma {:induction false} ReversedGrows<T>(s: seq<T>, x: T)
    ensures Reversed(s + [x]) == [x] + Reversed(s)
  {
    assert (s + [x])[..|s|] == s;
  }

  /** One step back and one forth lie on the same line of points. */
  lemma {:induction false} MovesStayOnTheLine<T>(h: History<T>)
    ensures Timeline(Back(h)) == Timeline(h) && Timeline(Forth(h)) == Timeline(h)
    ensures h.undo != [] ==> |Back(h).undo| == |h.undo| - 1 && Forth(Back(h)) == h
    ensures h.redo != [] ==> |Forth(h).undo| == |h.undo| + 1 && Back(Forth(h)) == h
  {
    hide Reversed;
    if h.undo != [] {
      var n := |h.undo| - 1;
      ReversedGrows(h.redo, h.current);
      assert h.undo == h.undo[..n] + [h.undo[n]];
      assert (h.redo + [h.current])[..|h.redo|] == h.redo;
    }
    if h.redo != [] {
      var n := |h.redo| - 1;
      ReversedGrows(h.redo[..n], h.redo[n]);
      assert h.redo == h.redo[..n] + [h.redo[n]];
      assert (h.undo + [h.current])[..|h.undo|] == h.undo;
    }
  }

  /**
   Over any run of edits, undos and redos, there are never more than 500 points behind, nor more than
   500 other points in all.
   */
  lemma {:induction false} AlwaysBounded<T>(h: History<T>, ops: seq<Operation<T>>)
    requires Bounded(h)
    ensures Bounded(Run(h, ops))
  {
    if ops != [] {
      AlwaysBounded(h, ops[..|ops| - 1]);
    }
  }

  /** Undos and redos alone never change the line of points. */
  lemma {:induction false} TimelineKept<T>(h: History<T>, ops: seq<Operation<T>>)
    requires forall i :: 0 <= i < |ops| ==> !ops[i].Edit?
    ensures Timeline(Run(h, ops)) == Timeline(h)
  {
    hide Timeline;
    if ops != [] {
      var n := |ops| - 1;
      TimelineKept(h, ops[..n]);
      MovesStayOnTheLine(Run(h, ops[..n]));
    }
  }

  function Backs<T>(h: History<T>, k: nat): History<T> {
    if k == 0 then h else Back(Backs(h, k - 1))
  }

  function Edits<T>(h: History<T>, points: seq<T>): History<T> {
    if points == [] then h else Push(Edits(h, points[..|points| - 1]), points[|points| - 1])
  }

  lemma {:induction false} BacksStack<T>(h: History<T>, k: nat)
    requires 0 < k <= |h.undo|
    ensures Backs(h, k).undo == h.undo[..|h.undo| - k] && Backs(h, k).current == h.undo[|h.undo| - k]
  {
    if k > 1 {
      BacksStack(h, k - 1);
    }
  }

  // The points behind, after some edits: those before, the current one, and all but the last edit.
  lemma {:induction false} EditsStack<T>(h: History<T>, points: seq<T>)
    requires Bounded(h) && points != []
    ensures var all := h.undo + [h.current] + points[..|points| - 1];
            Edits(h, points).undo == Latest(all) && Edits(h, points).current == points[|points| - 1]
  {
    hide Bounded;
    var n := |points| - 1;
    if n == 0 {
      assert Edits(h, points[..0]) == h;
      assert h.undo + [h.current] + [] == h.undo + [h.current];
    } else {
      EditsStack(h, points[..n]);
      var before := h.undo + [h.current] + points[..n][..n - 1];
      assert points[..n] == points[..n][..n - 1] + [points[n - 1]];
      LatestTwice(before, points[n - 1]);
      assert before + [points[n - 1]] == h.undo + [h.current] + points[..n];
    }
  }

  lemma LatestTwice<T>(points: seq<T>, p: T)
    ensures Latest(Latest(points) + [p]) == Latest(points + [p])
  {
  }

  /**
   Undoing the last `k` edits, for any `k` up to 500, gives what was there before them: the point the
   first of them started from.
   */
  lemma {:induction false} UndoRestores<T>(h: History<T>, points: seq<T>, k: nat)
    requires Bounded(h) && k <= |points| && k <= 500
    ensures Backs(Edits(h, points), k).current == Edits(h, points[..|points| - k]).current
  {
    hide Bounded, Edits, Backs;
    if k > 0 {
      EditsStack(h, points);
      var all := h.undo + [h.current] + points[..|points| - 1];
      var m := |points| - k;
      BacksStack(Edits(h, points), k);
      assert Latest(all)[|Latest(all)| - k] == all[|all| - k];
      if m > 0 {
        EditsStack(h, points[..m]);
        assert all[|all| - k] == points[m - 1];
      } else {
        NoEdits(h);
        assert points[..0] == [];
      }
    } else {
      NoBacks(Edits(h, points));
      assert points[..|points|] == points;
    }
  }

  lemma NoEdits<T>(h: History<T>)
    ensures Edits(h, []) == h
  {
  }

  lemma NoBacks<T>(h: History<T>)
    ensures Backs(h, 0) == h
  {
  }
}
