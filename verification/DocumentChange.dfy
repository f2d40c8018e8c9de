/**
 `diffDocument` as the source runs it: a walk over both documents that pushes dotted paths onto two
 lists and remembers a failure.
 */
module DocumentChange {
  import opened Texts
  import opened Wrappers
  import opened BsonDocument
  import opened DocumentDiff

  function PathOf(prefix: string, key: string): string {
    if prefix != "" then prefix + "." + key else key
  }

  // The dotted path of the names below a prefix, as the walk builds it.
  function Dotted(prefix: string, names: seq<string>): string
    decreases |names|
  {
    if names == [] then prefix else Dotted(PathOf(prefix, names[0]), names[1..])
  }

  function DottedAll(prefix: string, names: seq<seq<string>>): seq<string> {
    seq(|names|, i requires 0 <= i < |names| => Dotted(prefix, names[i]))
  }

  function DottedSets(prefix: string, ops: seq<SetOp>): seq<(string, Node)> {
    seq(|ops|, i requires 0 <= i < |ops| => (Dotted(prefix, ops[i].names), ops[i].value))
  }

  // Among the first `n` edited fields, some name cannot stand in a path.
  predicate FailsTo(before: seq<Entry>, after: seq<Entry>, n: nat)
    requires n <= |after|
  {
    exists i :: 0 <= i < n &&
      (IsBadName(after[i].key)
       || (Nested(before, after[i]) && Fails(Lookup(before, after[i].key).value.entries, after[i].value.entries)))
  }

  lemma DottedUnder(prefix: string, key: string, names: seq<string>)
    ensures Dotted(PathOf(prefix, key), names) == Dotted(prefix, [key] + names)
  {
    assert ([key] + names)[1..] == names;
  }

  lemma {:induction false} DottedSetsUnder(prefix: string, key: string, ops: seq<SetOp>)
    ensures DottedSets(PathOf(prefix, key), ops) == DottedSets(prefix, Under(key, ops))
  {
    forall i | 0 <= i < |ops| ensures Dotted(PathOf(prefix, key), ops[i].names) == Dotted(prefix, Under(key, ops)[i].names) {
      DottedUnder(prefix, key, ops[i].names);
    }
  }

  lemma {:induction false} DottedAllUnder(prefix: string, key: string, names: seq<seq<string>>)
    ensures DottedAll(PathOf(prefix, key), names) == DottedAll(prefix, UnderNames(key, names))
  {
    forall i | 0 <= i < |names| ensures Dotted(PathOf(prefix, key), names[i]) == Dotted(prefix, UnderNames(key, names)[i]) {
      DottedUnder(prefix, key, names[i]);
    }
  }

  lemma DottedAppend(prefix: string, a: seq<SetOp>, b: seq<SetOp>, c: seq<seq<string>>, d: seq<seq<string>>)
    ensures DottedSets(prefix, a + b) == DottedSets(prefix, a) + DottedSets(prefix, b)
    ensures DottedAll(prefix, c + d) == DottedAll(prefix, c) + DottedAll(prefix, d)
  {
  }

  lemma OneDotted(prefix: string, key: string, value: Node)
    ensures DottedSets(prefix, [SetOp([key], value)]) == [(PathOf(prefix, key), value)]
    ensures DottedAll(prefix, [[key]]) == [PathOf(prefix, key)]
  {
    assert [key][1..] == [];
    assert Dotted(prefix, [key]) == Dotted(PathOf(prefix, key), []);
  }

  class Comparison {
    var sets: seq<(string, Node)>
    var unsets: seq<string>
    var failed: bool

    constructor ()
      ensures sets == [] && unsets == [] && !failed
    {
      sets, unsets, failed := [], [], false;
    }

    method Visit(before: seq<Entry>, after: seq<Entry>, prefix: string)
      modifies this
      ensures failed == (old(failed) || Fails(before, after))
      ensures !Fails(before, after) ==>
                sets == old(sets) + DottedSets(prefix, Sets(before, after))
                && unsets == old(unsets) + DottedAll(prefix, Unsets(before, after))
      decreases after, 1
    {
      hide Sets, NestedUnsets, OwnUnsets, Fails, FailsTo, DottedSets, DottedAll;
      ghost var wereSets, wereUnsets, hadFailed := sets, unsets, failed;
      var i := 0;
      SetsTo0(before, prefix);
      FailsUpTo(before, after, 0);
      while i < |after|
        invariant i <= |after|
        invariant failed == (hadFailed || FailsTo(before, after, i))
        invariant !FailsTo(before, after, i) ==>
                    sets == wereSets + DottedSets(prefix, Sets(before, after[..i]))
                    && unsets == wereUnsets + DottedAll(prefix, NestedUnsets(before, after[..i]))
      {
        FailsNext(before, after, i);
        if IsBadName(after[i].key) {
          failed := true;
          FailsUpTo(before, after, i + 1);
          return;
        }
        VisitField(before, after[i], prefix);
        FieldNext(before, after, i, prefix);
        i := i + 1;
      }
      assert after[..|after|] == after;
      FailsUpTo(before, after, |after|);
      VisitRemoved(before, after, prefix);
      DottedAppend(prefix, [], [], NestedUnsets(before, after), OwnUnsets(before, after));
    }

    method VisitField(before: seq<Entry>, e: Entry, prefix: string)
      modifies this
      ensures failed == (old(failed) || (Nested(before, e) && Fails(Lookup(before, e.key).value.entries, e.value.entries)))
      ensures !(Nested(before, e) && Fails(Lookup(before, e.key).value.entries, e.value.entries)) ==>
                sets == old(sets) + DottedSets(prefix, FieldSets(before, e))
                && unsets == old(unsets) + DottedAll(prefix, Inner(before, e))
      decreases e, 0
    {
      hide Sets, Unsets, Fails;
      var path := PathOf(prefix, e.key);
      var previous := Lookup(before, e.key);
      OneDotted(prefix, e.key, e.value);
      if previous.None? {
        sets := sets + [(path, e.value)];
      } else if previous.value.Object? && e.value.Object? {
        var p, q := previous.value.entries, e.value.entries;
        Visit(p, q, path);
        DottedSetsUnder(prefix, e.key, Sets(p, q));
        DottedAllUnder(prefix, e.key, Unsets(p, q));
      } else if !SameNode(previous.value, e.value) {
        sets := sets + [(path, e.value)];
      }
    }

    method VisitRemoved(before: seq<Entry>, after: seq<Entry>, prefix: string)
      modifies this`unsets
      ensures unsets == old(unsets) + DottedAll(prefix, OwnUnsets(before, after))
    {
      hide DottedAll, Dotted, Join, Lookup;
      ghost var were := unsets;
      SetsTo0([], prefix);
      for i := 0 to |before|
        invariant unsets == were + DottedAll(prefix, OwnUnsets(before[..i], after))
      {
        assert before[..i + 1][..i] == before[..i];
        assert OwnUnsets(before[..i], after) + [] == OwnUnsets(before[..i], after);
        if Lookup(after, before[i].key).None? {
          OneDotted(prefix, before[i].key, Null);
          DottedAppend(prefix, [], [], OwnUnsets(before[..i], after), [[before[i].key]]);
          unsets := unsets + [PathOf(prefix, before[i].key)];
        }
      }
      assert before[..|before|] == before;
    }
  }

  // The field at `i` makes the walk fail.
  predicate FailsAt(before: seq<Entry>, after: seq<Entry>, i: nat)
    requires i < |after|
  {
    || IsBadName(after[i].key)
    || (Nested(before, after[i]) && Fails(Lookup(before, after[i].key).value.entries, after[i].value.entries))
  }

  lemma FailsNext(before: seq<Entry>, after: seq<Entry>, n: nat)
    requires n < |after|
    ensures FailsTo(before, after, n + 1) <==> FailsTo(before, after, n) || FailsAt(before, after, n)
  {
    hide Fails;
  }

  lemma FailsUpTo(before: seq<Entry>, after: seq<Entry>, n: nat)
    requires n <= |after|
    ensures FailsTo(before, after, n) ==> Fails(before, after)
    ensures n == |after| ==> (FailsTo(before, after, n) <==> Fails(before, after))
    ensures n == 0 ==> !FailsTo(before, after, n)
  {
  }

  lemma SetsTo0(before: seq<Entry>, prefix: string)
    ensures DottedSets(prefix, Sets(before, [])) == [] && DottedAll(prefix, NestedUnsets(before, [])) == []
    ensures DottedAll(prefix, []) == []
  {
  }

  lemma {:induction false} FieldNext(before: seq<Entry>, after: seq<Entry>, i: nat, prefix: string)
    requires i < |after|
    ensures DottedSets(prefix, Sets(before, after[..i + 1])) ==
            DottedSets(prefix, Sets(before, after[..i])) + DottedSets(prefix, FieldSets(before, after[i]))
    ensures DottedAll(prefix, NestedUnsets(before, after[..i + 1])) ==
            DottedAll(prefix, NestedUnsets(before, after[..i])) + DottedAll(prefix, Inner(before, after[i]))
  {
    hide FieldSets, Unsets, Dotted;
    assert after[..i + 1][..i] == after[..i];
    DottedAppend(prefix, Sets(before, after[..i]), FieldSets(before, after[i]),
                 NestedUnsets(before, after[..i]), Inner(before, after[i]));
  }

  datatype Diff = Change(sets: seq<(string, Node)>, unsets: seq<string>) | NotObjects | IdChanged | BadName

  // The identity of a document is its field `_id`.
  function FindFirst(entries: seq<Entry>, key: string): Option<Node> {
    FindEntry(entries, key)
  }

  predicate IdKept(before: seq<Entry>, after: seq<Entry>) {
    var prior, next := FindFirst(before, "_id"), FindFirst(after, "_id");
    prior.Some? ==> next.Some? && SameNode(prior.value, next.value)
  }

  method DiffDocument(original: Node, edited: Node) returns (r: Diff)
    ensures r == if !original.Object? || !edited.Object? then NotObjects
                 else if !IdKept(original.entries, edited.entries) then IdChanged
                 else if Fails(original.entries, edited.entries) then BadName
                 else Change(DottedSets("", Sets(original.entries, edited.entries)),
                             DottedAll("", Unsets(original.entries, edited.entries)))
  {
    if !original.Object? || !edited.Object? {
      return NotObjects;
    }
    if !IdKept(original.entries, edited.entries) {
      return IdChanged;
    }
    var comparison := new Comparison();
    comparison.Visit(original.entries, edited.entries, "");
    r := if comparison.failed then BadName else Change(comparison.sets, comparison.unsets);
  }

  /* ---------- What the paths do ---------- */

  function Received(sets: seq<(string, Node)>): seq<SetOp> {
    seq(|sets|, i requires 0 <= i < |sets| => SetOp(Split('.', sets[i].0), sets[i].1))
  }

  function ReceivedPaths(unsets: seq<string>): seq<seq<string>> {
    seq(|unsets|, i requires 0 <= i < |unsets| => Split('.', unsets[i]))
  }

  predicate AnyEmptyPart(sets: seq<SetOp>, unsets: seq<seq<string>>) {
    || (exists i :: 0 <= i < |sets| && "" in sets[i].names)
    || (exists i :: 0 <= i < |unsets| && "" in unsets[i])
  }

  // A part that cannot stand in a path.
  predicate IsBadPart(part: string) {
    part == "" || part[0] == '$'
  }

  predicate PathGood(path: seq<string>) {
    forall i :: 0 <= i < |path| ==> !IsBadPart(path[i])
  }

  predicate SetsGood(sets: seq<SetOp>) {
    forall i :: 0 <= i < |sets| ==> PathGood(sets[i].names)
  }

  predicate PathsGood(paths: seq<seq<string>>) {
    forall i :: 0 <= i < |paths| ==> PathGood(paths[i])
  }

  // The server's document after a change it received as dotted text; a change is refused when a part of
  // a path is empty or begins with a dollar sign.
  function Saved(original: Node, sets: seq<(string, Node)>, unsets: seq<string>): Option<Tree> {
    if !SetsGood(Received(sets)) || !PathsGood(ReceivedPaths(unsets)) then None
    else RunSets(RunUnsets(TreeOf(original), ReceivedPaths(unsets)), Received(sets))
  }

  // The names of a path from the first that is not empty: what the dotted text keeps of it.
  function Core(names: seq<string>): (r: seq<string>)
    ensures r != [] ==> r[0] != ""
    ensures |r| <= |names| && r == names[|names| - |r|..]
    ensures forall i :: 0 <= i < |names| - |r| ==> names[i] == ""
  {
    if names != [] && names[0] == "" then Core(names[1..]) else names
  }

  lemma {:induction false} DottedFrom(prefix: string, names: seq<string>)
    requires prefix != "" && names != []
    ensures Dotted(prefix, names) == prefix + "." + Join('.', names)
    decreases |names|
  {
    var path := PathOf(prefix, names[0]);
    if |names| == 1 {
      assert names[1..] == [];
      assert Dotted(path, []) == path;
    } else {
      DottedFrom(path, names[1..]);
      assert prefix + "." + names[0] + "." + Join('.', names[1..]) == prefix + "." + Join('.', names);
    }
  }

  lemma {:induction false} DottedIsCore(names: seq<string>)
    ensures Dotted("", names) == if Core(names) == [] then "" else Join('.', Core(names))
    decreases |names|
  {
    if names != [] && names[0] == "" {
      DottedIsCore(names[1..]);
    } else if |names| == 1 {
      assert names[1..] == [];
      assert Dotted(names[0], []) == names[0];
    } else if names != [] {
      DottedFrom(names[0], names[1..]);
      assert PathOf("", names[0]) == names[0];
      assert names[0] + "." + Join('.', names[1..]) == names[0] + ['.'] + Join('.', names[1..]);
    }
  }

  // The parts the server sees in the dotted path of `names`.
  function Sent(names: seq<string>): seq<string> {
    Split('.', Dotted("", names))
  }

  lemma {:induction false} SentIsCore(names: seq<string>)
    ensures Sent(names) == if Core(names) == [] then [""] else Segments(Core(names))
  {
    DottedIsCore(names);
    if Core(names) != [] {
      SplitJoin(Core(names));
    } else {
      SplitWhole('.', "");
    }
  }

  lemma {:induction false} EmptyStays(names: seq<string>)
    requires "" in names
    ensures "" in Segments(names)
  {
    if names[0] == "" {
      SplitWhole('.', "");
    } else {
      EmptyStays(names[1..]);
    }
  }

  lemma {:induction false} NoDotsNoSplit(names: seq<string>)
    requires AllDotFree(names)
    ensures Segments(names) == names
  {
    if names != [] {
      SplitWhole('.', names[0]);
      NoDotsNoSplit(names[1..]);
      assert names == [names[0]] + names[1..];
    }
  }

  // What is sent of a path: all of it but exactly the empty names it begins with. So a path that is sent
  // without an empty part is the path itself, but for empty names in front.
  lemma {:induction false} WhatIsSent(names: seq<string>)
    requires names != []
    ensures Sent(names) == if Core(names) == [] then [""] else Segments(Core(names))
    ensures "" !in names ==> Sent(names) == Segments(names)
    ensures "" in names && "" !in Sent(names) ==> |names| > 1 && names[0] == ""
    ensures Sent(names) != []
  {
    SentIsCore(names);
    if Core(names) != [] && "" in Core(names) {
      EmptyStays(Core(names));
    }
    if |Core(names)| == |names| {
    } else if |names| == 1 {
      assert Core(names[1..]) == [];
    }
    SplitNonempty(Dotted("", names));
  }

  lemma SplitNonempty(s: string)
    ensures Split('.', s) != []
  {
  }

  /* ---------- Two documents that are the same have no change ---------- */

  lemma {:induction false} SameHasNoChange(before: seq<Entry>, after: seq<Entry>, n: nat)
    requires Distinct(Object(before)) && Distinct(Object(after)) && n <= |after|
    requires TreeOf(Object(before)) == TreeOf(Object(after))
    ensures Sets(before, after[..n]) == [] && NestedUnsets(before, after[..n]) == []
    decreases after, n
  {
    hide FieldsOf;
    if n > 0 {
      SameHasNoChange(before, after, n - 1);
      var e := after[n - 1];
      assert after[..n][..n - 1] == after[..n - 1];
      LookupDistinct(after, n - 1);
      FieldsHold(before, e.key);
      FieldsHold(after, e.key);
      DistinctField(before, e.key);
      var previous := Lookup(before, e.key).value;
      if Nested(before, e) {
        NoChange(previous.entries, e.value.entries);
      } else {
        SameNodeIsEquality(previous, e.value);
      }
    }
  }

  lemma {:induction false} NoChange(before: seq<Entry>, after: seq<Entry>)
    requires Distinct(Object(before)) && Distinct(Object(after))
    requires TreeOf(Object(before)) == TreeOf(Object(after))
    ensures Sets(before, after) == [] && Unsets(before, after) == []
    decreases after, |after| + 1
  {
    SameHasNoChange(before, after, |after|);
    assert after[..|after|] == after;
    NothingGone(before, after, |before|);
    assert before[..|before|] == before;
  }

  lemma {:induction false} NothingGone(before: seq<Entry>, after: seq<Entry>, n: nat)
    requires n <= |before| && FieldsOf(before) == FieldsOf(after)
    ensures OwnUnsets(before[..n], after) == []
  {
    if n > 0 {
      NothingGone(before, after, n - 1);
      assert before[..n][..n - 1] == before[..n - 1];
      FieldsKeys(before);
      FieldsHold(after, before[n - 1].key);
      assert before[n - 1].key in Keys(before);
    }
  }

  /* ---------- Paths that begin with an empty name ---------- */

  predicate BeginsBelowEmpty(names: seq<string>) {
    |names| > 1 && names[0] == ""
  }

  // The field with the empty name is an object on both sides and not the same.
  predicate EmptyDiffers(before: seq<Entry>, e: Entry) {
    e.key == "" && Nested(before, e) && TreeOf(Lookup(before, "").value) != TreeOf(e.value)
  }

  lemma {:induction false} FieldBelowEmpty(before: seq<Entry>, e: Entry)
    requires Distinct(Object(before)) && Distinct(e.value)
    requires (exists i :: 0 <= i < |FieldSets(before, e)| && BeginsBelowEmpty(FieldSets(before, e)[i].names))
             || (exists i :: 0 <= i < |Inner(before, e)| && BeginsBelowEmpty(Inner(before, e)[i]))
    ensures EmptyDiffers(before, e)
  {
    hide Sets, Unsets, SameNode;
    if Nested(before, e) {
      var p, q := Lookup(before, e.key).value.entries, e.value.entries;
      DistinctField(before, e.key);
      if TreeOf(Object(p)) == TreeOf(Object(q)) {
        NoChange(p, q);
      }
    }
  }

  lemma {:induction false} SetsBelowEmpty(before: seq<Entry>, after: seq<Entry>, i: nat)
    requires Distinct(Object(before)) && (forall j :: 0 <= j < |after| ==> Distinct(after[j].value))
    requires i < |Sets(before, after)| && BeginsBelowEmpty(Sets(before, after)[i].names)
    ensures exists j :: 0 <= j < |after| && EmptyDiffers(before, after[j])
  {
    hide FieldSets, EmptyDiffers;
    var n := |after| - 1;
    var done := Sets(before, after[..n]);
    if i < |done| {
      SetsBelowEmpty(before, after[..n], i);
    } else {
      assert FieldSets(before, after[n])[i - |done|] == Sets(before, after)[i];
      FieldBelowEmpty(before, after[n]);
    }
  }

  lemma {:induction false} NestedBelowEmpty(before: seq<Entry>, after: seq<Entry>, i: nat)
    requires Distinct(Object(before)) && (forall j :: 0 <= j < |after| ==> Distinct(after[j].value))
    requires i < |NestedUnsets(before, after)| && BeginsBelowEmpty(NestedUnsets(before, after)[i])
    ensures exists j :: 0 <= j < |after| && EmptyDiffers(before, after[j])
  {
    hide Unsets, EmptyDiffers;
    var n := |after| - 1;
    var done := NestedUnsets(before, after[..n]);
    if i < |done| {
      NestedBelowEmpty(before, after[..n], i);
    } else {
      assert Inner(before, after[n])[i - |done|] == NestedUnsets(before, after)[i];
      FieldBelowEmpty(before, after[n]);
    }
  }

  lemma {:induction false} OwnAreShort(before: seq<Entry>, after: seq<Entry>)
    ensures forall i :: 0 <= i < |OwnUnsets(before, after)| ==> |OwnUnsets(before, after)[i]| == 1
  {
    if before != [] {
      OwnAreShort(before[..|before| - 1], after);
    }
  }

  lemma {:induction false} BelowEmptyDiffers(before: seq<Entry>, after: seq<Entry>)
    requires Distinct(Object(before)) && Distinct(Object(after))
    requires (exists i :: 0 <= i < |Sets(before, after)| && BeginsBelowEmpty(Sets(before, after)[i].names))
             || (exists i :: 0 <= i < |Unsets(before, after)| && BeginsBelowEmpty(Unsets(before, after)[i]))
    ensures exists j :: 0 <= j < |after| && EmptyDiffers(before, after[j])
  {
    hide Sets, NestedUnsets, OwnUnsets, EmptyDiffers;
    OwnAreShort(before, after);
    if i :| 0 <= i < |Sets(before, after)| && BeginsBelowEmpty(Sets(before, after)[i].names) {
      SetsBelowEmpty(before, after, i);
    } else {
      var i :| 0 <= i < |Unsets(before, after)| && BeginsBelowEmpty(Unsets(before, after)[i]);
      assert i < |NestedUnsets(before, after)|;
      NestedBelowEmpty(before, after, i);
    }
  }

  // A change of the field with the empty name that is sent with no empty part is made elsewhere.
  lemma {:induction false} Misplaced(original: Node, edited: Node, sets: seq<SetOp>, unsets: seq<seq<string>>)
    requires original.Object? && edited.Object? && Distinct(original) && Distinct(edited)
    requires !AnyEmptyPart(sets, unsets)
    requires exists j :: 0 <= j < |edited.entries| && EmptyDiffers(original.entries, edited.entries[j])
    ensures RunSets(RunUnsets(TreeOf(original), unsets), sets) != Some(TreeOf(edited))
  {
    hide RunSets, RunUnsets;
    var before, after := original.entries, edited.entries;
    var j :| 0 <= j < |after| && EmptyDiffers(before, after[j]);
    FieldsHold(before, "");
    FieldsHold(after, "");
    LookupDistinct(after, j);
    forall i | 0 <= i < |unsets| ensures unsets[i] == [] || unsets[i][0] != "" {
      assert "" !in unsets[i];
    }
    forall i | 0 <= i < |sets| ensures sets[i].names == [] || sets[i].names[0] != "" {
      assert "" !in sets[i].names;
    }
    UnsetsElsewhere(TreeOf(original), unsets, "");
    SetsElsewhere(RunUnsets(TreeOf(original), unsets), sets, "");
  }

  /* ---------- The paths of a clean change have no dot ---------- */

  predicate SetsDotFree(ops: seq<SetOp>) {
    forall i :: 0 <= i < |ops| ==> AllDotFree(ops[i].names)
  }

  predicate PathsDotFree(paths: seq<seq<string>>) {
    forall i :: 0 <= i < |paths| ==> AllDotFree(paths[i])
  }

  lemma UnderDotFree(key: string, names: seq<string>)
    requires DotFree(key) && AllDotFree(names)
    ensures AllDotFree([key] + names)
  {
  }

  lemma {:induction false} SetsAreDotFree(before: seq<Entry>, after: seq<Entry>, n: nat)
    requires n <= |after| && !Fails(before, after)
    ensures SetsDotFree(Sets(before, after[..n]))
    decreases after, n
  {
    hide AllDotFree, SameNode;
    if n > 0 {
      SetsAreDotFree(before, after, n - 1);
      var e := after[n - 1];
      assert after[..n][..n - 1] == after[..n - 1];
      KeyIsDotFree(e.key);
      if Nested(before, e) {
        var p, q := Lookup(before, e.key).value.entries, e.value.entries;
        assert !Fails(p, q);
        SetsAreDotFree(p, q, |q|);
        assert q[..|q|] == q;
        forall i | 0 <= i < |Sets(p, q)| ensures AllDotFree(Under(e.key, Sets(p, q))[i].names) {
          UnderDotFree(e.key, Sets(p, q)[i].names);
        }
      }
      assert SetsDotFree(FieldSets(before, e));
    }
  }

  lemma KeyIsDotFree(key: string)
    ensures DotFree(key) ==> AllDotFree([key])
  {
  }

  lemma {:induction false} OwnAreDotFree(before: seq<Entry>, after: seq<Entry>, n: nat)
    requires n <= |before| && CleanHere(before, after)
    ensures PathsDotFree(OwnUnsets(before[..n], after))
  {
    hide AllDotFree;
    if n > 0 {
      OwnAreDotFree(before, after, n - 1);
      assert before[..n][..n - 1] == before[..n - 1];
      KeyIsDotFree(before[n - 1].key);
    }
  }

  lemma {:induction false} NestedAreDotFree(before: seq<Entry>, after: seq<Entry>, n: nat)
    requires n <= |after| && !Fails(before, after) && Clean(before, after)
    ensures PathsDotFree(NestedUnsets(before, after[..n]))
    decreases after, n
  {
    hide AllDotFree;
    if n > 0 {
      NestedAreDotFree(before, after, n - 1);
      var e := after[n - 1];
      assert after[..n][..n - 1] == after[..n - 1];
      if Nested(before, e) {
        var p, q := Lookup(before, e.key).value.entries, e.value.entries;
        assert !Fails(p, q) && Clean(p, q);
        NestedAreDotFree(p, q, |q|);
        OwnAreDotFree(p, q, |p|);
        assert q[..|q|] == q && p[..|p|] == p;
        forall i | 0 <= i < |Unsets(p, q)| ensures AllDotFree(UnderNames(e.key, Unsets(p, q))[i]) {
          UnderDotFree(e.key, Unsets(p, q)[i]);
        }
      }
    }
  }

  /* ---------- The change as it is sent ---------- */

  // No path of the change has an empty part.
  predicate Filled(before: seq<Entry>, after: seq<Entry>) {
    !AnyEmptyPart(Sets(before, after), Unsets(before, after))
  }

  lemma {:induction false} FilledIsReceived(before: seq<Entry>, after: seq<Entry>)
    requires Filled(before, after)
    ensures Received(DottedSets("", Sets(before, after))) == SetPaths(Sets(before, after))
    ensures ReceivedPaths(DottedAll("", Unsets(before, after))) == Paths(Unsets(before, after))
  {
    hide Sets, NestedUnsets, OwnUnsets, Dotted, Segments, Split;
    SetsNonempty(before, after);
    UnsetsNonempty(before, after);
    forall i | 0 <= i < |Sets(before, after)|
      ensures Split('.', Dotted("", Sets(before, after)[i].names)) == Segments(Sets(before, after)[i].names)
    {
      WhatIsSent(Sets(before, after)[i].names);
    }
    forall i | 0 <= i < |Unsets(before, after)|
      ensures Split('.', Dotted("", Unsets(before, after)[i])) == Segments(Unsets(before, after)[i])
    {
      WhatIsSent(Unsets(before, after)[i]);
    }
  }

  lemma {:induction false} CleanIsTaken(before: seq<Entry>, after: seq<Entry>)
    requires Clean(before, after) && !Fails(before, after)
    ensures SetPaths(Sets(before, after)) == Sets(before, after) && Paths(Unsets(before, after)) == Unsets(before, after)
  {
    hide Sets, NestedUnsets, OwnUnsets, Segments, AllDotFree;
    SetsAreDotFree(before, after, |after|);
    NestedAreDotFree(before, after, |after|);
    OwnAreDotFree(before, after, |before|);
    assert after[..|after|] == after && before[..|before|] == before;
    forall i | 0 <= i < |Sets(before, after)| ensures SetPaths(Sets(before, after))[i] == Sets(before, after)[i] {
      NoDotsNoSplit(Sets(before, after)[i].names);
    }
    forall i | 0 <= i < |Unsets(before, after)| ensures Paths(Unsets(before, after))[i] == Unsets(before, after)[i] {
      NoDotsNoSplit(Unsets(before, after)[i]);
    }
  }

  lemma GoodIsFilled(sets: seq<SetOp>, unsets: seq<seq<string>>)
    requires SetsGood(sets) && PathsGood(unsets)
    ensures !AnyEmptyPart(sets, unsets)
  {
    forall i | 0 <= i < |sets| ensures "" !in sets[i].names {
      assert PathGood(sets[i].names);
    }
    forall i | 0 <= i < |unsets| ensures "" !in unsets[i] {
      assert PathGood(unsets[i]);
    }
  }

  // An empty part that is not sent is an empty name in front of a longer path.
  lemma {:induction false} NotSent(before: seq<Entry>, after: seq<Entry>)
    requires !Filled(before, after)
    requires !AnyEmptyPart(Received(DottedSets("", Sets(before, after))), ReceivedPaths(DottedAll("", Unsets(before, after))))
    ensures (exists i :: 0 <= i < |Sets(before, after)| && BeginsBelowEmpty(Sets(before, after)[i].names))
            || (exists i :: 0 <= i < |Unsets(before, after)| && BeginsBelowEmpty(Unsets(before, after)[i]))
  {
    hide Sets, NestedUnsets, OwnUnsets, Dotted, Split, Unsets;
    SetsNonempty(before, after);
    UnsetsNonempty(before, after);
    var sets, unsets := Sets(before, after), Unsets(before, after);
    if i :| 0 <= i < |sets| && "" in sets[i].names {
      WhatIsSent(sets[i].names);
      assert Received(DottedSets("", sets))[i].names == Sent(sets[i].names);
      assert BeginsBelowEmpty(sets[i].names);
    } else {
      var i :| 0 <= i < |unsets| && "" in unsets[i];
      WhatIsSent(unsets[i]);
      assert ReceivedPaths(DottedAll("", unsets))[i] == Sent(unsets[i]);
      assert BeginsBelowEmpty(unsets[i]);
    }
  }

  // The change as it is sent turns the original into the edited document exactly when no removed field
  // has a dot in its name and no part of its paths is bad.
  lemma {:induction false} ChangeAsSent(original: Node, edited: Node)
    requires original.Object? && edited.Object? && Distinct(original) && Distinct(edited)
    requires !Fails(original.entries, edited.entries)
    ensures var before, after := original.entries, edited.entries;
            Saved(original, DottedSets("", Sets(before, after)), DottedAll("", Unsets(before, after))) == Some(TreeOf(edited))
            <==> Clean(before, after) && SetsGood(Sets(before, after)) && PathsGood(Unsets(before, after))
  {
    hide Sets, Unsets, Filled, AnyEmptyPart, DottedSets, DottedAll, Received, ReceivedPaths, Clean, Fails, RunSets, RunUnsets,
      TreeOf, Distinct, SetsGood, PathsGood;
    var before, after := original.entries, edited.entries;
    var sets := Received(DottedSets("", Sets(before, after)));
    var unsets := ReceivedPaths(DottedAll("", Unsets(before, after)));
    if SetsGood(Sets(before, after)) && PathsGood(Unsets(before, after)) {
      GoodIsFilled(Sets(before, after), Unsets(before, after));
      NothingEmpty(before, after);
    }
    if Filled(before, after) {
      FilledIsReceived(before, after);
      DiffIsExact(before, after);
      assert original == Object(before) && edited == Object(after);
      TreeOfObject(original);
      if Clean(before, after) {
        CleanIsTaken(before, after);
      }
    } else if SetsGood(sets) && PathsGood(unsets) {
      GoodIsFilled(sets, unsets);
      NotSent(before, after);
      BelowEmptyDiffers(before, after);
      Misplaced(original, edited, sets, unsets);
    }
  }

  lemma NothingEmpty(before: seq<Entry>, after: seq<Entry>)
    requires !AnyEmptyPart(Sets(before, after), Unsets(before, after))
    ensures Filled(before, after)
  {
  }

  /* ---------- The condition on the two documents ---------- */

  // Wherever the comparison goes: no removed field has an empty name, a dot in its name or a dollar sign in
  // front, and a field with an empty name is as it was.
  predicate Sendable(before: seq<Entry>, after: seq<Entry>) {
    && (forall i :: 0 <= i < |before| && Lookup(after, before[i].key).None? ==>
          before[i].key != "" && !IsBadName(before[i].key))
    && (forall i :: 0 <= i < |after| ==>
          if after[i].key == "" then Unchanged(before, after[i])
          else Nested(before, after[i]) ==>
            Sendable(Lookup(before, after[i].key).value.entries, after[i].value.entries))
  }

  predicate Unchanged(before: seq<Entry>, e: Entry) {
    Lookup(before, e.key).Some? && SameNode(Lookup(before, e.key).value, e.value)
  }

  // The paths of the change of one field.
  predicate FieldGood(before: seq<Entry>, e: Entry) {
    SetsGood(FieldSets(before, e)) && PathsGood(Inner(before, e))
  }

  lemma {:induction false} FieldsGood(before: seq<Entry>, after: seq<Entry>, n: nat)
    requires n <= |after|
    ensures SetsGood(Sets(before, after[..n])) && PathsGood(NestedUnsets(before, after[..n])) <==>
            forall i :: 0 <= i < n ==> FieldGood(before, after[i])
  {
    hide FieldSets, Inner, SetsGood, PathsGood;
    EmptyIsGood();
    if n > 0 {
      FieldsGood(before, after, n - 1);
      assert after[..n][..n - 1] == after[..n - 1];
      NestedNext(before, after, n);
      GoodJoined(Sets(before, after[..n - 1]), FieldSets(before, after[n - 1]),
                 NestedUnsets(before, after[..n - 1]), Inner(before, after[n - 1]));
    }
  }

  lemma NestedNext(before: seq<Entry>, after: seq<Entry>, n: nat)
    requires 0 < n <= |after|
    ensures NestedUnsets(before, after[..n]) == NestedUnsets(before, after[..n - 1]) + Inner(before, after[n - 1])
  {
    hide Unsets, Lookup;
    assert after[..n][..n - 1] == after[..n - 1];
  }

  lemma GoodJoined(a: seq<SetOp>, b: seq<SetOp>, c: seq<seq<string>>, d: seq<seq<string>>)
    ensures SetsGood(a + b) <==> SetsGood(a) && SetsGood(b)
    ensures PathsGood(c + d) <==> PathsGood(c) && PathsGood(d)
  {
    hide PathGood;
    assert forall i :: 0 <= i < |a| ==> (a + b)[i] == a[i];
    assert forall i :: 0 <= i < |b| ==> (a + b)[|a| + i] == b[i];
    assert forall i :: 0 <= i < |c| ==> (c + d)[i] == c[i];
    assert forall i :: 0 <= i < |d| ==> (c + d)[|c| + i] == d[i];
  }

  lemma {:induction false} OwnGood(before: seq<Entry>, after: seq<Entry>, n: nat)
    requires n <= |before|
    ensures PathsGood(OwnUnsets(before[..n], after)) <==>
            forall i :: 0 <= i < n && Lookup(after, before[i].key).None? ==> !IsBadPart(before[i].key)
  {
    hide Lookup;
    if n > 0 {
      OwnGood(before, after, n - 1);
      assert before[..n][..n - 1] == before[..n - 1];
      var own, key := OwnUnsets(before[..n - 1], after), before[n - 1].key;
      OneGood(key, Null);
      GoodJoined([], [], own, [[key]]);
      GoodJoined([], [], own, []);
    }
  }

  lemma OneGood(key: string, value: Node)
    ensures PathsGood([[key]]) <==> !IsBadPart(key)
    ensures SetsGood([SetOp([key], value)]) <==> !IsBadPart(key)
  {
    assert [key][0] == key;
    assert PathGood([key]) <==> !IsBadPart(key);
    assert [[key]][0] == [key] && [SetOp([key], value)][0].names == [key];
  }

  lemma PathUnder(key: string, path: seq<string>)
    ensures PathGood([key] + path) <==> !IsBadPart(key) && PathGood(path)
  {
    assert ([key] + path)[0] == key;
    assert forall i :: 0 <= i < |path| ==> ([key] + path)[i + 1] == path[i];
  }

  lemma {:induction false} GoodUnder(key: string, ops: seq<SetOp>, paths: seq<seq<string>>)
    ensures SetsGood(Under(key, ops)) <==> ops == [] || (!IsBadPart(key) && SetsGood(ops))
    ensures PathsGood(UnderNames(key, paths)) <==> paths == [] || (!IsBadPart(key) && PathsGood(paths))
  {
    hide PathGood, IsBadPart;
    forall i | 0 <= i < |ops| ensures PathGood(Under(key, ops)[i].names) <==> !IsBadPart(key) && PathGood(ops[i].names) {
      PathUnder(key, ops[i].names);
    }
    forall i | 0 <= i < |paths| ensures PathGood(UnderNames(key, paths)[i]) <==> !IsBadPart(key) && PathGood(paths[i]) {
      PathUnder(key, paths[i]);
    }
    if ops != [] {
      assert Under(key, ops)[0].names == [key] + ops[0].names;
      assert SetsGood(Under(key, ops)) ==> PathGood(Under(key, ops)[0].names);
      assert SetsGood(Under(key, ops)) ==> forall i :: 0 <= i < |ops| ==> PathGood(Under(key, ops)[i].names);
    }
    if paths != [] {
      assert PathsGood(UnderNames(key, paths)) ==> PathGood(UnderNames(key, paths)[0]);
      assert PathsGood(UnderNames(key, paths)) ==> forall i :: 0 <= i < |paths| ==> PathGood(UnderNames(key, paths)[i]);
    }
  }

  lemma {:induction false} NoUnsetsIsClean(before: seq<Entry>, after: seq<Entry>)
    requires Unsets(before, after) == []
    ensures Clean(before, after)
    decreases after
  {
    assert before[..|before|] == before && after[..|after|] == after;
    NothingNested(before, after, |after|);
    NothingOwn(before, after, |before|);
    forall i | 0 <= i < |after| && Nested(before, after[i])
      ensures Clean(Lookup(before, after[i].key).value.entries, after[i].value.entries)
    {
      NoUnsetsIsClean(Lookup(before, after[i].key).value.entries, after[i].value.entries);
    }
  }

  lemma {:induction false} NothingNested(before: seq<Entry>, after: seq<Entry>, n: nat)
    requires n <= |after| && NestedUnsets(before, after[..n]) == []
    ensures forall i :: 0 <= i < n && Nested(before, after[i]) ==>
              Unsets(Lookup(before, after[i].key).value.entries, after[i].value.entries) == []
  {
    hide Unsets, Lookup;
    if n > 0 {
      assert after[..n][..n - 1] == after[..n - 1];
      NothingNested(before, after, n - 1);
      if Nested(before, after[n - 1]) {
        var paths := Unsets(Lookup(before, after[n - 1].key).value.entries, after[n - 1].value.entries);
        assert |UnderNames(after[n - 1].key, paths)| == |paths|;
      }
    }
  }

  lemma {:induction false} NothingOwn(before: seq<Entry>, after: seq<Entry>, n: nat)
    requires n <= |before| && OwnUnsets(before[..n], after) == []
    ensures forall i :: 0 <= i < n ==> Lookup(after, before[i].key).Some?
  {
    hide Lookup;
    if n > 0 {
      assert before[..n][..n - 1] == before[..n - 1];
      NothingOwn(before, after, n - 1);
    }
  }

  // Two documents without a change are the same.
  lemma {:induction false} NoChangeIsSame(before: seq<Entry>, after: seq<Entry>)
    requires Distinct(Object(before)) && Distinct(Object(after)) && !Fails(before, after)
    requires Sets(before, after) == [] && Unsets(before, after) == []
    ensures TreeOf(Object(before)) == TreeOf(Object(after))
  {
    hide Sets, Unsets, Clean, Fails, FieldsOf, Distinct;
    NoUnsetsIsClean(before, after);
    DiffIsExact(before, after);
    assert Paths([]) == [] && SetPaths([]) == [];
    assert RunUnsets(Branch(FieldsOf(before)), []) == Branch(FieldsOf(before));
  }

  // One edited field: the paths of its change are good exactly when it is unchanged under an empty name, and
  // under another name when what changes inside it has good paths.
  lemma {:induction false} OneFieldGood(before: seq<Entry>, e: Entry)
    requires Distinct(Object(before)) && Distinct(e.value) && !IsBadName(e.key)
    requires Nested(before, e) ==> !Fails(Lookup(before, e.key).value.entries, e.value.entries)
    ensures FieldGood(before, e) <==>
            if e.key == "" then Unchanged(before, e)
            else Nested(before, e) ==>
              var p, q := Lookup(before, e.key).value.entries, e.value.entries;
              SetsGood(Sets(p, q)) && PathsGood(Unsets(p, q))
  {
    hide Sets, Unsets, Fails, SameNode, SetsGood, PathsGood, FieldsOf, Distinct;
    EmptyIsGood();
    OneGood(e.key, e.value);
    if Nested(before, e) {
      var p, q := Lookup(before, e.key).value.entries, e.value.entries;
      GoodUnder(e.key, Sets(p, q), Unsets(p, q));
      DistinctField(before, e.key);
      SameNodeIsEquality(Object(p), Object(q));
      assert Object(p) == Lookup(before, e.key).value && Object(q) == e.value;
      if Sets(p, q) == [] && Unsets(p, q) == [] {
        NoChangeIsSame(p, q);
      }
      if TreeOf(Object(p)) == TreeOf(Object(q)) {
        NoChange(p, q);
      }
    }
  }

  lemma EmptyIsGood()
    ensures SetsGood([]) && PathsGood([])
  {
  }

  lemma {:induction false} SendableIs(before: seq<Entry>, after: seq<Entry>)
    requires Distinct(Object(before)) && Distinct(Object(after)) && !Fails(before, after)
    ensures Sendable(before, after) <==> Clean(before, after) && SetsGood(Sets(before, after)) && PathsGood(Unsets(before, after))
    decreases after
  {
    hide Sets, NestedUnsets, OwnUnsets, SetsGood, PathsGood, FieldGood, Unchanged, FieldsOf, Lookup;
    assert after[..|after|] == after && before[..|before|] == before;
    FieldsGood(before, after, |after|);
    OwnGood(before, after, |before|);
    GoodJoined([], [], NestedUnsets(before, after), OwnUnsets(before, after));
    forall i | 0 <= i < |after|
      ensures FieldClean(before, after[i]) && FieldGood(before, after[i]) <==>
              if after[i].key == "" then Unchanged(before, after[i])
              else Nested(before, after[i]) ==>
                Sendable(Lookup(before, after[i].key).value.entries, after[i].value.entries)
    {
      OneFieldGood(before, after[i]);
      if Nested(before, after[i]) {
        var p, q := Lookup(before, after[i].key).value.entries, after[i].value.entries;
        DistinctField(before, after[i].key);
        assert Distinct(after[i].value) && Object(q) == after[i].value;
        if after[i].key == "" {
          SameIsClean(before, after[i]);
        } else {
          SendableIs(p, q);
        }
      }
    }
  }

  // No removed field inside this one has a dot in its name.
  predicate FieldClean(before: seq<Entry>, e: Entry) {
    Nested(before, e) ==> Clean(Lookup(before, e.key).value.entries, e.value.entries)
  }

  lemma {:induction false} SameIsClean(before: seq<Entry>, e: Entry)
    requires Distinct(Object(before)) && Distinct(e.value) && Nested(before, e)
    ensures Unchanged(before, e) ==> FieldClean(before, e)
  {
    hide Sets, Unsets, Clean, SameNode, FieldsOf, Distinct;
    var p, q := Lookup(before, e.key).value.entries, e.value.entries;
    DistinctField(before, e.key);
    assert Object(p) == Lookup(before, e.key).value && Object(q) == e.value;
    if Unchanged(before, e) {
      SameNodeIsEquality(Object(p), Object(q));
      NoChange(p, q);
      NoUnsetsIsClean(p, q);
    }
  }

  /**
   The change that was found, sent as dotted text, turns the original into the edited document, as
   the server and `sameNode` see them, exactly when no removed field has an empty name, a dot in its name
   or a dollar sign in front, and no field with an empty name changes.
   */
  lemma {:induction false} ChangeIsExact(original: Node, edited: Node)
    requires original.Object? && edited.Object? && Distinct(original) && Distinct(edited)
    requires !Fails(original.entries, edited.entries)
    ensures var before, after := original.entries, edited.entries;
            Saved(original, DottedSets("", Sets(before, after)), DottedAll("", Unsets(before, after))) == Some(TreeOf(edited))
            <==> Sendable(before, after)
  {
    hide Sets, Unsets, DottedSets, DottedAll, Clean, Fails, Saved, TreeOf, Distinct, SetsGood, PathsGood, Sendable;
    assert original == Object(original.entries) && edited == Object(edited.entries);
    ChangeAsSent(original, edited);
    SendableIs(original.entries, edited.entries);
  }

  // Removing a field named `a.b` is reported as a change, and the change leaves the field there.
  lemma DottedRemovalLost()
    ensures var original, edited := Object([Entry("a.b", Null)]), Object([]);
            && !Fails(original.entries, edited.entries)
            && DottedAll("", Unsets(original.entries, edited.entries)) == ["a.b"]
            && Saved(original, [], ["a.b"]) == Some(TreeOf(original)) != Some(TreeOf(edited))
  {
    var original, edited := Object([Entry("a.b", Null)]), Object([]);
    assert original.entries[..0] == [];
    assert OwnUnsets(original.entries, []) == [["a.b"]];
    OneDotted("", "a.b", Null);
    assert "a.b"[1..] == ".b" && ".b"[1..] == "b" && "b"[1..] == "";
    assert ['b'] + "" == "b" && ['a'] + "" == "a";
    assert Split('.', "b") == ["b"];
    assert Split('.', ".b") == ["", "b"];
    assert Split('.', "a.b") == ["a", "b"];
    assert TreeOf(edited) == Branch(FieldsOf([])) && FieldsOf([]) == map[];
    assert "a.b" in TreeOf(original).fields && "a.b" !in TreeOf(edited).fields;
    assert FieldsOf(original.entries) == map["a.b" := Leaf(Null)];
    assert ReceivedPaths(["a.b"]) == [["a", "b"]];
    RunOneUnset(TreeOf(original), ["a", "b"]);
    assert Received([]) == [];
  }

  function Holding(key: string, value: Node): Node {
    Object([Entry(key, value)])
  }

  lemma OneSet(key: string, a: Node, b: Node)
    requires a.Object? && b.Object?
    ensures var before, after := [Entry(key, a)], [Entry(key, b)];
            && Sets(before, after) == Under(key, Sets(a.entries, b.entries))
            && Unsets(before, after) == UnderNames(key, Unsets(a.entries, b.entries))
  {
    var before, after := [Entry(key, a)], [Entry(key, b)];
    assert after[..0] == [] && before[..0] == [];
    assert Sets(before, []) == [] && NestedUnsets(before, []) == [];
    assert OwnUnsets([], after) == [];
    assert [] + Under(key, Sets(a.entries, b.entries)) == Under(key, Sets(a.entries, b.entries));
  }

  lemma LeafSet()
    ensures var before, after := [Entry("a", Null)], [Entry("a", MinKey)];
            Sets(before, after) == [SetOp(["a"], MinKey)] && Unsets(before, after) == [] && !Fails(before, after)
  {
    var before, after := [Entry("a", Null)], [Entry("a", MinKey)];
    assert after[..0] == [] && before[..0] == [];
    assert Sets(before, []) == [] && NestedUnsets(before, []) == [];
    assert OwnUnsets([], after) == [];
  }

  lemma BadPartThere(sets: seq<SetOp>, i: nat, j: nat)
    requires i < |sets| && j < |sets[i].names| && IsBadPart(sets[i].names[j])
    ensures !SetsGood(sets)
  {
    assert !PathGood(sets[i].names);
  }

  // Removing a field with a dollar sign in front is reported as a change, and the server refuses it.
  lemma {:induction false} DollarRemovalRefused()
    ensures var original, edited := Holding("$a", Null), Object([]);
            && !Fails(original.entries, edited.entries) && Distinct(original) && Distinct(edited)
            && DottedAll("", Unsets(original.entries, edited.entries)) == ["$a"]
            && Saved(original, [], ["$a"]) == None
  {
    var original, edited := Holding("$a", Null), Object([]);
    assert original.entries[..0] == [];
    assert OwnUnsets([], []) == [] && OwnUnsets(original.entries, []) == [["$a"]];
    OneDotted("", "$a", Null);
    SplitWhole('.', "$a");
    assert ReceivedPaths(["$a"])[0] == ["$a"];
    assert !PathGood(["$a"]) by {
      assert ["$a"][0] == "$a";
    }
  }

  // A change inside a field with an empty name is sent as a change of the whole document.
  lemma {:induction false} EmptyNameMisplaced()
    ensures var original, edited := Holding("", Holding("a", Null)), Holding("", Holding("a", MinKey));
            && !Fails(original.entries, edited.entries) && Distinct(original) && Distinct(edited)
            && DottedSets("", Sets(original.entries, edited.entries)) == [("a", MinKey)]
            && Saved(original, [("a", MinKey)], []) != Some(TreeOf(edited))
  {
    hide Saved, Sets, NestedUnsets, OwnUnsets, DottedSets;
    var original, edited := Holding("", Holding("a", Null)), Holding("", Holding("a", MinKey));
    LeafSet();
    OneSet("", Holding("a", Null), Holding("a", MinKey));
    OneDotted("", "a", MinKey);
    DottedSetsUnder("", "", [SetOp(["a"], MinKey)]);
    assert DottedAll("", UnderNames("", [])) == [];
    BadPartThere(Sets(original.entries, edited.entries), 0, 0);
    ChangeAsSent(original, edited);
  }

  // Deeper down, such a change is sent with an empty part, and refused.
  lemma {:induction false} EmptyNameRefused()
    ensures var original := Holding("x", Holding("", Holding("a", Null)));
            var edited := Holding("x", Holding("", Holding("a", MinKey)));
            && !Fails(original.entries, edited.entries) && Distinct(original) && Distinct(edited)
            && DottedSets("", Sets(original.entries, edited.entries)) == [("x..a", MinKey)]
            && Saved(original, [("x..a", MinKey)], []) != Some(TreeOf(edited))
  {
    hide Saved, Sets, NestedUnsets, OwnUnsets, DottedSets;
    var original := Holding("x", Holding("", Holding("a", Null)));
    var edited := Holding("x", Holding("", Holding("a", MinKey)));
    LeafSet();
    OneSet("", Holding("a", Null), Holding("a", MinKey));
    OneSet("x", Holding("", Holding("a", Null)), Holding("", Holding("a", MinKey)));
    var inner := Under("", [SetOp(["a"], MinKey)]);
    OneDotted("x.", "a", MinKey);
    DottedSetsUnder("x", "", [SetOp(["a"], MinKey)]);
    DottedSetsUnder("", "x", inner);
    assert PathOf("x", "") == "x.";
    assert "x." + "." + "a" == "x..a";
    assert DottedAll("", UnderNames("x", UnderNames("", []))) == [];
    assert inner[0].names == [""] + ["a"];
    assert Sets(original.entries, edited.entries)[0].names == ["x"] + ([""] + ["a"]);
    BadPartThere(Sets(original.entries, edited.entries), 0, 1);
    ChangeAsSent(original, edited);
  }
}
