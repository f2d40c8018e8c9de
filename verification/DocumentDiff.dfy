/**
 What an edit changed, as dotted `$set` and `$unset` paths (`diffDocument`), and what the server
 makes of them.
 */
module DocumentDiff {
  import opened Texts
  import opened Wrappers
  import opened BsonDocument

  /* ---------- Documents as values: the order of fields carries no meaning ---------- */

  datatype Tree = Leaf(node: Node) | Branch(fields: map<string, Tree>) | Listing(items: seq<Tree>)

  // JavaScript's `new Map(entries)`: the last entry of a name counts.
  function Lookup(entries: seq<Entry>, key: string): Option<Node>
    ensures Lookup(entries, key).Some? ==> Entry(key, Lookup(entries, key).value) in entries
  {
    if |entries| == 0 then None
    else if entries[|entries| - 1].key == key then Some(entries[|entries| - 1].value)
    else Lookup(entries[..|entries| - 1], key)
  }

  function TreeOf(node: Node): Tree
    decreases node, 0
  {
    match node
    case Object(entries) => Branch(FieldsOf(entries))
    case Array(items) => Listing(ItemsOf(items))
    case _ => Leaf(node)
  }

  function FieldsOf(entries: seq<Entry>): map<string, Tree>
    decreases entries, 1
  {
    if |entries| == 0 then map[]
    else
      var e := entries[|entries| - 1];
      FieldsOf(entries[..|entries| - 1])[e.key := TreeOf(e.value)]
  }

  function ItemsOf(items: seq<Node>): (r: seq<Tree>)
    ensures |r| == |items|
    decreases items, 1
  {
    if |items| == 0 then [] else ItemsOf(items[..|items| - 1]) + [TreeOf(items[|items| - 1])]
  }

  // Whether two nodes hold the same value.
  predicate SameNode(a: Node, b: Node)
    decreases a
  {
    if a.Object? && b.Object? then
      && |a.entries| == |b.entries|
      && forall i :: 0 <= i < |a.entries| ==>
           var other := Lookup(b.entries, a.entries[i].key);
           other.Some? && SameNode(a.entries[i].value, other.value)
    else if a.Array? && b.Array? then
      |a.items| == |b.items| && forall i :: 0 <= i < |a.items| ==> SameNode(a.items[i], b.items[i])
    else a == b
  }

  predicate DistinctKeys(entries: seq<Entry>) {
    forall i, j :: 0 <= i < j < |entries| ==> entries[i].key != entries[j].key
  }

  // No object holds two fields of one name.
  predicate Distinct(node: Node) {
    match node
    case Object(entries) =>
      DistinctKeys(entries) && forall i :: 0 <= i < |entries| ==> Distinct(entries[i].value)
    case Array(items) => forall i :: 0 <= i < |items| ==> Distinct(items[i])
    case _ => true
  }

  lemma {:induction false} FieldsHold(entries: seq<Entry>, key: string)
    ensures key in FieldsOf(entries) <==> Lookup(entries, key).Some?
    ensures key in FieldsOf(entries) ==> FieldsOf(entries)[key] == TreeOf(Lookup(entries, key).value)
  {
    if entries != [] {
      FieldsHold(entries[..|entries| - 1], key);
    }
  }

  lemma {:induction false} LookupDistinct(entries: seq<Entry>, i: nat)
    requires DistinctKeys(entries) && i < |entries|
    ensures Lookup(entries, entries[i].key) == Some(entries[i].value)
  {
    var n := |entries| - 1;
    if i < n {
      LookupDistinct(entries[..n], i);
    }
  }

  function Keys(entries: seq<Entry>): set<string> {
    set i | 0 <= i < |entries| :: entries[i].key
  }

  lemma {:induction false} FieldsKeys(entries: seq<Entry>)
    ensures FieldsOf(entries).Keys == Keys(entries)
    ensures DistinctKeys(entries) ==> |Keys(entries)| == |entries|
  {
    if entries != [] {
      var n := |entries| - 1;
      FieldsKeys(entries[..n]);
      assert Keys(entries) == Keys(entries[..n]) + {entries[n].key};
      if DistinctKeys(entries) {
        assert entries[n].key !in Keys(entries[..n]);
      }
    }
  }

  lemma SubsetOfSameSize(a: set<string>, b: set<string>)
    requires a <= b && |a| == |b|
    ensures a == b
  {
    assert b == a + (b - a);
  }

  /** `sameNode` is equality of the values, for documents without repeated names. */
  lemma {:induction false} SameNodeIsEquality(a: Node, b: Node)
    requires Distinct(a) && Distinct(b)
    ensures SameNode(a, b) <==> TreeOf(a) == TreeOf(b)
    decreases a, 2
  {
    if a.Object? && b.Object? {
      SameFields(a, b);
    } else if a.Array? && b.Array? {
      SameItems(a, b);
    }
  }

  lemma {:induction false} ItemsHold(items: seq<Node>, i: nat)
    requires i < |items|
    ensures ItemsOf(items)[i] == TreeOf(items[i])
  {
    if i < |items| - 1 {
      ItemsHold(items[..|items| - 1], i);
    }
  }

  lemma {:induction false} SameItems(a: Node, b: Node)
    requires a.Array? && b.Array? && Distinct(a) && Distinct(b)
    ensures SameNode(a, b) <==> TreeOf(a) == TreeOf(b)
    decreases a, 0
  {
    if |a.items| == |b.items| {
      forall i | 0 <= i < |a.items|
        ensures ItemsOf(a.items)[i] == TreeOf(a.items[i]) && ItemsOf(b.items)[i] == TreeOf(b.items[i])
        ensures SameNode(a.items[i], b.items[i]) <==> TreeOf(a.items[i]) == TreeOf(b.items[i])
      {
        ItemsHold(a.items, i);
        ItemsHold(b.items, i);
        SameNodeIsEquality(a.items[i], b.items[i]);
      }
      if SameNode(a, b) {
        assert ItemsOf(a.items) == ItemsOf(b.items);
      }
      if ItemsOf(a.items) == ItemsOf(b.items) {
        assert forall i :: 0 <= i < |a.items| ==> SameNode(a.items[i], b.items[i]);
      }
    }
  }

  // Field `e` has the same value in both maps.
  predicate Agree(e: Entry, fa: map<string, Tree>, fb: map<string, Tree>) {
    e.key in fa && e.key in fb && fa[e.key] == fb[e.key]
  }

  lemma {:induction false} OneField(a: Node, b: Node, i: nat)
    requires a.Object? && b.Object? && Distinct(a) && Distinct(b) && i < |a.entries|
    ensures var other := Lookup(b.entries, a.entries[i].key);
            other.Some? && SameNode(a.entries[i].value, other.value)
            <==> Agree(a.entries[i], FieldsOf(a.entries), FieldsOf(b.entries))
    decreases a, 0
  {
    hide TreeOf, FieldsOf;
    var e := a.entries[i];
    FieldsHold(a.entries, e.key);
    FieldsHold(b.entries, e.key);
    LookupDistinct(a.entries, i);
    var other := Lookup(b.entries, e.key);
    if other.Some? {
      var j :| 0 <= j < |b.entries| && b.entries[j] == Entry(e.key, other.value);
      SameNodeIsEquality(e.value, other.value);
    }
  }

  lemma {:induction false} SameWhenAllAgree(a: seq<Entry>, b: seq<Entry>)
    requires DistinctKeys(a) && DistinctKeys(b)
    ensures |a| == |b| && (forall i :: 0 <= i < |a| ==> Agree(a[i], FieldsOf(a), FieldsOf(b)))
            <==> FieldsOf(a) == FieldsOf(b)
  {
    var fa, fb := FieldsOf(a), FieldsOf(b);
    hide FieldsOf;
    FieldsKeys(a);
    FieldsKeys(b);
    if |a| == |b| && forall i :: 0 <= i < |a| ==> Agree(a[i], fa, fb) {
      forall k | k in fa ensures k in fb && fa[k] == fb[k] {
        var i :| 0 <= i < |a| && a[i].key == k;
        assert Agree(a[i], fa, fb);
      }
      SubsetOfSameSize(Keys(a), Keys(b));
      assert fa == fb;
    }
    if fa == fb {
      forall i | 0 <= i < |a| ensures Agree(a[i], fa, fb) {
        assert a[i].key in Keys(a);
      }
    }
  }

  lemma {:induction false} SameFields(a: Node, b: Node)
    requires a.Object? && b.Object? && Distinct(a) && Distinct(b)
    ensures SameNode(a, b) <==> TreeOf(a) == TreeOf(b)
    decreases a, 1
  {
    hide FieldsOf, Agree, Lookup;
    forall i | 0 <= i < |a.entries|
      ensures var other := Lookup(b.entries, a.entries[i].key);
              other.Some? && SameNode(a.entries[i].value, other.value)
              <==> Agree(a.entries[i], FieldsOf(a.entries), FieldsOf(b.entries))
    {
      OneField(a, b, i);
    }
    SameWhenAllAgree(a.entries, b.entries);
  }

  /* ---------- What an edit changed ---------- */

  // A change found by the comparison: the names of the fields on the way, and the new value.
  datatype SetOp = SetOp(names: seq<string>, value: Node)

  predicate DotFree(s: string) {
    '.' !in s
  }

  // A name that cannot stand in a path.
  predicate IsBadName(s: string) {
    !DotFree(s) || (|s| > 0 && s[0] == '$')
  }

  function Under(key: string, ops: seq<SetOp>): seq<SetOp> {
    seq(|ops|, i requires 0 <= i < |ops| => SetOp([key] + ops[i].names, ops[i].value))
  }

  function UnderNames(key: string, ops: seq<seq<string>>): seq<seq<string>> {
    seq(|ops|, i requires 0 <= i < |ops| => [key] + ops[i])
  }

  // The field is an object on both sides: the comparison goes into it.
  predicate Nested(before: seq<Entry>, e: Entry) {
    var previous := Lookup(before, e.key);
    previous.Some? && previous.value.Object? && e.value.Object?
  }

  function Sets(before: seq<Entry>, after: seq<Entry>): seq<SetOp>
    decreases after, 1
  {
    if |after| == 0 then []
    else Sets(before, after[..|after| - 1]) + FieldSets(before, after[|after| - 1])
  }

  function FieldSets(before: seq<Entry>, e: Entry): seq<SetOp>
    decreases e, 0
  {
    var previous := Lookup(before, e.key);
    if previous.None? then [SetOp([e.key], e.value)]
    else if Nested(before, e) then Under(e.key, Sets(previous.value.entries, e.value.entries))
    else if SameNode(previous.value, e.value) then []
    else [SetOp([e.key], e.value)]
  }

  // Fields removed inside objects that stay, then those removed here.
  function NestedUnsets(before: seq<Entry>, after: seq<Entry>): seq<seq<string>>
    decreases after, 0
  {
    if |after| == 0 then []
    else
      var e := after[|after| - 1];
      NestedUnsets(before, after[..|after| - 1])
      + (if Nested(before, e) then UnderNames(e.key, Unsets(Lookup(before, e.key).value.entries, e.value.entries)) else [])
  }

  function OwnUnsets(before: seq<Entry>, after: seq<Entry>): seq<seq<string>> {
    if |before| == 0 then []
    else
      var e := before[|before| - 1];
      OwnUnsets(before[..|before| - 1], after) + (if Lookup(after, e.key).None? then [[e.key]] else [])
  }

  function Unsets(before: seq<Entry>, after: seq<Entry>): seq<seq<string>>
    decreases after, 1
  {
    NestedUnsets(before, after) + OwnUnsets(before, after)
  }

  // Some field of the edited document, in a place the comparison reaches, has a bad name.
  predicate Fails(before: seq<Entry>, after: seq<Entry>) {
    exists i :: 0 <= i < |after| &&
      (IsBadName(after[i].key)
       || (Nested(before, after[i]) && Fails(Lookup(before, after[i].key).value.entries, after[i].value.entries)))
  }

  /* ---------- The server ---------- */

  function SetPath(t: Tree, path: seq<string>, v: Tree): Option<Tree>
    decreases |path|
  {
    if !t.Branch? || path == [] then None
    else if |path| == 1 then Some(Branch(t.fields[path[0] := v]))
    else
      match SetPath(if path[0] in t.fields then t.fields[path[0]] else Branch(map[]), path[1..], v)
      case None => None
      case Some(inner) => Some(Branch(t.fields[path[0] := inner]))
  }

  function UnsetPath(t: Tree, path: seq<string>): (r: Tree)
    ensures t.Branch? <==> r.Branch?
    decreases |path|
  {
    if !t.Branch? || path == [] then t
    else if |path| == 1 then Branch(t.fields - {path[0]})
    else if path[0] in t.fields then Branch(t.fields[path[0] := UnsetPath(t.fields[path[0]], path[1..])])
    else t
  }

  function RunUnsets(t: Tree, paths: seq<seq<string>>): (r: Tree)
    ensures t.Branch? <==> r.Branch?
  {
    if |paths| == 0 then t else UnsetPath(RunUnsets(t, paths[..|paths| - 1]), paths[|paths| - 1])
  }

  function RunSets(t: Tree, ops: seq<SetOp>): Option<Tree>
  {
    if |ops| == 0 then Some(t)
    else
      match RunSets(t, ops[..|ops| - 1])
      case None => None
      case Some(u) => SetPath(u, ops[|ops| - 1].names, TreeOf(ops[|ops| - 1].value))
  }

  /* ---------- Paths ---------- */

  // The segments the server sees in the path of `names`.
  function Segments(names: seq<string>): seq<string> {
    if |names| == 0 then [] else Split('.', names[0]) + Segments(names[1..])
  }

  lemma {:induction false} SplitJoin(names: seq<string>)
    requires |names| > 0
    ensures Split('.', Join('.', names)) == Segments(names)
  {
    if |names| == 1 {
      assert Segments(names[1..]) == [];
    } else {
      SplitOfTwo('.', names[0], Join('.', names[1..]));
      SplitJoin(names[1..]);
    }
  }

  function Paths(names: seq<seq<string>>): seq<seq<string>> {
    seq(|names|, i requires 0 <= i < |names| => Segments(names[i]))
  }

  function SetPaths(ops: seq<SetOp>): seq<SetOp> {
    seq(|ops|, i requires 0 <= i < |ops| => SetOp(Segments(ops[i].names), ops[i].value))
  }

  /* ---------- Running the paths of one field ---------- */

  predicate NoEmpty(paths: seq<seq<string>>) {
    forall i :: 0 <= i < |paths| ==> |paths[i]| > 0
  }

  predicate NoEmptySet(ops: seq<SetOp>) {
    forall i :: 0 <= i < |ops| ==> |ops[i].names| > 0
  }

  lemma {:induction false} RunUnsetsAppend(t: Tree, a: seq<seq<string>>, b: seq<seq<string>>)
    ensures RunUnsets(t, a + b) == RunUnsets(RunUnsets(t, a), b)
  {
    if b == [] {
      assert a + b == a;
    } else {
      assert (a + b)[..|a + b| - 1] == a + b[..|b| - 1];
      RunUnsetsAppend(t, a, b[..|b| - 1]);
    }
  }

  lemma {:induction false} RunSetsAppend(t: Tree, a: seq<SetOp>, b: seq<SetOp>)
    ensures RunSets(t, a + b) == match RunSets(t, a) { case None => None case Some(u) => RunSets(u, b) }
  {
    if b == [] {
      assert a + b == a;
    } else {
      assert (a + b)[..|a + b| - 1] == a + b[..|b| - 1];
      RunSetsAppend(t, a, b[..|b| - 1]);
    }
  }

  lemma {:induction false} RunUnsetsUnder(m: map<string, Tree>, key: string, paths: seq<seq<string>>)
    requires key in m && NoEmpty(paths)
    ensures RunUnsets(Branch(m), UnderNames(key, paths)) == Branch(m[key := RunUnsets(m[key], paths)])
  {
    if paths == [] {
      assert m[key := m[key]] == m;
    } else {
      var n := |paths| - 1;
      RunUnsetsUnder(m, key, paths[..n]);
      assert UnderNames(key, paths)[..n] == UnderNames(key, paths[..n]);
      var path := paths[n];
      assert ([key] + path)[1..] == path;
      var inner := RunUnsets(m[key], paths[..n]);
      assert m[key := inner][key := UnsetPath(inner, path)] == m[key := UnsetPath(inner, path)];
    }
  }

  lemma {:induction false} RunSetsUnder(m: map<string, Tree>, key: string, ops: seq<SetOp>)
    requires key in m && NoEmptySet(ops)
    ensures RunSets(Branch(m), Under(key, ops)) ==
            match RunSets(m[key], ops) { case None => None case Some(inner) => Some(Branch(m[key := inner])) }
  {
    if ops == [] {
      assert m[key := m[key]] == m;
    } else {
      var n := |ops| - 1;
      RunSetsUnder(m, key, ops[..n]);
      assert Under(key, ops)[..n] == Under(key, ops[..n]);
      assert ([key] + ops[n].names)[1..] == ops[n].names;
      if RunSets(m[key], ops[..n]).Some? {
        var inner := RunSets(m[key], ops[..n]).value;
        var next := SetPath(inner, ops[n].names, TreeOf(ops[n].value));
        if next.Some? {
          assert m[key := inner][key := next.value] == m[key := next.value];
        }
      }
    }
  }

  /* ---------- What the unset paths leave ---------- */

  // No removed field, in a place the comparison reaches, has a dot in its name.
  predicate Clean(before: seq<Entry>, after: seq<Entry>) {
    && (forall i :: 0 <= i < |before| && Lookup(after, before[i].key).None? ==> DotFree(before[i].key))
    && (forall i :: 0 <= i < |after| && Nested(before, after[i]) ==>
          Clean(Lookup(before, after[i].key).value.entries, after[i].value.entries))
  }

  function NestedPruned(before: seq<Entry>, after: seq<Entry>): map<string, Tree>
    decreases after, 0
  {
    if |after| == 0 then FieldsOf(before)
    else
      var e, m := after[|after| - 1], NestedPruned(before, after[..|after| - 1]);
      if Nested(before, e) then m[e.key := Branch(Pruned(Lookup(before, e.key).value.entries, e.value.entries))] else m
  }

  // The fields once every removed field is gone.
  function Pruned(before: seq<Entry>, after: seq<Entry>): map<string, Tree>
    decreases after, 1
  {
    NestedPruned(before, after) - (Keys(before) - Keys(after))
  }

  lemma {:induction false} InKeys(entries: seq<Entry>, key: string)
    ensures key in Keys(entries) <==> Lookup(entries, key).Some?
  {
    FieldsHold(entries, key);
    FieldsKeys(entries);
  }

  lemma {:induction false} NestedPrunedKeys(before: seq<Entry>, after: seq<Entry>)
    ensures NestedPruned(before, after).Keys == Keys(before)
    decreases after, 0
  {
    FieldsKeys(before);
    if after != [] {
      hide FieldsOf, Pruned;
      var n := |after| - 1;
      NestedPrunedKeys(before, after[..n]);
      InKeys(before, after[n].key);
    }
  }

  lemma RunOneUnset(t: Tree, path: seq<string>)
    ensures RunUnsets(t, [path]) == UnsetPath(t, path)
  {
    assert [path][..0] == [];
    assert RunUnsets(t, [path][..0]) == t;
  }

  lemma OnePath(key: string)
    requires DotFree(key)
    ensures Paths([[key]]) == [[key]]
  {
    SplitWhole('.', key);
    assert Segments([key]) == [key] by {
      assert Segments([key][1..]) == [];
    }
  }

  lemma {:induction false} OwnUnsetStep(t: Tree, own: seq<seq<string>>, gone: set<string>, key: string)
    requires t.Branch? && DotFree(key) && RunUnsets(t, Paths(own)) == Branch(t.fields - gone)
    ensures RunUnsets(t, Paths(own + [[key]])) == Branch(t.fields - (gone + {key}))
  {
    hide Segments;
    OnePath(key);
    assert Paths(own + [[key]]) == Paths(own) + Paths([[key]]);
    RunUnsetsAppend(t, Paths(own), [[key]]);
    RunOneUnset(RunUnsets(t, Paths(own)), [key]);
    assert t.fields - gone - {key} == t.fields - (gone + {key});
  }

  lemma {:induction false} OwnUnsetsRun(t: Tree, before: seq<Entry>, after: seq<Entry>)
    requires t.Branch?
    requires forall i :: 0 <= i < |before| && Lookup(after, before[i].key).None? ==> DotFree(before[i].key)
    ensures RunUnsets(t, Paths(OwnUnsets(before, after))) == Branch(t.fields - (Keys(before) - Keys(after)))
  {
    if before == [] {
      assert t.fields - (Keys(before) - Keys(after)) == t.fields;
    } else {
      hide RunUnsets, Paths, DotFree;
      var n := |before| - 1;
      var e, init := before[n], before[..n];
      OwnUnsetsRun(t, init, after);
      InKeys(after, e.key);
      assert Keys(before) == Keys(init) + {e.key};
      var own := OwnUnsets(init, after);
      if Lookup(after, e.key).None? {
        OwnUnsetStep(t, own, Keys(init) - Keys(after), e.key);
        assert Keys(before) - Keys(after) == (Keys(init) - Keys(after)) + {e.key};
      } else {
        assert own + [] == own;
        assert Keys(before) - Keys(after) == Keys(init) - Keys(after);
      }
    }
  }

  lemma RunOneSet(t: Tree, op: SetOp)
    ensures RunSets(t, [op]) == SetPath(t, op.names, TreeOf(op.value))
  {
    assert [op][..0] == [];
    assert RunSets(t, [op][..0]) == Some(t);
  }

  lemma {:induction false} PathsUnder(key: string, names: seq<seq<string>>)
    requires DotFree(key)
    ensures Paths(UnderNames(key, names)) == UnderNames(key, Paths(names))
  {
    SplitWhole('.', key);
    forall i | 0 <= i < |names| ensures Segments([key] + names[i]) == [key] + Segments(names[i]) {
      assert ([key] + names[i])[1..] == names[i];
    }
  }

  lemma {:induction false} SetPathsUnder(key: string, ops: seq<SetOp>)
    requires DotFree(key)
    ensures SetPaths(Under(key, ops)) == Under(key, SetPaths(ops))
  {
    SplitWhole('.', key);
    forall i | 0 <= i < |ops| ensures Segments([key] + ops[i].names) == [key] + Segments(ops[i].names) {
      assert ([key] + ops[i].names)[1..] == ops[i].names;
    }
  }

  lemma {:induction false} SegmentsNonempty(names: seq<string>)
    requires |names| > 0
    ensures |Segments(names)| > 0
  {
  }

  lemma {:induction false} UnsetsNonempty(before: seq<Entry>, after: seq<Entry>)
    ensures NoEmpty(NestedUnsets(before, after)) && NoEmpty(OwnUnsets(before, after)) && NoEmpty(Unsets(before, after))
    ensures NoEmpty(Paths(Unsets(before, after)))
    decreases after, before
  {
    if after != [] {
      UnsetsNonempty(before, after[..|after| - 1]);
    }
    OwnNonempty(before, after);
    forall i | 0 <= i < |Unsets(before, after)| ensures |Paths(Unsets(before, after))[i]| > 0 {
      SegmentsNonempty(Unsets(before, after)[i]);
    }
  }

  lemma {:induction false} OwnNonempty(before: seq<Entry>, after: seq<Entry>)
    ensures NoEmpty(OwnUnsets(before, after))
  {
    if before != [] {
      OwnNonempty(before[..|before| - 1], after);
    }
  }

  lemma {:induction false} SetsNonempty(before: seq<Entry>, after: seq<Entry>)
    ensures NoEmptySet(Sets(before, after)) && NoEmptySet(SetPaths(Sets(before, after)))
  {
    if after != [] {
      SetsNonempty(before, after[..|after| - 1]);
    }
    forall i | 0 <= i < |Sets(before, after)| ensures |SetPaths(Sets(before, after))[i].names| > 0 {
      SegmentsNonempty(Sets(before, after)[i].names);
    }
  }

  lemma {:induction false} NestedUnsetsRun(before: seq<Entry>, after: seq<Entry>)
    requires DistinctKeys(after)
    requires forall i :: 0 <= i < |after| ==> DotFree(after[i].key)
    requires forall i :: 0 <= i < |after| && Nested(before, after[i]) ==>
               var p, q := Lookup(before, after[i].key).value.entries, after[i].value.entries;
               RunUnsets(Branch(FieldsOf(p)), Paths(Unsets(p, q))) == Branch(Pruned(p, q))
    ensures RunUnsets(Branch(FieldsOf(before)), Paths(NestedUnsets(before, after))) == Branch(NestedPruned(before, after))
    decreases after, 0
  {
    if after != [] {
      hide FieldsOf, Pruned, Unsets, Lookup;
      var n := |after| - 1;
      var e, init := after[n], after[..n];
      NestedUnsetsRun(before, init);
      var names := NestedUnsets(before, init);
      NestedPrunedKeys(before, init);
      if Nested(before, e) {
        var p, q := Lookup(before, e.key).value.entries, e.value.entries;
        PathsUnder(e.key, Unsets(p, q));
        assert Paths(names + UnderNames(e.key, Unsets(p, q))) == Paths(names) + UnderNames(e.key, Paths(Unsets(p, q)));
        RunUnsetsAppend(Branch(FieldsOf(before)), Paths(names), UnderNames(e.key, Paths(Unsets(p, q))));
        InKeys(before, e.key);
        UnsetsNonempty(p, q);
        RunUnsetsUnder(NestedPruned(before, init), e.key, Paths(Unsets(p, q)));
        StillThere(before, init, e);
      } else {
        assert names + [] == names;
      }
    }
  }

  // A field not yet reached is as it was.
  lemma {:induction false} StillThere(before: seq<Entry>, init: seq<Entry>, e: Entry)
    requires forall i :: 0 <= i < |init| ==> init[i].key != e.key
    requires Lookup(before, e.key).Some?
    ensures e.key in NestedPruned(before, init)
    ensures NestedPruned(before, init)[e.key] == TreeOf(Lookup(before, e.key).value)
  {
    if init == [] {
      FieldsHold(before, e.key);
    } else {
      StillThere(before, init[..|init| - 1], e);
    }
  }

  lemma {:induction false} UnsetsRun(before: seq<Entry>, after: seq<Entry>)
    requires Distinct(Object(before)) && Distinct(Object(after)) && !Fails(before, after) && Clean(before, after)
    ensures RunUnsets(Branch(FieldsOf(before)), Paths(Unsets(before, after))) == Branch(Pruned(before, after))
    decreases after
  {
    forall i | 0 <= i < |after| && Nested(before, after[i])
      ensures var p, q := Lookup(before, after[i].key).value.entries, after[i].value.entries;
              RunUnsets(Branch(FieldsOf(p)), Paths(Unsets(p, q))) == Branch(Pruned(p, q))
    {
      var previous := Lookup(before, after[i].key).value;
      DistinctField(before, after[i].key);
      assert Distinct(after[i].value);
      UnsetsRun(previous.entries, after[i].value.entries);
    }
    NestedUnsetsRun(before, after);
    var nested, own := NestedUnsets(before, after), OwnUnsets(before, after);
    assert Paths(nested + own) == Paths(nested) + Paths(own);
    RunUnsetsAppend(Branch(FieldsOf(before)), Paths(nested), Paths(own));
    OwnUnsetsRun(Branch(NestedPruned(before, after)), before, after);
  }

  lemma {:induction false} DistinctField(entries: seq<Entry>, key: string)
    requires Distinct(Object(entries)) && Lookup(entries, key).Some?
    ensures Distinct(Lookup(entries, key).value)
  {
    var v := Lookup(entries, key).value;
    var i :| 0 <= i < |entries| && entries[i] == Entry(key, v);
  }

  /* ---------- What the set paths make of it ---------- */

  // What the unset paths leave of a field both documents have.
  function PrunedValue(before: seq<Entry>, e: Entry): Tree
    requires Lookup(before, e.key).Some?
  {
    if Nested(before, e) then Branch(Pruned(Lookup(before, e.key).value.entries, e.value.entries))
    else TreeOf(Lookup(before, e.key).value)
  }

  // Inside the field, the set paths give what was edited.
  predicate SetsWork(before: seq<Entry>, e: Entry) {
    Nested(before, e) ==>
      var p, q := Lookup(before, e.key).value.entries, e.value.entries;
      RunSets(Branch(Pruned(p, q)), SetPaths(Sets(p, q))) == Some(Branch(FieldsOf(q)))
  }

  // One edited field is written.
  lemma {:induction false} OneFieldSet(before: seq<Entry>, all: seq<Entry>, m: map<string, Tree>, e: Entry)
    requires DotFree(e.key) && Distinct(e.value)
    requires Lookup(before, e.key).Some? ==> Distinct(Lookup(before, e.key).value)
    requires Lookup(before, e.key).Some? ==> e.key in m && m[e.key] == PrunedValue(before, e)
    requires SetsWork(before, e)
    ensures RunSets(Branch(m), SetPaths(FieldSets(before, e))) == Some(Branch(m[e.key := TreeOf(e.value)]))
  {
    hide Pruned, Sets, Lookup;
    var previous := Lookup(before, e.key);
    if Nested(before, e) {
      var p, q := previous.value.entries, e.value.entries;
      SetPathsUnder(e.key, Sets(p, q));
      SetsNonempty(p, q);
      RunSetsUnder(m, e.key, SetPaths(Sets(p, q)));
    } else if previous.Some? && SameNode(previous.value, e.value) {
      SameNodeIsEquality(previous.value, e.value);
      assert m[e.key := TreeOf(e.value)] == m;
    } else {
      SplitWhole('.', e.key);
      assert Segments([e.key]) == [e.key] by {
        assert Segments([e.key][1..]) == [];
      }
      assert SetPaths([SetOp([e.key], e.value)]) == [SetOp([e.key], e.value)];
      RunOneSet(Branch(m), SetOp([e.key], e.value));
    }
  }

  lemma {:induction false} PrunedField(before: seq<Entry>, after: seq<Entry>, i: nat)
    requires DistinctKeys(after) && i < |after| && Lookup(before, after[i].key).Some?
    ensures var e := after[i];
            e.key in Pruned(before, after) && Pruned(before, after)[e.key] == PrunedValue(before, e)
  {
    NestedPrunedField(before, after, i);
    assert after[i].key in Keys(after);
  }

  lemma {:induction false} NestedPrunedField(before: seq<Entry>, after: seq<Entry>, i: nat)
    requires DistinctKeys(after) && i < |after| && Lookup(before, after[i].key).Some?
    ensures var e := after[i];
            e.key in NestedPruned(before, after) && NestedPruned(before, after)[e.key] == PrunedValue(before, e)
  {
    hide Pruned, Lookup;
    var n := |after| - 1;
    if i == n {
      StillThere(before, after[..n], after[n]);
    } else {
      NestedPrunedField(before, after[..n], i);
    }
  }

  lemma SetPathsAppend(a: seq<SetOp>, b: seq<SetOp>)
    ensures SetPaths(a + b) == SetPaths(a) + SetPaths(b)
  {
  }

  lemma {:induction false} SetsRunTo(before: seq<Entry>, after: seq<Entry>, i: nat)
    requires Distinct(Object(before)) && Distinct(Object(after)) && i <= |after|
    requires forall j :: 0 <= j < |after| ==> DotFree(after[j].key)
    requires forall j :: 0 <= j < |after| ==> SetsWork(before, after[j])
    ensures RunSets(Branch(Pruned(before, after)), SetPaths(Sets(before, after[..i])))
            == Some(Branch(Pruned(before, after) + FieldsOf(after[..i])))
  {
    hide Pruned, Lookup, PrunedValue, SetsWork, FieldSets, TreeOf, Segments;
    var base := Pruned(before, after);
    if i == 0 {
      assert base + map[] == base;
    } else {
      var n := i - 1;
      var e := after[n];
      SetsRunTo(before, after, n);
      assert after[..i][..n] == after[..n];
      var m := base + FieldsOf(after[..n]);
      NotAmong(after, n);
      if Lookup(before, e.key).Some? {
        PrunedField(before, after, n);
        DistinctField(before, e.key);
      }
      OneFieldSet(before, after, m, e);
      var done, more := Sets(before, after[..n]), FieldSets(before, e);
      SetPathsAppend(done, more);
      RunSetsAppend(Branch(base), SetPaths(done), SetPaths(more));
      assert m[e.key := TreeOf(e.value)] == base + FieldsOf(after[..i]);
    }
  }

  lemma {:induction false} NotAmong(after: seq<Entry>, n: nat)
    requires DistinctKeys(after) && n < |after|
    ensures after[n].key !in FieldsOf(after[..n])
  {
    FieldsKeys(after[..n]);
  }

  lemma {:induction false} SetsRun(before: seq<Entry>, after: seq<Entry>)
    requires Distinct(Object(before)) && Distinct(Object(after)) && !Fails(before, after)
    ensures RunSets(Branch(Pruned(before, after)), SetPaths(Sets(before, after))) == Some(Branch(FieldsOf(after)))
    decreases after
  {
    hide Pruned, Sets, RunSets, FieldsOf;
    forall i | 0 <= i < |after| ensures SetsWork(before, after[i]) {
      if Nested(before, after[i]) {
        DistinctField(before, after[i].key);
        assert Distinct(after[i].value);
        SetsRun(Lookup(before, after[i].key).value.entries, after[i].value.entries);
      }
    }
    SetsRunTo(before, after, |after|);
    assert after[..|after|] == after;
    PrunedIsCovered(before, after);
  }

  lemma {:induction false} PrunedIsCovered(before: seq<Entry>, after: seq<Entry>)
    ensures Pruned(before, after) + FieldsOf(after) == FieldsOf(after)
  {
    NestedPrunedKeys(before, after);
    FieldsKeys(after);
  }

  // What the server makes of a document and the paths of a change.
  function Applied(before: seq<Entry>, after: seq<Entry>): Option<Tree> {
    RunSets(RunUnsets(Branch(FieldsOf(before)), Paths(Unsets(before, after))), SetPaths(Sets(before, after)))
  }

  lemma {:induction false} AppliedGivesEdited(before: seq<Entry>, after: seq<Entry>)
    requires Distinct(Object(before)) && Distinct(Object(after)) && !Fails(before, after) && Clean(before, after)
    ensures Applied(before, after) == Some(TreeOf(Object(after)))
  {
    UnsetsRun(before, after);
    SetsRun(before, after);
  }

  /* ---------- What a removed name with a dot does ---------- */

  predicate AllDotFree(path: seq<string>) {
    forall i :: 0 <= i < |path| ==> DotFree(path[i])
  }

  lemma {:induction false} SegmentsDotFree(names: seq<string>)
    ensures AllDotFree(Segments(names))
  {
    if names != [] {
      SegmentsDotFree(names[1..]);
    }
  }

  lemma {:induction false} UnsetsKeepDotted(t: Tree, names: seq<seq<string>>, x: string)
    requires t.Branch? && x in t.fields && !DotFree(x)
    ensures x in RunUnsets(t, Paths(names)).fields
  {
    if names != [] {
      var n := |names| - 1;
      assert Paths(names)[..n] == Paths(names[..n]);
      UnsetsKeepDotted(t, names[..n], x);
      SegmentsDotFree(names[n]);
    }
  }

  lemma {:induction false} SetsKeepDotted(t: Tree, ops: seq<SetOp>, x: string)
    requires t.Branch? && x in t.fields && !DotFree(x)
    ensures var r := RunSets(t, SetPaths(ops));
            r.Some? ==> r.value.Branch? && x in r.value.fields
  {
    if ops != [] {
      var n := |ops| - 1;
      assert SetPaths(ops)[..n] == SetPaths(ops[..n]);
      SetsKeepDotted(t, ops[..n], x);
      SegmentsDotFree(ops[n].names);
    }
  }

  // No path starts at the field.
  predicate Elsewhere(paths: seq<seq<string>>, key: string) {
    forall i :: 0 <= i < |paths| ==> paths[i] == [] || paths[i][0] != key
  }

  predicate SameField(t: Tree, u: Tree, key: string) {
    t.Branch? && u.Branch? && (key in t.fields <==> key in u.fields) && (key in t.fields ==> t.fields[key] == u.fields[key])
  }

  lemma {:induction false} UnsetsElsewhere(t: Tree, paths: seq<seq<string>>, key: string)
    requires t.Branch? && Elsewhere(paths, key)
    ensures SameField(t, RunUnsets(t, paths), key)
  {
    if paths != [] {
      UnsetsElsewhere(t, paths[..|paths| - 1], key);
    }
  }

  lemma {:induction false} SetsElsewhere(t: Tree, ops: seq<SetOp>, key: string)
    requires t.Branch? && forall i :: 0 <= i < |ops| ==> ops[i].names == [] || ops[i].names[0] != key
    ensures RunSets(t, ops).Some? ==> SameField(t, RunSets(t, ops).value, key)
  {
    if ops != [] {
      SetsElsewhere(t, ops[..|ops| - 1], key);
    }
  }

  // What the unset paths really leave of a document.
  function Left(before: seq<Entry>, after: seq<Entry>): Tree {
    RunUnsets(Branch(FieldsOf(before)), Paths(Unsets(before, after)))
  }

  lemma {:induction false} NestedLeft(before: seq<Entry>, after: seq<Entry>, n: nat, i: nat)
    requires DistinctKeys(after) && i < |after| && n <= |after| && Nested(before, after[i])
    requires forall j :: 0 <= j < |after| ==> DotFree(after[j].key)
    ensures var t := RunUnsets(Branch(FieldsOf(before)), Paths(NestedUnsets(before, after[..n])));
            var p, q := Lookup(before, after[i].key).value.entries, after[i].value.entries;
            t.Branch? && after[i].key in t.fields
            && t.fields[after[i].key] == if i < n then Left(p, q) else Branch(FieldsOf(p))
  {
    hide FieldsOf, Lookup;
    if n == 0 {
      FieldsHold(before, after[i].key);
      TreeOfObject(Lookup(before, after[i].key).value);
    } else {
      NestedLeft(before, after, n - 1, i);
      assert after[..n][..n - 1] == after[..n - 1];
      var e, names := after[n - 1], NestedUnsets(before, after[..n - 1]);
      if Nested(before, e) {
        NestedLeftStep(before, names, e, after[i].key);
      } else {
        assert names + [] == names;
      }
    }
  }

  lemma TreeOfObject(node: Node)
    requires node.Object?
    ensures TreeOf(node) == Branch(FieldsOf(node.entries))
  {
  }

  lemma {:induction false} NestedLeftStep(before: seq<Entry>, names: seq<seq<string>>, e: Entry, key: string)
    requires Nested(before, e) && DotFree(e.key)
    requires var t := RunUnsets(Branch(FieldsOf(before)), Paths(names));
             t.Branch? && key in t.fields
             && (key == e.key ==> t.fields[key] == Branch(FieldsOf(Lookup(before, key).value.entries)))
    ensures var p, q := Lookup(before, e.key).value.entries, e.value.entries;
            var t := RunUnsets(Branch(FieldsOf(before)), Paths(names));
            var u := RunUnsets(Branch(FieldsOf(before)), Paths(names + UnderNames(e.key, Unsets(p, q))));
            if key == e.key then u.Branch? && key in u.fields && u.fields[key] == Left(p, q) else SameField(t, u, key)
  {
    hide FieldsOf, Lookup, Unsets;
    var p, q := Lookup(before, e.key).value.entries, e.value.entries;
    var more := UnderNames(e.key, Unsets(p, q));
    var t := RunUnsets(Branch(FieldsOf(before)), Paths(names));
    assert Paths(names + more) == Paths(names) + Paths(more);
    RunUnsetsAppend(Branch(FieldsOf(before)), Paths(names), Paths(more));
    PathsUnder(e.key, Unsets(p, q));
    if key == e.key {
      UnsetsNonempty(p, q);
      RunUnsetsUnder(t.fields, key, Paths(Unsets(p, q)));
    } else {
      UnsetsElsewhere(t, Paths(more), key);
    }
  }

  // Every field removed at this level is the whole path of its unset.
  predicate CleanHere(before: seq<Entry>, after: seq<Entry>) {
    forall i :: 0 <= i < |before| && Lookup(after, before[i].key).None? ==> DotFree(before[i].key)
  }

  lemma {:induction false} OwnElsewhere(before: seq<Entry>, after: seq<Entry>, key: string)
    requires CleanHere(before, after) && Lookup(after, key).Some?
    ensures Elsewhere(Paths(OwnUnsets(before, after)), key)
  {
    if before != [] {
      var n := |before| - 1;
      OwnElsewhere(before[..n], after, key);
      var own := OwnUnsets(before[..n], after);
      if Lookup(after, before[n].key).None? {
        SplitWhole('.', before[n].key);
        assert Segments([before[n].key]) == [before[n].key] by {
          assert Segments([before[n].key][1..]) == [];
        }
        assert Paths(own + [[before[n].key]]) == Paths(own) + [[before[n].key]];
      } else {
        assert own + [] == own;
      }
    }
  }

  lemma {:induction false} LeftField(before: seq<Entry>, after: seq<Entry>, i: nat)
    requires Distinct(Object(after)) && i < |after| && Nested(before, after[i]) && CleanHere(before, after)
    requires forall j :: 0 <= j < |after| ==> DotFree(after[j].key)
    ensures var t := Left(before, after);
            t.Branch? && after[i].key in t.fields
            && t.fields[after[i].key] == Left(Lookup(before, after[i].key).value.entries, after[i].value.entries)
  {
    hide FieldsOf, Lookup;
    var nested, own := NestedUnsets(before, after), OwnUnsets(before, after);
    NestedLeft(before, after, |after|, i);
    assert after[..|after|] == after;
    assert Paths(nested + own) == Paths(nested) + Paths(own);
    RunUnsetsAppend(Branch(FieldsOf(before)), Paths(nested), Paths(own));
    LookupDistinct(after, i);
    OwnElsewhere(before, after, after[i].key);
    UnsetsElsewhere(RunUnsets(Branch(FieldsOf(before)), Paths(nested)), Paths(own), after[i].key);
  }

  lemma {:induction false} FieldSetsElsewhere(before: seq<Entry>, e: Entry, key: string)
    requires DotFree(e.key) && e.key != key
    ensures forall i :: 0 <= i < |SetPaths(FieldSets(before, e))| ==>
              SetPaths(FieldSets(before, e))[i].names == [] || SetPaths(FieldSets(before, e))[i].names[0] != key
  {
    SplitWhole('.', e.key);
    forall i | 0 <= i < |FieldSets(before, e)| ensures Segments(FieldSets(before, e)[i].names)[..1] == [e.key] {
      assert FieldSets(before, e)[i].names[0] == e.key;
    }
  }

  // One more field written, seen from the nested field `key`.
  lemma {:induction false} SetsFieldStep(before: seq<Entry>, t: Tree, e: Entry, key: string)
    requires t.Branch? && key in t.fields && DotFree(e.key)
    requires e.key == key ==> Nested(before, e) && t.fields[key] == Left(Lookup(before, key).value.entries, e.value.entries)
    ensures var r := RunSets(t, SetPaths(FieldSets(before, e)));
            r.Some? ==>
              if e.key == key then
                var inner := Applied(Lookup(before, key).value.entries, e.value.entries);
                inner.Some? && r.value.Branch? && key in r.value.fields && r.value.fields[key] == inner.value
              else SameField(t, r.value, key)
  {
    hide Left, Lookup, Sets, Unsets;
    if e.key == key {
      var p, q := Lookup(before, key).value.entries, e.value.entries;
      SetPathsUnder(key, Sets(p, q));
      SetsNonempty(p, q);
      RunSetsUnder(t.fields, key, SetPaths(Sets(p, q)));
      AppliedIsLeft(p, q);
    } else {
      FieldSetsElsewhere(before, e, key);
      SetsElsewhere(t, SetPaths(FieldSets(before, e)), key);
    }
  }

  lemma AppliedIsLeft(before: seq<Entry>, after: seq<Entry>)
    ensures Applied(before, after) == RunSets(Left(before, after), SetPaths(Sets(before, after)))
  {
  }

  lemma {:induction false} AppliedField(before: seq<Entry>, after: seq<Entry>, n: nat, i: nat)
    requires Distinct(Object(after)) && i < |after| && n <= |after| && Nested(before, after[i]) && CleanHere(before, after)
    requires forall j :: 0 <= j < |after| ==> DotFree(after[j].key)
    ensures var r := RunSets(Left(before, after), SetPaths(Sets(before, after[..n])));
            var p, q := Lookup(before, after[i].key).value.entries, after[i].value.entries;
            r.Some? ==> (
              && r.value.Branch? && after[i].key in r.value.fields
              && if i < n then Applied(p, q).Some? && r.value.fields[after[i].key] == Applied(p, q).value
                 else r.value.fields[after[i].key] == Left(p, q))
  {
    hide Left, Lookup, FieldSets, Applied;
    if n == 0 {
      LeftField(before, after, i);
      assert SetPaths([]) == [];
    } else {
      AppliedField(before, after, n - 1, i);
      assert after[..n][..n - 1] == after[..n - 1];
      var done, more := Sets(before, after[..n - 1]), FieldSets(before, after[n - 1]);
      SetPathsAppend(done, more);
      RunSetsAppend(Left(before, after), SetPaths(done), SetPaths(more));
      var r := RunSets(Left(before, after), SetPaths(done));
      if r.Some? {
        SetsFieldStep(before, r.value, after[n - 1], after[i].key);
      }
    }
  }

  lemma {:induction false} AppliedMisses(before: seq<Entry>, after: seq<Entry>)
    requires Distinct(Object(before)) && Distinct(Object(after)) && !Fails(before, after) && !Clean(before, after)
    ensures Applied(before, after) != Some(TreeOf(Object(after)))
    decreases after
  {
    hide Left, Applied, Unsets, Sets;
    if CleanHere(before, after) {
      var i :| 0 <= i < |after| && Nested(before, after[i])
        && !Clean(Lookup(before, after[i].key).value.entries, after[i].value.entries);
      DistinctField(before, after[i].key);
      assert Distinct(after[i].value);
      AppliedMisses(Lookup(before, after[i].key).value.entries, after[i].value.entries);
      AppliedField(before, after, |after|, i);
      assert after[..|after|] == after;
      AppliedIsLeft(before, after);
      LookupDistinct(after, i);
      FieldsHold(after, after[i].key);
    } else {
      var i :| 0 <= i < |before| && Lookup(after, before[i].key).None? && !DotFree(before[i].key);
      var x := before[i].key;
      FieldsHold(before, x);
      LookupDistinct(before, i);
      DottedStays(before, after, x);
      FieldsHold(after, x);
    }
  }

  lemma {:induction false} DottedStays(before: seq<Entry>, after: seq<Entry>, x: string)
    requires x in FieldsOf(before) && !DotFree(x)
    ensures var r := Applied(before, after);
            r.Some? ==> r.value.Branch? && x in r.value.fields
  {
    UnsetsKeepDotted(Branch(FieldsOf(before)), Unsets(before, after), x);
    SetsKeepDotted(RunUnsets(Branch(FieldsOf(before)), Paths(Unsets(before, after))), Sets(before, after), x);
  }

  /**
   When the comparison succeeds, its paths give the edited document exactly when no field that was
   removed has a dot in its name.
   */
  lemma {:induction false} DiffIsExact(before: seq<Entry>, after: seq<Entry>)
    requires Distinct(Object(before)) && Distinct(Object(after)) && !Fails(before, after)
    ensures Applied(before, after) == Some(TreeOf(Object(after))) <==> Clean(before, after)
  {
    if Clean(before, after) {
      AppliedGivesEdited(before, after);
    } else {
      AppliedMisses(before, after);
    }
  }

  /* ---------- No path is a prefix of another ---------- */

  predicate PrefixFree(paths: seq<seq<string>>) {
    forall i, j :: 0 <= i < |paths| && 0 <= j < |paths| && i != j ==> !(paths[i] <= paths[j])
  }

  predicate Apart(a: seq<seq<string>>, b: seq<seq<string>>) {
    forall i, j :: 0 <= i < |a| && 0 <= j < |b| ==> !(a[i] <= b[j]) && !(b[j] <= a[i])
  }

  function NamesOf(ops: seq<SetOp>): seq<seq<string>> {
    seq(|ops|, i requires 0 <= i < |ops| => ops[i].names)
  }

  predicate StartIn(paths: seq<seq<string>>, keys: set<string>) {
    forall i :: 0 <= i < |paths| ==> |paths[i]| > 0 && paths[i][0] in keys
  }

  lemma ApartByKeys(a: seq<seq<string>>, b: seq<seq<string>>, ka: set<string>, kb: set<string>)
    requires StartIn(a, ka) && StartIn(b, kb) && ka !! kb
    ensures Apart(a, b)
  {
  }

  lemma PrefixFreeAppend(a: seq<seq<string>>, b: seq<seq<string>>)
    requires PrefixFree(a) && PrefixFree(b) && Apart(a, b)
    ensures PrefixFree(a + b)
  {
  }

  lemma ApartAppend(a: seq<seq<string>>, b: seq<seq<string>>, c: seq<seq<string>>)
    requires Apart(a, c) && Apart(b, c)
    ensures Apart(a + b, c) && Apart(c, a + b)
  {
  }

  lemma {:induction false} UnderApart(key: string, a: seq<seq<string>>, b: seq<seq<string>>)
    ensures Apart(a, b) ==> Apart(UnderNames(key, a), UnderNames(key, b))
    ensures PrefixFree(a) ==> PrefixFree(UnderNames(key, a))
  {
    forall p: seq<string>, q: seq<string> ensures [key] + p <= [key] + q ==> p <= q {
      if [key] + p <= [key] + q {
        assert ([key] + p)[1..] == p && ([key] + q)[1..] == q;
      }
    }
  }

  lemma {:induction false} KeysStep(after: seq<Entry>)
    requires DistinctKeys(after) && after != []
    ensures var n := |after| - 1;
            Keys(after) == Keys(after[..n]) + {after[n].key} && after[n].key !in Keys(after[..n])
  {
    var n := |after| - 1;
    FieldsKeys(after[..n]);
    NotAmong(after, n);
  }

  // Where the paths of one edited field, and those removed inside it, start.
  function Inner(before: seq<Entry>, e: Entry): seq<seq<string>> {
    if Nested(before, e) then UnderNames(e.key, Unsets(Lookup(before, e.key).value.entries, e.value.entries)) else []
  }

  lemma NamesUnder(key: string, ops: seq<SetOp>)
    ensures NamesOf(Under(key, ops)) == UnderNames(key, NamesOf(ops))
  {
  }

  lemma {:induction false} FieldPaths(before: seq<Entry>, e: Entry)
    requires Nested(before, e) ==> PathsApart(Lookup(before, e.key).value.entries, e.value.entries)
    ensures StartIn(NamesOf(FieldSets(before, e)), {e.key}) && StartIn(Inner(before, e), {e.key})
    ensures PrefixFree(NamesOf(FieldSets(before, e))) && PrefixFree(Inner(before, e))
    ensures Apart(NamesOf(FieldSets(before, e)), Inner(before, e))
  {
    hide Sets, Unsets;
    if Nested(before, e) {
      var p, q := Lookup(before, e.key).value.entries, e.value.entries;
      NamesUnder(e.key, Sets(p, q));
      UnderApart(e.key, NamesOf(Sets(p, q)), Unsets(p, q));
      UnderApart(e.key, Unsets(p, q), Unsets(p, q));
    }
  }

  predicate PathsApart(before: seq<Entry>, after: seq<Entry>) {
    && PrefixFree(NamesOf(Sets(before, after)))
    && PrefixFree(Unsets(before, after))
    && Apart(NamesOf(Sets(before, after)), Unsets(before, after))
  }

  lemma {:induction false} NamesAppend(a: seq<SetOp>, b: seq<SetOp>)
    ensures NamesOf(a + b) == NamesOf(a) + NamesOf(b)
  {
  }

  lemma {:induction false} ChangedApart(before: seq<Entry>, after: seq<Entry>)
    requires DistinctKeys(after)
    requires forall i :: 0 <= i < |after| && Nested(before, after[i]) ==>
               PathsApart(Lookup(before, after[i].key).value.entries, after[i].value.entries)
    ensures var sets, nested := NamesOf(Sets(before, after)), NestedUnsets(before, after);
            && StartIn(sets, Keys(after)) && StartIn(nested, Keys(after))
            && PrefixFree(sets) && PrefixFree(nested) && Apart(sets, nested)
    decreases after
  {
    if after != [] {
      hide FieldSets, Unsets, Lookup, PathsApart;
      var n := |after| - 1;
      var e, init := after[n], after[..n];
      ChangedApart(before, init);
      KeysStep(after);
      FieldPaths(before, e);
      var sets, nested := NamesOf(Sets(before, init)), NestedUnsets(before, init);
      var more, inner := NamesOf(FieldSets(before, e)), Inner(before, e);
      NamesAppend(Sets(before, init), FieldSets(before, e));
      assert NestedUnsets(before, after) == nested + inner;
      Combined(sets, nested, more, inner, Keys(init), e.key);
    }
  }

  lemma {:induction false} Combined(
      sets: seq<seq<string>>, nested: seq<seq<string>>, more: seq<seq<string>>, inner: seq<seq<string>>,
      keys: set<string>, key: string)
    requires StartIn(sets, keys) && StartIn(nested, keys) && StartIn(more, {key}) && StartIn(inner, {key}) && key !in keys
    requires PrefixFree(sets) && PrefixFree(nested) && Apart(sets, nested)
    requires PrefixFree(more) && PrefixFree(inner) && Apart(more, inner)
    ensures PrefixFree(sets + more) && PrefixFree(nested + inner) && Apart(sets + more, nested + inner)
    ensures StartIn(sets + more, keys + {key}) && StartIn(nested + inner, keys + {key})
  {
    ApartByKeys(sets, more, keys, {key});
    ApartByKeys(nested, inner, keys, {key});
    ApartByKeys(sets, inner, keys, {key});
    ApartByKeys(nested, more, keys, {key});
    PrefixFreeAppend(sets, more);
    PrefixFreeAppend(nested, inner);
    ApartAppend(sets, more, nested);
    ApartAppend(sets, more, inner);
    ApartAppend(nested, inner, sets + more);
  }

  lemma {:induction false} OwnPaths(before: seq<Entry>, after: seq<Entry>)
    requires DistinctKeys(before)
    ensures StartIn(OwnUnsets(before, after), Keys(before) - Keys(after)) && PrefixFree(OwnUnsets(before, after))
  {
    if before != [] {
      var n := |before| - 1;
      OwnPaths(before[..n], after);
      KeysStep(before);
      InKeys(after, before[n].key);
      var own := OwnUnsets(before[..n], after);
      if Lookup(after, before[n].key).None? {
        ApartByKeys(own, [[before[n].key]], Keys(before[..n]), {before[n].key});
        PrefixFreeAppend(own, [[before[n].key]]);
      } else {
        assert own + [] == own;
      }
    }
  }

  /** Of all the paths of a change, none is a prefix of another. */
  lemma {:induction false} NoPathInsideAnother(before: seq<Entry>, after: seq<Entry>)
    requires Distinct(Object(before)) && Distinct(Object(after))
    ensures PathsApart(before, after)
    decreases after
  {
    hide Sets, NestedUnsets, OwnUnsets, Keys;
    forall i | 0 <= i < |after| && Nested(before, after[i])
      ensures PathsApart(Lookup(before, after[i].key).value.entries, after[i].value.entries)
    {
      DistinctField(before, after[i].key);
      assert Distinct(after[i].value);
      NoPathInsideAnother(Lookup(before, after[i].key).value.entries, after[i].value.entries);
    }
    ChangedApart(before, after);
    OwnPaths(before, after);
    var sets, nested, own := NamesOf(Sets(before, after)), NestedUnsets(before, after), OwnUnsets(before, after);
    ApartByKeys(sets, own, Keys(after), Keys(before) - Keys(after));
    ApartByKeys(nested, own, Keys(after), Keys(before) - Keys(after));
    PrefixFreeAppend(nested, own);
    ApartAppend(nested, own, sets);
  }
}
