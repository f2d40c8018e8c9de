/**
 What a comparison of two documents reports, told of the two documents alone: a value is set exactly where
 the edited document has it and the original has none or another one, and a field is removed exactly where
 only the original has it.
 */
module DocumentDelta {
  import opened Wrappers
  import opened BsonDocument
  import opened DocumentDiff
  import DocumentChange

  /* ---------- Places in a document ---------- */

  // The names of `path` lead from one value to the other, field by field.
  ghost predicate Leads(node: Node, path: seq<string>, v: Node)
    decreases |path|
  {
    if path == [] then v == node
    else node.Object? && exists w :: Entry(path[0], w) in node.entries && Leads(w, path[1..], v)
  }

  ghost predicate LeadsSomewhere(node: Node, path: seq<string>) {
    exists v :: Leads(node, path, v)
  }

  // The place before the last name is an object.
  ghost predicate HasParent(node: Node, path: seq<string>)
    requires path != []
  {
    exists w :: Leads(node, path[..|path| - 1], w) && w.Object?
  }

  // Another value, that is not looked into.
  predicate IsOther(was: Node, v: Node) {
    !(was.Object? && v.Object?) && TreeOf(was) != TreeOf(v)
  }

  // The edited document has this value, in an object that both have, and the original has none or another.
  ghost predicate IsSet(original: Node, edited: Node, path: seq<string>, v: Node) {
    && path != [] && Leads(edited, path, v) && HasParent(original, path)
    && forall was :: Leads(original, path, was) ==> IsOther(was, v)
  }

  // The original has a field, in an object that both have, and the edited document has none.
  ghost predicate IsRemoved(original: Node, edited: Node, path: seq<string>) {
    path != [] && LeadsSomewhere(original, path) && HasParent(edited, path) && !LeadsSomewhere(edited, path)
  }

  /* ---------- One name at a time ---------- */

  lemma FieldIs(entries: seq<Entry>, key: string, v: Node)
    requires DistinctKeys(entries)
    ensures Entry(key, v) in entries <==> Lookup(entries, key) == Some(v)
  {
    if Entry(key, v) in entries {
      var i :| 0 <= i < |entries| && entries[i] == Entry(key, v);
      LookupDistinct(entries, i);
    }
  }

  // The first step of a path.
  lemma LeadsFirst(node: Node, key: string, rest: seq<string>, v: Node)
    requires node.Object? && DistinctKeys(node.entries)
    ensures Leads(node, [key] + rest, v) <==>
            Lookup(node.entries, key).Some? && Leads(Lookup(node.entries, key).value, rest, v)
  {
    var path := [key] + rest;
    assert path[0] == key && path[1..] == rest;
    if Leads(node, path, v) {
      var w :| Entry(path[0], w) in node.entries && Leads(w, path[1..], v);
      FieldIs(node.entries, key, w);
    }
    if Lookup(node.entries, key).Some? {
      FieldIs(node.entries, key, Lookup(node.entries, key).value);
    }
  }

  lemma ParentFirst(node: Node, key: string, rest: seq<string>)
    requires node.Object? && DistinctKeys(node.entries) && rest != []
    ensures HasParent(node, [key] + rest) <==> Lookup(node.entries, key).Some? && HasParent(Lookup(node.entries, key).value, rest)
  {
    hide Leads;
    var path := [key] + rest;
    var front, before := path[..|path| - 1], rest[..|rest| - 1];
    assert front == [key] + before;
    forall w ensures Leads(node, front, w) <==> Lookup(node.entries, key).Some? && Leads(Lookup(node.entries, key).value, before, w) {
      LeadsFirst(node, key, before, w);
    }
    if HasParent(node, path) {
      var w :| Leads(node, front, w) && w.Object?;
      assert Leads(Lookup(node.entries, key).value, before, w);
    }
    if Lookup(node.entries, key).Some? && HasParent(Lookup(node.entries, key).value, rest) {
      var w :| Leads(Lookup(node.entries, key).value, before, w) && w.Object?;
      assert Leads(node, front, w);
    }
  }

  lemma ParentOfOne(node: Node, key: string)
    ensures HasParent(node, [key]) <==> node.Object?
  {
    assert [key][..0] == [];
    if node.Object? {
      assert Leads(node, [], node);
    }
  }

  // What the comparison says of a field, by its first name.
  ghost predicate SetsFirst(before: seq<Entry>, after: seq<Entry>, key: string, rest: seq<string>, v: Node) {
    var was, is_ := Lookup(before, key), Lookup(after, key);
    if rest == [] then is_ == Some(v) && (was.Some? ==> IsOther(was.value, v))
    else was.Some? && is_.Some? && IsSet(was.value, is_.value, rest, v)
  }

  lemma SetFirst(before: seq<Entry>, after: seq<Entry>, key: string, rest: seq<string>, v: Node)
    requires DistinctKeys(before) && DistinctKeys(after)
    ensures IsSet(Object(before), Object(after), [key] + rest, v) <==> SetsFirst(before, after, key, rest, v)
  {
    hide HasParent, IsOther;
    LeadsFirst(Object(after), key, rest, v);
    forall w ensures Leads(Object(before), [key] + rest, w) <==> Lookup(before, key).Some? && Leads(Lookup(before, key).value, rest, w) {
      LeadsFirst(Object(before), key, rest, w);
    }
    if rest == [] {
      assert [key] + rest == [key];
      ParentOfOne(Object(before), key);
    } else {
      ParentFirst(Object(before), key, rest);
      hide Leads;
    }
  }

  /* ---------- What is set ---------- */

  lemma {:induction false} SetsOfAny(before: seq<Entry>, after: seq<Entry>, x: SetOp)
    ensures x in Sets(before, after) <==> exists e :: e in after && x in FieldSets(before, e)
    decreases |after|
  {
    hide FieldSets;
    if after != [] {
      var n := |after| - 1;
      SetsOfAny(before, after[..n], x);
      LastOrBefore(after);
      if x in FieldSets(before, after[n]) {
        assert after[n] in after;
      }
    }
  }

  lemma LastOrBefore(entries: seq<Entry>)
    requires entries != []
    ensures forall e :: e in entries <==> e in entries[..|entries| - 1] || e == entries[|entries| - 1]
  {
    assert entries == entries[..|entries| - 1] + [entries[|entries| - 1]];
  }

  lemma UnderIs(key: string, ops: seq<SetOp>, x: SetOp)
    ensures x in Under(key, ops) <==> x.names != [] && x.names[0] == key && SetOp(x.names[1..], x.value) in ops
  {
    if x.names != [] && x.names[0] == key && SetOp(x.names[1..], x.value) in ops {
      var i :| 0 <= i < |ops| && ops[i] == SetOp(x.names[1..], x.value);
      assert x.names == [key] + x.names[1..];
      assert Under(key, ops)[i] == x;
    }
    if x in Under(key, ops) {
      var i :| 0 <= i < |ops| && Under(key, ops)[i] == x;
      assert x.names == [key] + ops[i].names;
      assert x.names[1..] == ops[i].names && x.value == ops[i].value;
    }
  }

  lemma {:induction false} FieldSetsAre(before: seq<Entry>, after: seq<Entry>, e: Entry, x: SetOp)
    requires Distinct(Object(before)) && Distinct(Object(after)) && e in after
    ensures x in FieldSets(before, e) <==> x.names != [] && x.names[0] == e.key && SetsFirst(before, after, e.key, x.names[1..], x.value)
    decreases e, 0
  {
    hide Sets, IsSet, SameNode, TreeOf, Under;
    FieldIs(after, e.key, e.value);
    var was := Lookup(before, e.key);
    DistinctField(after, e);
    if was == None {
      OneName(x, e.key);
    } else {
      DistinctField(before, Entry(e.key, was.value));
      if Nested(before, e) {
        UnderIs(e.key, Sets(was.value.entries, e.value.entries), x);
        if x.names != [] {
          SetsAre(was.value.entries, e.value.entries, SetOp(x.names[1..], x.value));
          NothingSetHere(was.value, e.value, x.value);
        }
      } else {
        SameNodeIsEquality(was.value, e.value);
        OneName(x, e.key);
        if x.names != [] && x.names[1..] != [] {
          NotSetInside(was.value, e.value, x.names[1..], x.value);
        }
      }
    }
  }

  lemma OneName(x: SetOp, key: string)
    ensures x.names == [key] <==> x.names != [] && x.names[0] == key && x.names[1..] == []
  {
  }

  lemma DistinctField(entries: seq<Entry>, e: Entry)
    requires Distinct(Object(entries)) && e in entries
    ensures Distinct(e.value)
  {
    var i :| 0 <= i < |entries| && entries[i] == e;
  }

  lemma NothingSetHere(was: Node, v: Node, x: Node)
    requires was.Object? && v.Object?
    ensures !IsSet(was, v, [], x) && (x == v ==> !IsOther(was, x))
  {
  }

  // Only objects are looked into.
  lemma InsideObjects(node: Node, path: seq<string>)
    requires path != []
    ensures HasParent(node, path) || LeadsSomewhere(node, path) ==> node.Object?
  {
    if HasParent(node, path) {
      var w :| Leads(node, path[..|path| - 1], w) && w.Object?;
    }
  }

  lemma NotSetInside(was: Node, v: Node, path: seq<string>, x: Node)
    requires path != [] && !(was.Object? && v.Object?)
    ensures !IsSet(was, v, path, x)
  {
    hide Leads, HasParent;
    InsideObjects(was, path);
    InsideObjects(v, path);
  }

  /** What the comparison sets: exactly the values that are new or other than they were, each in its place. */
  lemma {:induction false} SetsAre(before: seq<Entry>, after: seq<Entry>, x: SetOp)
    requires Distinct(Object(before)) && Distinct(Object(after))
    ensures x in Sets(before, after) <==> IsSet(Object(before), Object(after), x.names, x.value)
    decreases after, 1
  {
    hide Sets, FieldSets, IsSet, SetsFirst;
    SetsOfAny(before, after, x);
    forall e | e in after
      ensures x in FieldSets(before, e) <==> x.names != [] && x.names[0] == e.key && SetsFirst(before, after, e.key, x.names[1..], x.value)
    {
      FieldSetsAre(before, after, e, x);
    }
    if x.names != [] {
      var key, rest := x.names[0], x.names[1..];
      assert x.names == [key] + rest;
      SetFirst(before, after, key, rest, x.value);
      if SetsFirst(before, after, key, rest, x.value) {
        FirstIsThere(before, after, key, rest, x.value);
        assert Entry(key, Lookup(after, key).value) in after;
      }
    } else {
      NothingAtTheTop(before, after, x.value);
    }
  }

  lemma FirstIsThere(before: seq<Entry>, after: seq<Entry>, key: string, rest: seq<string>, v: Node)
    requires SetsFirst(before, after, key, rest, v)
    ensures Lookup(after, key).Some?
  {
  }

  lemma NothingAtTheTop(before: seq<Entry>, after: seq<Entry>, v: Node)
    ensures !IsSet(Object(before), Object(after), [], v) && !IsRemoved(Object(before), Object(after), [])
  {
  }

  /* ---------- What is removed ---------- */

  ghost predicate RemovesFirst(before: seq<Entry>, after: seq<Entry>, key: string, rest: seq<string>) {
    var was, is_ := Lookup(before, key), Lookup(after, key);
    was.Some? && if rest == [] then is_ == None else is_.Some? && IsRemoved(was.value, is_.value, rest)
  }

  lemma SomewhereFirst(node: Node, key: string, rest: seq<string>)
    requires node.Object? && DistinctKeys(node.entries)
    ensures LeadsSomewhere(node, [key] + rest) <==>
            Lookup(node.entries, key).Some? && LeadsSomewhere(Lookup(node.entries, key).value, rest)
  {
    hide Leads;
    var path := [key] + rest;
    forall v ensures Leads(node, path, v) <==> Lookup(node.entries, key).Some? && Leads(Lookup(node.entries, key).value, rest, v) {
      LeadsFirst(node, key, rest, v);
    }
    if LeadsSomewhere(node, path) {
      var v :| Leads(node, path, v);
      assert Leads(Lookup(node.entries, key).value, rest, v);
    }
    if Lookup(node.entries, key).Some? && LeadsSomewhere(Lookup(node.entries, key).value, rest) {
      var v :| Leads(Lookup(node.entries, key).value, rest, v);
      assert Leads(node, path, v);
    }
  }

  lemma Somewhere(node: Node)
    ensures LeadsSomewhere(node, [])
  {
    assert Leads(node, [], node);
  }

  lemma RemovedFirst(before: seq<Entry>, after: seq<Entry>, key: string, rest: seq<string>)
    requires DistinctKeys(before) && DistinctKeys(after)
    ensures IsRemoved(Object(before), Object(after), [key] + rest) <==> RemovesFirst(before, after, key, rest)
  {
    hide HasParent, LeadsSomewhere;
    SomewhereFirst(Object(before), key, rest);
    SomewhereFirst(Object(after), key, rest);
    if rest == [] {
      assert [key] + rest == [key];
      ParentOfOne(Object(after), key);
      if Lookup(before, key).Some? {
        Somewhere(Lookup(before, key).value);
      }
      if Lookup(after, key).Some? {
        Somewhere(Lookup(after, key).value);
      }
    } else {
      ParentFirst(Object(after), key, rest);
    }
  }

  lemma {:induction false} OwnOfAny(before: seq<Entry>, after: seq<Entry>, path: seq<string>)
    ensures path in OwnUnsets(before, after) <==>
            |path| == 1 && Lookup(before, path[0]).Some? && Lookup(after, path[0]) == None
  {
    if before != [] {
      var n := |before| - 1;
      OwnOfAny(before[..n], after, path);
      OneOwn(before[n].key, path);
    }
  }

  lemma OneOwn(key: string, path: seq<string>)
    ensures path in [[key]] <==> |path| == 1 && path[0] == key
  {
    assert |path| == 1 ==> path == [path[0]];
  }

  // What is removed inside a field.
  predicate IsInner(before: seq<Entry>, e: Entry, path: seq<string>) {
    && Nested(before, e) && path != [] && path[0] == e.key
    && path[1..] in Unsets(Lookup(before, e.key).value.entries, e.value.entries)
  }

  lemma UnderNamesIs(key: string, paths: seq<seq<string>>, path: seq<string>)
    ensures path in UnderNames(key, paths) <==> path != [] && path[0] == key && path[1..] in paths
  {
    if path != [] && path[0] == key && path[1..] in paths {
      var i :| 0 <= i < |paths| && paths[i] == path[1..];
      assert path == [key] + path[1..];
      assert UnderNames(key, paths)[i] == path;
    }
    if path in UnderNames(key, paths) {
      var i :| 0 <= i < |paths| && UnderNames(key, paths)[i] == path;
      assert path == [key] + paths[i];
      assert path[1..] == paths[i];
    }
  }

  lemma {:induction false} NestedOfAny(before: seq<Entry>, after: seq<Entry>, path: seq<string>)
    ensures path in NestedUnsets(before, after) <==> exists e :: e in after && IsInner(before, e, path)
    decreases |after|
  {
    hide Unsets, IsInner, UnderNames;
    if after != [] {
      var n := |after| - 1;
      NestedOfAny(before, after[..n], path);
      LastOrBefore(after);
      OneInner(before, after[n], path);
      if IsInner(before, after[n], path) {
        assert after[n] in after;
      }
    }
  }

  lemma OneInner(before: seq<Entry>, e: Entry, path: seq<string>)
    ensures IsInner(before, e, path) <==>
            Nested(before, e) && path in UnderNames(e.key, Unsets(Lookup(before, e.key).value.entries, e.value.entries))
  {
    hide Unsets, UnderNames;
    if Nested(before, e) {
      UnderNamesIs(e.key, Unsets(Lookup(before, e.key).value.entries, e.value.entries), path);
    }
  }

  lemma {:induction false} InnerIs(before: seq<Entry>, after: seq<Entry>, e: Entry, path: seq<string>)
    requires Distinct(Object(before)) && Distinct(Object(after)) && e in after
    ensures IsInner(before, e, path) <==> |path| > 1 && path[0] == e.key && RemovesFirst(before, after, e.key, path[1..])
    decreases e, 0
  {
    hide Unsets, IsRemoved;
    FieldIs(after, e.key, e.value);
    DistinctField(after, e);
    var was := Lookup(before, e.key);
    if was.Some? && path != [] {
      DistinctField(before, Entry(e.key, was.value));
      if Nested(before, e) {
        UnsetsAre(was.value.entries, e.value.entries, path[1..]);
        NothingAtTheTop(was.value.entries, e.value.entries, e.value);
        assert was.value == Object(was.value.entries) && e.value == Object(e.value.entries);
        assert |path| == 1 ==> path[1..] == [];
      } else if |path| > 1 {
        NotRemovedInside(was.value, e.value, path[1..]);
      }
    }
  }

  lemma NotRemovedInside(was: Node, v: Node, path: seq<string>)
    requires path != [] && !(was.Object? && v.Object?)
    ensures !IsRemoved(was, v, path)
  {
    hide Leads, HasParent, LeadsSomewhere;
    InsideObjects(was, path);
    InsideObjects(v, path);
  }

  /** What the comparison removes: exactly the fields that only the original has, each in its place. */
  lemma {:induction false} UnsetsAre(before: seq<Entry>, after: seq<Entry>, path: seq<string>)
    requires Distinct(Object(before)) && Distinct(Object(after))
    ensures path in Unsets(before, after) <==> IsRemoved(Object(before), Object(after), path)
    decreases after, 1
  {
    hide NestedUnsets, OwnUnsets, IsRemoved, RemovesFirst, IsInner;
    OwnOfAny(before, after, path);
    NestedOfAny(before, after, path);
    forall e | e in after
      ensures IsInner(before, e, path) <==> |path| > 1 && path[0] == e.key && RemovesFirst(before, after, e.key, path[1..])
    {
      InnerIs(before, after, e, path);
    }
    if path == [] {
      NothingAtTheTop(before, after, Object(before));
    } else {
      var key, rest := path[0], path[1..];
      assert path == [key] + rest;
      RemovedFirst(before, after, key, rest);
      RemovedThere(before, after, key, rest);
    }
  }

  lemma RemovedThere(before: seq<Entry>, after: seq<Entry>, key: string, rest: seq<string>)
    ensures rest == [] ==> (RemovesFirst(before, after, key, rest) <==> Lookup(before, key).Some? && Lookup(after, key) == None)
    ensures rest != [] && RemovesFirst(before, after, key, rest) ==>
              Lookup(after, key).Some? && Entry(key, Lookup(after, key).value) in after
  {
  }

  /* ---------- What is refused ---------- */

  // A name with a dot in it, or a dollar sign in front.
  predicate IsBad(name: string) {
    (exists i :: 0 <= i < |name| && name[i] == '.') || (name != "" && name[0] == '$')
  }

  // A bad name of a field of the edited document, in an object that both have.
  ghost predicate IsBadField(original: Node, edited: Node, path: seq<string>) {
    path != [] && LeadsSomewhere(edited, path) && HasParent(original, path) && IsBad(path[|path| - 1])
  }

  ghost predicate HasBadField(original: Node, edited: Node) {
    exists path :: IsBadField(original, edited, path)
  }

  lemma BadIs(name: string)
    ensures IsBad(name) <==> IsBadName(name)
  {
  }

  lemma BadFirst(before: seq<Entry>, after: seq<Entry>, key: string, rest: seq<string>)
    requires DistinctKeys(before) && DistinctKeys(after)
    ensures IsBadField(Object(before), Object(after), [key] + rest) <==>
            if rest == [] then Lookup(after, key).Some? && IsBad(key)
            else Lookup(before, key).Some? && Lookup(after, key).Some?
                 && IsBadField(Lookup(before, key).value, Lookup(after, key).value, rest)
  {
    hide HasParent, LeadsSomewhere, IsBad;
    var path := [key] + rest;
    SomewhereFirst(Object(after), key, rest);
    if rest == [] {
      assert path == [key];
      ParentOfOne(Object(before), key);
      if Lookup(after, key).Some? {
        Somewhere(Lookup(after, key).value);
      }
    } else {
      ParentFirst(Object(before), key, rest);
      assert path[|path| - 1] == rest[|rest| - 1];
    }
  }

  // A bad name found below one field, and the way to it.
  lemma BadBelow(before: seq<Entry>, after: seq<Entry>, key: string)
    requires DistinctKeys(before) && DistinctKeys(after) && Lookup(before, key).Some? && Lookup(after, key).Some?
    requires HasBadField(Lookup(before, key).value, Lookup(after, key).value)
    ensures HasBadField(Object(before), Object(after))
  {
    hide IsBadField;
    var rest :| IsBadField(Lookup(before, key).value, Lookup(after, key).value, rest);
    BadFirst(before, after, key, rest);
    NotAtTheTop(Lookup(before, key).value, Lookup(after, key).value, rest);
    assert IsBadField(Object(before), Object(after), [key] + rest);
  }

  lemma NotAtTheTop(original: Node, edited: Node, path: seq<string>)
    requires IsBadField(original, edited, path)
    ensures path != [] && original.Object? && edited.Object?
  {
    hide Leads, HasParent, LeadsSomewhere;
    InsideObjects(original, path);
    InsideObjects(edited, path);
  }

  lemma BadHere(before: seq<Entry>, after: seq<Entry>, key: string)
    requires DistinctKeys(before) && DistinctKeys(after) && Lookup(after, key).Some? && IsBad(key)
    ensures HasBadField(Object(before), Object(after))
  {
    hide IsBadField;
    BadFirst(before, after, key, []);
    assert IsBadField(Object(before), Object(after), [key] + []);
  }

  /** The comparison fails exactly on a bad name of a field that the edited document has where both have an object. */
  lemma {:induction false} FailsAre(before: seq<Entry>, after: seq<Entry>)
    requires Distinct(Object(before)) && Distinct(Object(after))
    ensures Fails(before, after) <==> HasBadField(Object(before), Object(after))
    decreases after
  {
    hide IsBad, IsBadName, IsBadField, HasBadField, Fails;
    forall i | 0 <= i < |after|
      ensures Nested(before, after[i]) ==>
                (Fails(Lookup(before, after[i].key).value.entries, after[i].value.entries)
                 <==> HasBadField(Lookup(before, after[i].key).value, after[i].value))
      ensures Lookup(after, after[i].key) == Some(after[i].value)
    {
      LookupDistinct(after, i);
      DistinctField(after, after[i]);
      if Nested(before, after[i]) {
        var was := Lookup(before, after[i].key).value;
        DistinctField(before, Entry(after[i].key, was));
        FailsAre(was.entries, after[i].value.entries);
        assert was == Object(was.entries) && after[i].value == Object(after[i].value.entries);
      }
    }
    FailsWhere(before, after);
    if Fails(before, after) {
      var i :| 0 <= i < |after| && FailsHere(before, after[i]);
      BadIs(after[i].key);
      if IsBadName(after[i].key) {
        BadHere(before, after, after[i].key);
      } else {
        BadBelow(before, after, after[i].key);
      }
    }
    if HasBadField(Object(before), Object(after)) {
      var path := SomeBadField(Object(before), Object(after));
      var i := BadFieldPlace(before, after, path);
      BadFieldAt(before, after, path, i);
    }
  }

  lemma SomeBadField(original: Node, edited: Node) returns (path: seq<string>)
    requires HasBadField(original, edited)
    ensures IsBadField(original, edited, path)
  {
    hide IsBadField;
    path :| IsBadField(original, edited, path);
  }

  // The field that the path begins with.
  lemma BadFieldPlace(before: seq<Entry>, after: seq<Entry>, path: seq<string>) returns (i: nat)
    requires DistinctKeys(before) && DistinctKeys(after) && IsBadField(Object(before), Object(after), path)
    ensures path != [] && i < |after| && after[i].key == path[0]
  {
    hide IsBad, IsBadField, Lookup;
    NotAtTheTop(Object(before), Object(after), path);
    var key, rest := path[0], path[1..];
    assert path == [key] + rest;
    BadFirst(before, after, key, rest);
    var v := Lookup(after, key).value;
    assert Entry(key, v) in after;
    i :| 0 <= i < |after| && after[i] == Entry(key, v);
  }

  predicate FailsHere(before: seq<Entry>, e: Entry) {
    IsBadName(e.key) || (Nested(before, e) && Fails(Lookup(before, e.key).value.entries, e.value.entries))
  }

  lemma FailsWhere(before: seq<Entry>, after: seq<Entry>)
    ensures Fails(before, after) <==> exists i :: 0 <= i < |after| && FailsHere(before, after[i])
  {
  }

  lemma BadFieldAt(before: seq<Entry>, after: seq<Entry>, path: seq<string>, i: nat)
    requires DistinctKeys(before) && DistinctKeys(after) && IsBadField(Object(before), Object(after), path)
    requires path != [] && i < |after| && after[i].key == path[0] && Lookup(after, path[0]) == Some(after[i].value)
    requires Nested(before, after[i]) ==>
               (Fails(Lookup(before, after[i].key).value.entries, after[i].value.entries)
                <==> HasBadField(Lookup(before, after[i].key).value, after[i].value))
    ensures Fails(before, after)
  {
    hide IsBad, IsBadName, IsBadField, HasBadField, Fails, Lookup, DistinctKeys;
    var key, rest := path[0], path[1..];
    assert path == [key] + rest;
    BadFirst(before, after, key, rest);
    BadIs(key);
    if rest != [] {
      BadInside(Lookup(before, key).value, after[i].value, rest);
    }
    assert FailsHere(before, after[i]);
    FailsWhere(before, after);
  }

  lemma BadInside(original: Node, edited: Node, path: seq<string>)
    requires IsBadField(original, edited, path)
    ensures HasBadField(original, edited) && original.Object? && edited.Object?
  {
    NotAtTheTop(original, edited, path);
  }

  /** The identity is kept exactly when the original has none, or the edited document has the same one. */
  lemma IdKeptIs(before: seq<Entry>, after: seq<Entry>)
    requires Distinct(Object(before)) && Distinct(Object(after))
    ensures DocumentChange.IdKept(before, after) <==>
            forall v :: Entry("_id", v) in before ==> exists w :: Entry("_id", w) in after && TreeOf(w) == TreeOf(v)
  {
    hide SameNode, TreeOf, FindEntry;
    FindIs(before, "_id");
    FindIs(after, "_id");
    var was, is_ := FindEntry(before, "_id"), FindEntry(after, "_id");
    if was.Some? && is_.Some? {
      DistinctField(before, Entry("_id", was.value));
      DistinctField(after, Entry("_id", is_.value));
      SameNodeIsEquality(was.value, is_.value);
    }
  }

  lemma {:induction false} FindIs(entries: seq<Entry>, key: string)
    requires DistinctKeys(entries)
    ensures forall v :: Entry(key, v) in entries <==> FindEntry(entries, key) == Some(v)
  {
    if entries != [] {
      assert entries == [entries[0]] + entries[1..];
      FindIs(entries[1..], key);
      forall v | Entry(key, v) in entries[1..] ensures entries[0].key != key {
        var i :| 0 <= i < |entries[1..]| && entries[1..][i] == Entry(key, v);
        assert entries[i + 1].key == key;
      }
    }
  }
}
