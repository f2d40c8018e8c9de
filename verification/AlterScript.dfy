/**
 `alterTableSql` as the source runs it: loops that push statements onto local lists. The method is
 proved to return `AlterStatements`; the lemmas at the end draw the consequences of
 `AlterReachesAfter` for callers.
 */
module AlterScript {
  import opened Wrappers
  import opened TableDesign
  import opened AlterTable

  // JavaScript's `find`.
  function First<T>(items: seq<T>, wanted: T -> bool): Option<T> {
    if |items| == 0 then None else if wanted(items[0]) then Some(items[0]) else First(items[1..], wanted)
  }

  function KeysOf<T>(items: seq<T>, keyOf: T -> Key): (keys: seq<Key>)
    ensures |keys| == |items|
    ensures forall i :: 0 <= i < |items| ==> keys[i] == keyOf(items[i])
  {
    seq(|items|, i requires 0 <= i < |items| => keyOf(items[i]))
  }

  // Constraints under their resolved names.
  function NamedForeignKeys(t: Table): seq<ForeignKey> {
    seq(|t.foreignKeys|, i requires 0 <= i < |t.foreignKeys| =>
      t.foreignKeys[i].(name := Some(ForeignKeyName(t, t.foreignKeys[i]))))
  }

  function NamedUniques(t: Table): seq<Unique> {
    seq(|t.uniques|, i requires 0 <= i < |t.uniques| => t.uniques[i].(name := Some(UniqueName(t, t.uniques[i]))))
  }

  function NamedChecks(t: Table): seq<Check> {
    seq(|t.checks|, i requires 0 <= i < |t.checks| => t.checks[i].(name := Some(CheckName(t, t.checks[i], i))))
  }

  function ForeignKeyOf(k: ForeignKey): Key { Key(KeyName(KForeign, k.name.GetOr("")), ForeignBodyOf(k)) }

  function UniqueOf(k: Unique): Key { Key(KeyName(KUnique, k.name.GetOr("")), Body(k.columns, UniqueFacts)) }

  function CheckOf(k: Check): Key { Key(KeyName(KCheck, k.name.GetOr("")), Body([], CheckFacts(k.expression))) }

  function IndexOf(x: Index): Key { Key(KeyName(KIndex, x.name), IndexBodyOf(x)) }

  function MovedIndex(m: map<string, string>, x: Index): Index {
    x.(columns := seq(|x.columns|, i requires 0 <= i < |x.columns| =>
      x.columns[i].(name := Current(m, x.columns[i].name))))
  }

  lemma NamedListsAreKeys(t: Table)
    ensures KeysOf(NamedForeignKeys(t), ForeignKeyOf) == ForeignKeys(t)
    ensures KeysOf(NamedUniques(t), UniqueOf) == Uniques(t)
    ensures KeysOf(NamedChecks(t), CheckOf) == Checks(t)
    ensures KeysOf(t.indexes, IndexOf) == Indexes(t)
  {
    assert forall i :: 0 <= i < |t.foreignKeys| ==> KeysOf(NamedForeignKeys(t), ForeignKeyOf)[i] == ForeignKeys(t)[i];
    assert forall i :: 0 <= i < |t.uniques| ==> KeysOf(NamedUniques(t), UniqueOf)[i] == Uniques(t)[i];
    assert forall i :: 0 <= i < |t.checks| ==> KeysOf(NamedChecks(t), CheckOf)[i] == Checks(t)[i];
    assert forall i :: 0 <= i < |t.indexes| ==> KeysOf(t.indexes, IndexOf)[i] == Indexes(t)[i];
  }

  /* ---------- Finding by name, list by list ---------- */

  function FindForeignKey(keys: seq<ForeignKey>, name: string): Option<ForeignKey> {
    First(keys, (k: ForeignKey) => k.name == Some(name))
  }

  function FindUnique(keys: seq<Unique>, name: string): Option<Unique> {
    First(keys, (k: Unique) => k.name == Some(name))
  }

  function FindCheck(checks: seq<Check>, name: string): Option<Check> {
    First(checks, (c: Check) => c.name == Some(name))
  }

  function FindIndex(indexes: seq<Index>, name: string): Option<Index> {
    First(indexes, (x: Index) => x.name == name)
  }

  lemma {:induction false} FirstIsFind<T>(items: seq<T>, wanted: T -> bool, keyOf: T -> Key, name: KeyName)
    requires forall x :: x in items ==> (wanted(x) <==> keyOf(x).key == name)
    ensures Find(KeysOf(items, keyOf), name) ==
            match First(items, wanted) { case None => None case Some(x) => Some(keyOf(x).body) }
    ensures First(items, wanted).Some? ==> keyOf(First(items, wanted).value).key == name
  {
    if items != [] && !wanted(items[0]) {
      assert KeysOf(items, keyOf)[1..] == KeysOf(items[1..], keyOf);
      FirstIsFind(items[1..], wanted, keyOf, name);
    } else if items != [] {
      assert items[0] in items;
    }
  }

  lemma {:induction false} FindAppend(a: seq<Key>, b: seq<Key>, name: KeyName)
    ensures Find(a + b, name) == if Find(a, name).Some? then Find(a, name) else Find(b, name)
  {
    if a == [] {
      assert a + b == b;
    } else {
      assert (a + b)[1..] == a[1..] + b;
      FindAppend(a[1..], b, name);
    }
  }

  function OfKind(t: Table, kind: Kind): seq<Key> {
    match kind
    case KForeign => ForeignKeys(t)
    case KUnique => Uniques(t)
    case KCheck => Checks(t)
    case KIndex => Indexes(t)
  }

  lemma {:induction false} FindInKind(t: Table, name: KeyName)
    ensures Find(DropOrder(t), name) == Find(OfKind(t, name.kind), name)
  {
    FindAppend(ForeignKeys(t), Uniques(t), name);
    FindAppend(ForeignKeys(t) + Uniques(t), Checks(t), name);
    FindAppend(ForeignKeys(t) + Uniques(t) + Checks(t), Indexes(t), name);
  }

  function BodyOf<T>(found: Option<T>, keyOf: T -> Key): Option<Body> {
    match found
    case None => None
    case Some(x) => Some(keyOf(x).body)
  }

  lemma {:induction false} ForeignKeyFound(t: Table, name: string)
    ensures Find(DropOrder(t), KeyName(KForeign, name)) == BodyOf(FindForeignKey(NamedForeignKeys(t), name), ForeignKeyOf)
  {
    hide First, Find, KeysOf;
    NamedListsAreKeys(t);
    FirstIsFind(NamedForeignKeys(t), (k: ForeignKey) => k.name == Some(name), ForeignKeyOf, KeyName(KForeign, name));
    FindInKind(t, KeyName(KForeign, name));
  }

  lemma {:induction false} UniqueFound(t: Table, name: string)
    ensures Find(DropOrder(t), KeyName(KUnique, name)) == BodyOf(FindUnique(NamedUniques(t), name), UniqueOf)
  {
    hide First, Find, KeysOf;
    NamedListsAreKeys(t);
    FirstIsFind(NamedUniques(t), (k: Unique) => k.name == Some(name), UniqueOf, KeyName(KUnique, name));
    FindInKind(t, KeyName(KUnique, name));
  }

  lemma {:induction false} CheckFound(t: Table, name: string)
    ensures Find(DropOrder(t), KeyName(KCheck, name)) == BodyOf(FindCheck(NamedChecks(t), name), CheckOf)
  {
    hide First, Find, KeysOf;
    NamedListsAreKeys(t);
    FirstIsFind(NamedChecks(t), (c: Check) => c.name == Some(name), CheckOf, KeyName(KCheck, name));
    FindInKind(t, KeyName(KCheck, name));
  }

  lemma {:induction false} IndexFound(t: Table, name: string)
    ensures Find(DropOrder(t), KeyName(KIndex, name)) == BodyOf(FindIndex(t.indexes, name), IndexOf)
  {
    hide First, Find, KeysOf;
    NamedListsAreKeys(t);
    FirstIsFind(t.indexes, (x: Index) => x.name == name, IndexOf, KeyName(KIndex, name));
    FindInKind(t, KeyName(KIndex, name));
  }

  lemma {:induction false} IndexesCompare(m: map<string, string>, a: Index, b: Index)
    ensures SameIndex(MovedIndex(m, a), b) <==> MovedBody(m, IndexBodyOf(a)) == IndexBodyOf(b)
  {
    var x, y := MovedBody(m, IndexBodyOf(a)), IndexBodyOf(b);
    if SameIndex(MovedIndex(m, a), b) {
      assert x.columns == y.columns;
      assert x.facts.orders == y.facts.orders;
    }
    if x == y {
      forall i | 0 <= i < |a.columns|
        ensures MovedIndex(m, a).columns[i].name == b.columns[i].name
             && MovedIndex(m, a).columns[i].order.GetOr("ASC") == b.columns[i].order.GetOr("ASC")
      {
        assert x.columns[i] == y.columns[i] && x.facts.orders[i] == y.facts.orders[i];
      }
    }
  }

  lemma {:induction false} DropKeysAppend(m: map<string, string>, a: seq<Key>, b: seq<Key>, afters: seq<Key>)
    ensures DropKeys(m, a + b, afters) == DropKeys(m, a, afters) + DropKeys(m, b, afters)
  {
    if b == [] {
      assert a + b == a;
    } else {
      assert (a + b)[..|a + b| - 1] == a + b[..|b| - 1];
      DropKeysAppend(m, a, b[..|b| - 1], afters);
    }
  }

  lemma {:induction false} AddKeysAppend(m: map<string, string>, table: string, a: seq<Key>, b: seq<Key>, befores: seq<Key>)
    ensures AddKeys(m, table, a + b, befores) == AddKeys(m, table, a, befores) + AddKeys(m, table, b, befores)
  {
    if b == [] {
      assert a + b == a;
    } else {
      assert (a + b)[..|a + b| - 1] == a + b[..|b| - 1];
      AddKeysAppend(m, table, a, b[..|b| - 1], befores);
    }
  }

  /* ---------- The source's loops ---------- */

  method RenamedColumns(before: seq<Column>, after: seq<Column>) returns (renamed: map<string, string>)
    ensures renamed == Renames(before, after)
  {
    renamed := map[];
    for i := 0 to |after|
      invariant renamed == Renames(before, after[..i])
    {
      assert after[..i + 1][..i] == after[..i];
      var prior := FindColumn(before, after[i].id);
      if prior.Some? && prior.value.name != after[i].name {
        renamed := renamed[prior.value.name := after[i].name];
      }
    }
    assert after[..|after|] == after;
  }

  method DropForeignKeys(m: map<string, string>, before: Table, after: Table) returns (drops: seq<Statement>)
    ensures drops == DropKeys(m, ForeignKeys(before), DropOrder(after))
  {
    hide First, Find, ForeignKeyName, UniqueName, CheckName, SameIndex, MovedIndex, Uniques, Checks, Indexes;
    var befores, afters := NamedForeignKeys(before), NamedForeignKeys(after);
    drops := [];
    for i := 0 to |befores|
      invariant drops == DropKeys(m, ForeignKeys(before)[..i], DropOrder(after))
    {
      assert ForeignKeys(before)[..i + 1][..i] == ForeignKeys(before)[..i];
      var key := befores[i];
      var kept := FindForeignKey(afters, key.name.value);
      ForeignKeyFound(after, key.name.value);
      if !(kept.Some? && SameForeignKey(key.(columns := Moved(m, key.columns)), kept.value)) {
        drops := drops + [DropKey(KeyName(KForeign, key.name.value))];
      }
    }
    assert ForeignKeys(before)[..|befores|] == ForeignKeys(before);
  }

  method DropUniques(m: map<string, string>, before: Table, after: Table) returns (drops: seq<Statement>)
    ensures drops == DropKeys(m, Uniques(before), DropOrder(after))
  {
    hide First, Find, ForeignKeyName, UniqueName, CheckName, SameIndex, MovedIndex, ForeignKeys, Checks, Indexes;
    var befores, afters := NamedUniques(before), NamedUniques(after);
    drops := [];
    for i := 0 to |befores|
      invariant drops == DropKeys(m, Uniques(before)[..i], DropOrder(after))
    {
      assert Uniques(before)[..i + 1][..i] == Uniques(before)[..i];
      var key := befores[i];
      var kept := FindUnique(afters, key.name.value);
      UniqueFound(after, key.name.value);
      if kept.None? || Moved(m, key.columns) != kept.value.columns {
        drops := drops + [DropKey(KeyName(KUnique, key.name.value))];
      }
    }
    assert Uniques(before)[..|befores|] == Uniques(before);
  }

  method DropChecks(m: map<string, string>, before: Table, after: Table) returns (drops: seq<Statement>)
    ensures drops == DropKeys(m, Checks(before), DropOrder(after))
  {
    hide First, Find, ForeignKeyName, UniqueName, CheckName, SameIndex, MovedIndex, ForeignKeys, Uniques, Indexes;
    var befores, afters := NamedChecks(before), NamedChecks(after);
    drops := [];
    for i := 0 to |befores|
      invariant drops == DropKeys(m, Checks(before)[..i], DropOrder(after))
    {
      assert Checks(before)[..i + 1][..i] == Checks(before)[..i];
      var check := befores[i];
      var kept := FindCheck(afters, check.name.value);
      CheckFound(after, check.name.value);
      if kept.None? || kept.value.expression != check.expression {
        drops := drops + [DropKey(KeyName(KCheck, check.name.value))];
      }
    }
    assert Checks(before)[..|befores|] == Checks(before);
  }

  method DropIndexes(m: map<string, string>, before: Table, after: Table) returns (drops: seq<Statement>)
    ensures drops == DropKeys(m, Indexes(before), DropOrder(after))
  {
    hide First, Find, ForeignKeyName, UniqueName, CheckName, SameIndex, MovedIndex, ForeignKeys, Uniques, Checks;
    drops := [];
    for i := 0 to |before.indexes|
      invariant drops == DropKeys(m, Indexes(before)[..i], DropOrder(after))
    {
      assert Indexes(before)[..i + 1][..i] == Indexes(before)[..i];
      var index := before.indexes[i];
      var kept := FindIndex(after.indexes, index.name);
      IndexFound(after, index.name);
      if kept.Some? {
        IndexesCompare(m, index, kept.value);
      }
      if kept.None? || !SameIndex(MovedIndex(m, index), kept.value) {
        drops := drops + [DropKey(KeyName(KIndex, index.name))];
      }
    }
    assert Indexes(before)[..|before.indexes|] == Indexes(before);
  }

  method DroppedColumns(before: seq<Column>, after: seq<Column>) returns (columnChanges: seq<Statement>)
    ensures columnChanges == DropColumns(before, after)
  {
    columnChanges := [];
    for i := 0 to |before|
      invariant columnChanges == DropColumns(before[..i], after)
    {
      assert before[..i + 1][..i] == before[..i];
      if FindColumn(after, before[i].id).None? {
        columnChanges := columnChanges + [DropColumn(before[i].name)];
      }
    }
    assert before[..|before|] == before;
  }

  method ChangedAndNewColumns(lengthTypes: set<string>, before: seq<Column>, after: seq<Column>)
    returns (columnChanges: seq<Statement>, adds: seq<Statement>)
    ensures columnChanges == ColumnChanges(lengthTypes, before, after)
    ensures adds == AddColumns(lengthTypes, before, after)
  {
    columnChanges, adds := [], [];
    for i := 0 to |after|
      invariant columnChanges == ColumnChanges(lengthTypes, before, after[..i])
      invariant adds == AddColumns(lengthTypes, before, after[..i])
    {
      assert after[..i + 1][..i] == after[..i];
      var column := after[i];
      var prior := FindColumn(before, column.id);
      if prior.None? {
        adds := adds + [AddColumn(column.name, DefinitionOf(lengthTypes, column))];
        continue;
      }
      var renamedHere := prior.value.name != column.name;
      var changed := !SameColumn(prior.value, column);
      if !renamedHere && !changed {
        continue;
      }
      if renamedHere {
        columnChanges := columnChanges + [ChangeColumn(prior.value.name, column.name, DefinitionOf(lengthTypes, column))];
      } else {
        columnChanges := columnChanges + [ModifyColumn(column.name, DefinitionOf(lengthTypes, column))];
      }
    }
    assert after[..|after|] == after;
  }

  method AddUniques(m: map<string, string>, before: Table, after: Table) returns (tail: seq<Statement>)
    ensures tail == AddKeys(m, after.name, Uniques(after), DropOrder(before))
  {
    hide First, Find, ForeignKeyName, UniqueName, CheckName, SameIndex, MovedIndex, ForeignKeys, Checks, Indexes;
    var befores, afters := NamedUniques(before), NamedUniques(after);
    tail := [];
    for i := 0 to |afters|
      invariant tail == AddKeys(m, after.name, Uniques(after)[..i], DropOrder(before))
    {
      assert Uniques(after)[..i + 1][..i] == Uniques(after)[..i];
      var key := afters[i];
      var prior := FindUnique(befores, key.name.value);
      UniqueFound(before, key.name.value);
      if prior.None? || Moved(m, prior.value.columns) != key.columns {
        tail := tail + [AddKey(KeyName(KUnique, key.name.value), Body(key.columns, UniqueFacts))];
      }
    }
    assert Uniques(after)[..|afters|] == Uniques(after);
  }

  method AddChecks(m: map<string, string>, before: Table, after: Table) returns (tail: seq<Statement>)
    ensures tail == AddKeys(m, after.name, Checks(after), DropOrder(before))
  {
    hide First, Find, ForeignKeyName, UniqueName, CheckName, SameIndex, MovedIndex, ForeignKeys, Uniques, Indexes;
    var befores, afters := NamedChecks(before), NamedChecks(after);
    tail := [];
    for i := 0 to |afters|
      invariant tail == AddKeys(m, after.name, Checks(after)[..i], DropOrder(before))
    {
      assert Checks(after)[..i + 1][..i] == Checks(after)[..i];
      var check := afters[i];
      var prior := FindCheck(befores, check.name.value);
      CheckFound(before, check.name.value);
      if prior.None? || prior.value.expression != check.expression {
        tail := tail + [AddKey(KeyName(KCheck, check.name.value), Body([], CheckFacts(check.expression)))];
      }
    }
    assert Checks(after)[..|afters|] == Checks(after);
  }

  method AddForeignKeys(m: map<string, string>, before: Table, after: Table) returns (tail: seq<Statement>)
    ensures tail == AddKeys(m, after.name, ForeignKeys(after), DropOrder(before))
  {
    hide First, Find, ForeignKeyName, UniqueName, CheckName, SameIndex, MovedIndex, Uniques, Checks, Indexes;
    var befores, afters := NamedForeignKeys(before), NamedForeignKeys(after);
    tail := [];
    for i := 0 to |afters|
      invariant tail == AddKeys(m, after.name, ForeignKeys(after)[..i], DropOrder(before))
    {
      assert ForeignKeys(after)[..i + 1][..i] == ForeignKeys(after)[..i];
      var key := afters[i];
      var prior := FindForeignKey(befores, key.name.value);
      ForeignKeyFound(before, key.name.value);
      if prior.None? || !SameForeignKey(prior.value.(columns := Moved(m, prior.value.columns)), key) {
        tail := tail + [AddKey(KeyName(KForeign, key.name.value), ForeignBodyOf(key))];
      }
    }
    assert ForeignKeys(after)[..|afters|] == ForeignKeys(after);
  }

  method AddIndexes(m: map<string, string>, before: Table, after: Table) returns (tail: seq<Statement>)
    ensures tail == AddKeys(m, after.name, Indexes(after), DropOrder(before))
  {
    hide First, Find, ForeignKeyName, UniqueName, CheckName, SameIndex, MovedIndex, ForeignKeys, Uniques, Checks;
    tail := [];
    for i := 0 to |after.indexes|
      invariant tail == AddKeys(m, after.name, Indexes(after)[..i], DropOrder(before))
    {
      assert Indexes(after)[..i + 1][..i] == Indexes(after)[..i];
      var index := after.indexes[i];
      var prior := FindIndex(before.indexes, index.name);
      IndexFound(before, index.name);
      if prior.Some? {
        IndexesCompare(m, prior.value, index);
      }
      if prior.None? || !SameIndex(MovedIndex(m, prior.value), index) {
        tail := tail + [CreateIndex(after.name, KeyName(KIndex, index.name), IndexBodyOf(index))];
      }
    }
    assert Indexes(after)[..|after.indexes|] == Indexes(after);
  }

  // The statements that turn `before` into `after`, in the order the designer shows them.
  method AlterTableSql(lengthTypes: set<string>, before: Table, after: Table) returns (statements: seq<Statement>)
    ensures statements == AlterStatements(lengthTypes, before, after)
  {
    hide DropKeys, AddKeys, ColumnChanges, AddColumns, DropColumns, Renames, ForeignKeys, Uniques, Checks, Indexes, FindColumn, Find;
    var renamed := RenamedColumns(before.columns, after.columns);

    // What is gone or changed comes off first.
    var foreignDrops := DropForeignKeys(renamed, before, after);
    var uniqueDrops := DropUniques(renamed, before, after);
    var checkDrops := DropChecks(renamed, before, after);
    var indexDrops := DropIndexes(renamed, before, after);
    var drops := foreignDrops + uniqueDrops + checkDrops + indexDrops;
    DropKeysAppend(renamed, ForeignKeys(before), Uniques(before), DropOrder(after));
    DropKeysAppend(renamed, ForeignKeys(before) + Uniques(before), Checks(before), DropOrder(after));
    DropKeysAppend(renamed, ForeignKeys(before) + Uniques(before) + Checks(before), Indexes(before), DropOrder(after));
    if |before.primaryKey| > 0 && Moved(renamed, before.primaryKey) != after.primaryKey {
      drops := drops + [DropPrimaryKey];
    }

    assert drops == Drops(before, after);

    var columnDrops := DroppedColumns(before.columns, after.columns);
    var columnChanges, adds := ChangedAndNewColumns(lengthTypes, before.columns, after.columns);

    // What was dropped comes back, and what is new is added, after the columns exist.
    var tail: seq<Statement> := [];
    if |after.primaryKey| > 0 && Moved(renamed, before.primaryKey) != after.primaryKey {
      tail := [AddPrimaryKey(after.primaryKey)];
    }
    var uniqueAdds := AddUniques(renamed, before, after);
    var checkAdds := AddChecks(renamed, before, after);
    var foreignAdds := AddForeignKeys(renamed, before, after);
    var indexAdds := AddIndexes(renamed, before, after);
    tail := tail + (uniqueAdds + checkAdds + foreignAdds + indexAdds);
    AddKeysAppend(renamed, after.name, Uniques(after), Checks(after), DropOrder(before));
    AddKeysAppend(renamed, after.name, Uniques(after) + Checks(after), ForeignKeys(after), DropOrder(before));
    AddKeysAppend(renamed, after.name, Uniques(after) + Checks(after) + ForeignKeys(after), Indexes(after), DropOrder(before));

    assert tail == Tail(before, after);

    var last: seq<Statement> := [];
    if before.comment.GetOr("") != after.comment.GetOr("") {
      last := [CommentTable(after.comment.GetOr(""))];
    }
    if before.name != after.name {
      last := last + [RenameTable(after.name)];
    }
    statements := drops + (columnDrops + columnChanges) + adds + tail + last;
  }

  /* ---------- What follows for callers ---------- */

  // No renamed or added column takes a name `before` already uses.
  predicate NoNameReused(before: Table, after: Table) {
    forall c :: c in after.columns && HasColumn(before.columns, c.name) ==>
      FindColumn(before.columns, c.id).Some? && FindColumn(before.columns, c.id).value.name == c.name
  }

  lemma {:induction false} RenamedOnlyIfMoved(lengthTypes: set<string>, before: seq<Column>, after: seq<Column>, n: string)
    ensures n in Renames(before, after) ==>
              exists c :: c in after && FindColumn(before, c.id).Some? && FindColumn(before, c.id).value.name == n
                          && c.name == Renames(before, after)[n]
  {
    if after != [] {
      RenamedOnlyIfMoved(lengthTypes, before, after[..|after| - 1], n);
      if n in Renames(before, after[..|after| - 1]) {
        var c :| c in after[..|after| - 1] && FindColumn(before, c.id).Some? && FindColumn(before, c.id).value.name == n
          && c.name == Renames(before, after[..|after| - 1])[n];
        assert c in after;
      }
      assert after[|after| - 1] in after;
    }
  }

  lemma {:induction false} DroppedKeepsNoName(before: Table, after: Table, c: Column, names: seq<string>)
    requires Valid(before) && Valid(after) && NoNameReused(before, after)
    requires c in before.columns && FindColumn(after.columns, c.id).None?
    requires KnownColumns(after.columns, Moved(Renames(before.columns, after.columns), names))
    ensures c.name !in names
  {
    var m := Renames(before.columns, after.columns);
    if i :| 0 <= i < |names| && names[i] == c.name {
      var bi :| 0 <= bi < |before.columns| && before.columns[bi] == c;
      RenamedOnlyIfMoved({}, before.columns, after.columns, c.name);
      assert c.name !in m;
      assert Moved(m, names)[i] == c.name;
      assert HasColumn(after.columns, Moved(m, names)[i]);
      var j :| 0 <= j < |after.columns| && after.columns[j].name == c.name;
      var d := after.columns[j];
      assert d in after.columns && HasColumn(before.columns, d.name);
      OneColumn(before.columns, FindColumn(before.columns, d.id).value, c);
    }
  }

  // A script that keeps the table's name and reuses no column name always works.
  lemma {:induction false} AlterWithoutReuse(lengthTypes: set<string>, before: Table, after: Table)
    requires Valid(before) && Valid(after) && before.name == after.name && NoNameReused(before, after)
    ensures Exec(SchemaOf(lengthTypes, before), AlterStatements(lengthTypes, before, after)) == Some(SchemaOf(lengthTypes, after))
  {
    AlterReachesAfter(lengthTypes, before, after);
    var m := Renames(before.columns, after.columns);
    forall c | c in before.columns && FindColumn(after.columns, c.id).None?
      ensures PrimaryKept(m, before, after) ==> c.name !in before.primaryKey
      ensures forall k :: k in DropOrder(before) && Survives(m, k, DropOrder(after)) ==> c.name !in k.body.columns
    {
      if PrimaryKept(m, before, after) {
        DroppedKeepsNoName(before, after, c, before.primaryKey);
      }
      forall k | k in DropOrder(before) && Survives(m, k, DropOrder(after)) ensures c.name !in k.body.columns {
        assert Key(k.key, MovedBody(m, k.body)) in DropOrder(after);
        DroppedKeepsNoName(before, after, c, k.body.columns);
      }
    }
    FreeWithoutReuse(lengthTypes, before, after);
  }

  lemma {:induction false} FreeWithoutReuse(lengthTypes: set<string>, before: Table, after: Table)
    requires Valid(before) && Valid(after) && NoNameReused(before, after)
    ensures Free(Moves(lengthTypes, before.columns, after.columns))
  {
    var moves := Moves(lengthTypes, before.columns, after.columns);
    forall i, j | 0 <= i < j < |moves| ensures !Blocked(moves, i, j) {
      var c := MoveHasColumn(lengthTypes, before.columns, after.columns, moves[i]);
      var d := MoveHasColumn(lengthTypes, before.columns, after.columns, moves[j]);
      var prior := FindColumn(before.columns, d.id).value;
      var bj :| 0 <= bj < |before.columns| && before.columns[bj] == prior;
      if c.name == prior.name {
        assert HasColumn(before.columns, c.name);
      }
    }
  }

  // Two tables one after the other: the second script undoes the first.
  lemma {:induction false} AlterThereAndBack(lengthTypes: set<string>, before: Table, after: Table)
    requires Valid(before) && Valid(after) && before.name == after.name
    requires NoNameReused(before, after) && NoNameReused(after, before)
    ensures Exec(SchemaOf(lengthTypes, before),
                 AlterStatements(lengthTypes, before, after) + AlterStatements(lengthTypes, after, before))
            == Some(SchemaOf(lengthTypes, before))
  {
    AlterWithoutReuse(lengthTypes, before, after);
    AlterWithoutReuse(lengthTypes, after, before);
    ExecAppend(SchemaOf(lengthTypes, before), AlterStatements(lengthTypes, before, after),
               AlterStatements(lengthTypes, after, before));
  }

  /* ---------- Designs whose script the server refuses ---------- */

  function Plain(id: string, name: string): Column {
    Column(id, name, "int", None, false, true, None, false, None, None)
  }

  function Simple(name: string, columns: seq<Column>, uniques: seq<Unique>, indexes: seq<Index>): Table {
    Table(name, columns, [], [], uniques, [], indexes, None)
  }

  function SwapBefore(): Table {
    Simple("t", [Plain("1", "a"), Plain("2", "b")], [], [])
  }

  function SwapAfter(): Table {
    Simple("t", [Plain("1", "b"), Plain("2", "a")], [], [])
  }

  lemma SwapIsValid()
    ensures Valid(SwapBefore()) && Valid(SwapAfter())
  {
    hide ForeignKeyName, UniqueName, CheckName, Clash;
    assert DropOrder(SwapBefore()) == [] && DropOrder(SwapAfter()) == [];
  }

  lemma TwoMoves(lengthTypes: set<string>, before: seq<Column>, after: seq<Column>)
    requires |after| == 2 && FindColumn(before, after[0].id).Some? && FindColumn(before, after[1].id).Some?
    ensures Moves(lengthTypes, before, after) ==
            [MoveOf(lengthTypes, FindColumn(before, after[0].id).value, after[0]),
             MoveOf(lengthTypes, FindColumn(before, after[1].id).value, after[1])]
  {
    assert after[..1] == [after[0]] && [after[0]][..0] == [];
    assert Moves(lengthTypes, before, [after[0]]) == [MoveOf(lengthTypes, FindColumn(before, after[0].id).value, after[0])];
  }

  lemma SwapIsBlocked(lengthTypes: set<string>)
    ensures !Free(Moves(lengthTypes, SwapBefore().columns, SwapAfter().columns))
  {
    hide DefinitionOf, SameColumn;
    var moves := Moves(lengthTypes, SwapBefore().columns, SwapAfter().columns);
    assert FindColumn(SwapBefore().columns, "2") == Some(Plain("2", "b"));
    assert FindColumn(SwapBefore().columns[..1], "1") == Some(Plain("1", "a"));
    TwoMoves(lengthTypes, SwapBefore().columns, SwapAfter().columns);
    assert Blocked(moves, 0, 1);
  }

  // Two columns that swap their names: the first CHANGE COLUMN finds its new name taken.
  lemma SwappedNamesRefused(lengthTypes: set<string>)
    ensures Exec(SchemaOf(lengthTypes, SwapBefore()), AlterStatements(lengthTypes, SwapBefore(), SwapAfter())) == None
  {
    hide Exec, AlterStatements, SchemaOf, Valid, Moves;
    SwapIsValid();
    SwapIsBlocked(lengthTypes);
    AlterReachesAfter(lengthTypes, SwapBefore(), SwapAfter());
  }

  function ReuseBefore(): Table {
    Simple("t", [Plain("1", "a"), Plain("2", "b")], [Unique(Some("u"), ["a"])], [])
  }

  function ReuseAfter(): Table {
    Simple("t", [Plain("2", "a")], [Unique(Some("u"), ["a"])], [])
  }

  lemma ReuseIsValid()
    ensures Valid(ReuseBefore()) && Valid(ReuseAfter())
    ensures DropOrder(ReuseBefore()) == DropOrder(ReuseAfter()) == [Key(KeyName(KUnique, "u"), Body(["a"], UniqueFacts))]
  {
    hide AutoName, ForeignKeyName, CheckName, Clash;
    assert ReuseBefore().columns[0].name == "a" && ReuseAfter().columns[0].name == "a";
    assert HasColumn(ReuseBefore().columns, "a") && HasColumn(ReuseAfter().columns, "a");
    var key := Key(KeyName(KUnique, "u"), Body(["a"], UniqueFacts));
    assert Uniques(ReuseBefore()) == [key] && Uniques(ReuseAfter()) == [key];
    assert DropOrder(ReuseBefore()) == [key] && DropOrder(ReuseAfter()) == [key];
  }

  lemma ReuseRenames()
    ensures Renames(ReuseBefore().columns, ReuseAfter().columns) == map["b" := "a"]
  {
    var after := ReuseAfter().columns;
    assert after[..0] == [];
    assert FindColumn(ReuseBefore().columns, "2") == Some(Plain("2", "b"));
  }

  lemma NotKept(before: Table, after: Table, c: Column, k: Key)
    requires c in before.columns && FindColumn(after.columns, c.id).None?
    requires k in DropOrder(before) && c.name in k.body.columns
    requires Survives(Renames(before.columns, after.columns), k, DropOrder(after))
    ensures !KeptKeysKeepColumns(before, after)
  {
  }

  // A column takes the name of a dropped one that a unique key named: the key looks unchanged,
  // so it is still there when its column should go.
  lemma ReusedNameRefused(lengthTypes: set<string>)
    ensures Exec(SchemaOf(lengthTypes, ReuseBefore()), AlterStatements(lengthTypes, ReuseBefore(), ReuseAfter())) == None
  {
    hide Exec, AlterStatements, SchemaOf, Valid, Uniques, DropOrder;
    ReuseIsValid();
    ReuseRenames();
    var k := Key(KeyName(KUnique, "u"), Body(["a"], UniqueFacts));
    assert MovedBody(map["b" := "a"], k.body) == k.body by {
      assert Moved(map["b" := "a"], ["a"]) == ["a"];
    }
    FindOnly([k], k);
    assert Plain("1", "a") in ReuseBefore().columns && FindColumn(ReuseAfter().columns, "1").None?;
    NotKept(ReuseBefore(), ReuseAfter(), Plain("1", "a"), k);
    AlterReachesAfter(lengthTypes, ReuseBefore(), ReuseAfter());
  }

  function RenameBefore(): Table {
    Simple("t", [Plain("1", "a")], [], [])
  }

  function RenameAfter(): Table {
    Simple("u", [Plain("1", "a")], [], [Index("i", [IndexColumn("a", None)], false, None, None)])
  }

  lemma RenameIsValid()
    ensures Valid(RenameBefore()) && Valid(RenameAfter())
    ensures DropOrder(RenameBefore()) == [] && |Indexes(RenameAfter())| == 1
  {
    hide ForeignKeyName, UniqueName, CheckName, Clash;
    assert RenameAfter().columns[0].name == "a";
    assert HasColumn(RenameAfter().columns, "a");
    assert DropOrder(RenameBefore()) == [];
    assert DropOrder(RenameAfter()) == [Key(KeyName(KIndex, "i"), IndexBodyOf(RenameAfter().indexes[0]))];
    assert IndexBodyOf(RenameAfter().indexes[0]).columns == ["a"];
  }

  // A new index in the script that renames the table is created on a name that does not exist yet.
  lemma IndexOnRenamedTableRefused(lengthTypes: set<string>)
    ensures Exec(SchemaOf(lengthTypes, RenameBefore()), AlterStatements(lengthTypes, RenameBefore(), RenameAfter())) == None
  {
    hide Exec, AlterStatements, SchemaOf, Valid, Indexes;
    RenameIsValid();
    AlterReachesAfter(lengthTypes, RenameBefore(), RenameAfter());
    assert Indexes(RenameAfter())[0] in Indexes(RenameAfter());
    assert !IndexesFindTable(RenameBefore(), RenameAfter());
  }
}
