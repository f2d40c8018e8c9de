/**
 The statements that turn one design into another, and the proof of exactly when running them on
 the table made from the first design gives the table of the second.
 */
module AlterTable {
  import opened Wrappers
  import opened TableDesign

  /* ---------- The statements, as functions of the two designs ---------- */

  // Old name -> new name, for the columns kept under another name.
  function Renames(before: seq<Column>, after: seq<Column>): map<string, string> {
    if |after| == 0 then map[]
    else
      var m := Renames(before, after[..|after| - 1]);
      var c := after[|after| - 1];
      match FindColumn(before, c.id)
      case None => m
      case Some(prior) => if prior.name != c.name then m[prior.name := c.name] else m
  }

  function Current(m: map<string, string>, name: string): string {
    if name in m then m[name] else name
  }

  function Moved(m: map<string, string>, names: seq<string>): seq<string> {
    seq(|names|, i requires 0 <= i < |names| => Current(m, names[i]))
  }

  function MovedBody(m: map<string, string>, b: Body): Body {
    b.(columns := Moved(m, b.columns))
  }

  predicate Survives(m: map<string, string>, prior: Key, afters: seq<Key>) {
    Find(afters, prior.key) == Some(MovedBody(m, prior.body))
  }

  predicate Settled(m: map<string, string>, wanted: Key, befores: seq<Key>) {
    var prior := Find(befores, wanted.key);
    prior.Some? && MovedBody(m, prior.value) == wanted.body
  }

  function DropKeys(m: map<string, string>, befores: seq<Key>, afters: seq<Key>): seq<Statement> {
    if |befores| == 0 then []
    else
      var k := befores[|befores| - 1];
      DropKeys(m, befores[..|befores| - 1], afters) + (if Survives(m, k, afters) then [] else [DropKey(k.key)])
  }

  function AddStatement(table: string, k: Key): Statement {
    if k.key.kind == KIndex then CreateIndex(table, k.key, k.body) else AddKey(k.key, k.body)
  }

  function AddKeys(m: map<string, string>, table: string, afters: seq<Key>, befores: seq<Key>): seq<Statement> {
    if |afters| == 0 then []
    else
      var k := afters[|afters| - 1];
      AddKeys(m, table, afters[..|afters| - 1], befores)
      + (if Settled(m, k, befores) then [] else [AddStatement(table, k)])
  }

  predicate PrimaryKept(m: map<string, string>, before: Table, after: Table) {
    Moved(m, before.primaryKey) == after.primaryKey
  }

  function DropPrimary(m: map<string, string>, before: Table, after: Table): seq<Statement> {
    if before.primaryKey != [] && !PrimaryKept(m, before, after) then [DropPrimaryKey] else []
  }

  function AddPrimary(m: map<string, string>, before: Table, after: Table): seq<Statement> {
    if after.primaryKey != [] && !PrimaryKept(m, before, after) then [AddPrimaryKey(after.primaryKey)] else []
  }

  function DropColumns(before: seq<Column>, after: seq<Column>): seq<Statement> {
    if |before| == 0 then []
    else
      var c := before[|before| - 1];
      DropColumns(before[..|before| - 1], after) + (if FindColumn(after, c.id).Some? then [] else [DropColumn(c.name)])
  }

  function ColumnChange(lengthTypes: set<string>, before: seq<Column>, c: Column): seq<Statement> {
    match FindColumn(before, c.id)
    case None => []
    case Some(prior) =>
      if prior.name != c.name then [ChangeColumn(prior.name, c.name, DefinitionOf(lengthTypes, c))]
      else if SameColumn(prior, c) then []
      else [ModifyColumn(c.name, DefinitionOf(lengthTypes, c))]
  }

  function ColumnChanges(lengthTypes: set<string>, before: seq<Column>, after: seq<Column>): seq<Statement> {
    if |after| == 0 then []
    else ColumnChanges(lengthTypes, before, after[..|after| - 1]) + ColumnChange(lengthTypes, before, after[|after| - 1])
  }

  function AddColumns(lengthTypes: set<string>, before: seq<Column>, after: seq<Column>): seq<Statement> {
    if |after| == 0 then []
    else
      var c := after[|after| - 1];
      AddColumns(lengthTypes, before, after[..|after| - 1])
      + (if FindColumn(before, c.id).Some? then [] else [AddColumn(c.name, DefinitionOf(lengthTypes, c))])
  }

  function Drops(before: Table, after: Table): seq<Statement> {
    var m := Renames(before.columns, after.columns);
    DropKeys(m, DropOrder(before), DropOrder(after)) + DropPrimary(m, before, after)
  }

  function Tail(before: Table, after: Table): seq<Statement> {
    var m := Renames(before.columns, after.columns);
    AddPrimary(m, before, after) + AddKeys(m, after.name, AddOrder(after), DropOrder(before))
  }

  function Last(before: Table, after: Table): seq<Statement> {
    (if before.comment.GetOr("") != after.comment.GetOr("") then [CommentTable(after.comment.GetOr(""))] else [])
    + (if before.name != after.name then [RenameTable(after.name)] else [])
  }

  function AlterStatements(lengthTypes: set<string>, before: Table, after: Table): seq<Statement> {
    Drops(before, after)
    + (DropColumns(before.columns, after.columns) + ColumnChanges(lengthTypes, before.columns, after.columns))
    + AddColumns(lengthTypes, before.columns, after.columns)
    + Tail(before, after)
    + Last(before, after)
  }

  /* ---------- Which designs, and when the script works ---------- */

  predicate DistinctColumns(columns: seq<Column>) {
    forall i, j :: 0 <= i < j < |columns| ==> columns[i].name != columns[j].name && columns[i].id != columns[j].id
  }

  predicate HasColumn(columns: seq<Column>, name: string) {
    exists i :: 0 <= i < |columns| && columns[i].name == name
  }

  predicate NoClash(keys: seq<Key>) {
    forall i, j :: 0 <= i < j < |keys| ==> !Clash(keys[i].key, keys[j].key)
  }

  predicate KnownColumns(columns: seq<Column>, names: seq<string>) {
    forall n :: n in names ==> HasColumn(columns, n)
  }

  // What `validateDesign` asks of a design, and what the server asks of its names.
  predicate Valid(t: Table) {
    && DistinctColumns(t.columns)
    && KnownColumns(t.columns, t.primaryKey)
    && NoClash(DropOrder(t))
    && (forall k :: k in DropOrder(t) ==> KnownColumns(t.columns, k.body.columns))
    && (forall c :: c in t.columns && c.generated.Some? ==> c.generated.value.expression != "")
  }

  // No key that stays names a column that is dropped.
  predicate KeptKeysKeepColumns(before: Table, after: Table) {
    var m := Renames(before.columns, after.columns);
    forall c :: c in before.columns && FindColumn(after.columns, c.id).None? ==>
      && (PrimaryKept(m, before, after) ==> c.name !in before.primaryKey)
      && forall k :: k in DropOrder(before) && Survives(m, k, DropOrder(after)) ==> c.name !in k.body.columns
  }

  // No index is created in the same script as the table is renamed.
  predicate IndexesFindTable(before: Table, after: Table) {
    var m := Renames(before.columns, after.columns);
    before.name == after.name || forall k :: k in Indexes(after) ==> Settled(m, k, DropOrder(before))
  }

  /* ---------- Running scripts ---------- */

  function Then(s: Option<Schema>, script: seq<Statement>): Option<Schema> {
    if s.None? then None else Exec(s.value, script)
  }

  lemma {:induction false} ExecAppend(s: Schema, a: seq<Statement>, b: seq<Statement>)
    ensures Exec(s, a + b) == Then(Exec(s, a), b)
    decreases |b|
  {
    hide Step;
    if b == [] {
      assert a + b == a;
    } else {
      var n := |b| - 1;
      ExecAppend(s, a, b[..n]);
      assert (a + b)[..|a + b| - 1] == a + b[..n];
    }
  }

  // What one more statement does after a script that ran.
  lemma {:induction false} ExecSnoc(s: Schema, a: seq<Statement>, x: Statement)
    requires Exec(s, a).Some?
    ensures Exec(s, a + [x]) == Step(Exec(s, a).value, x)
  {
    assert (a + [x])[..|a + [x]| - 1] == a;
  }

  lemma {:induction false} ExecOne(s: Schema, x: Statement)
    ensures Exec(s, [x]) == Step(s, x)
  {
    ExecSnoc(s, [], x);
    assert [] + [x] == [x];
  }

  /* ---------- Keys come off ---------- */

  function Gone(m: map<string, string>, befores: seq<Key>, afters: seq<Key>): set<KeyName> {
    set i | 0 <= i < |befores| && !Survives(m, befores[i], afters) :: befores[i].key
  }

  lemma {:induction false} GoneStep(m: map<string, string>, befores: seq<Key>, afters: seq<Key>)
    requires NoClash(befores) && befores != []
    ensures var n := |befores| - 1;
            var init := Gone(m, befores[..n], afters);
            && befores[n].key !in init
            && Gone(m, befores, afters) == if Survives(m, befores[n], afters) then init else init + {befores[n].key}
  {
    var n := |befores| - 1;
    var k, init := befores[n], befores[..n];
    forall x | x in Gone(m, befores, afters) && x != k.key ensures x in Gone(m, init, afters) {
      var i :| 0 <= i < |befores| && !Survives(m, befores[i], afters) && befores[i].key == x;
      assert init[i] == befores[i];
    }
    forall x | x in Gone(m, init, afters) ensures x in Gone(m, befores, afters) {
      var i :| 0 <= i < |init| && !Survives(m, init[i], afters) && init[i].key == x;
      assert init[i] == befores[i];
    }
  }

  lemma {:induction false} ExecDropKeys(s: Schema, m: map<string, string>, befores: seq<Key>, afters: seq<Key>)
    requires NoClash(befores)
    requires forall i :: 0 <= i < |befores| ==> befores[i].key in s.keys
    ensures Exec(s, DropKeys(m, befores, afters)) == Some(s.(keys := s.keys - Gone(m, befores, afters)))
  {
    if befores == [] {
      assert s.keys - Gone(m, befores, afters) == s.keys;
    } else {
      var n := |befores| - 1;
      var k, init := befores[n], befores[..n];
      ExecDropKeys(s, m, init, afters);
      GoneStep(m, befores, afters);
      if Survives(m, k, afters) {
        assert DropKeys(m, befores, afters) == DropKeys(m, init, afters);
      } else {
        ExecSnoc(s, DropKeys(m, init, afters), DropKey(k.key));
        assert s.keys - Gone(m, init, afters) - {k.key} == s.keys - Gone(m, befores, afters);
      }
    }
  }

  lemma InKeyMap(keys: seq<Key>)
    ensures forall i :: 0 <= i < |keys| ==> keys[i].key in KeyMap(keys)
    ensures forall k :: k in KeyMap(keys) ==> Key(k, KeyMap(keys)[k]) in keys
  {
    forall i | 0 <= i < |keys| ensures keys[i].key in KeyMap(keys) {
      assert keys[i] in keys;
      assert Find(keys, keys[i].key).Some?;
    }
  }

  lemma {:induction false} SameKeySameBody(keys: seq<Key>, a: Key, b: Key)
    requires NoClash(keys) && a in keys && b in keys && Clash(a.key, b.key)
    ensures a == b
  {
    var i :| 0 <= i < |keys| && keys[i] == a;
    var j :| 0 <= j < |keys| && keys[j] == b;
    assert Clash(keys[j].key, keys[i].key);
  }

  // After the drops: the schema as `before` made it, with the changed keys gone.
  function Stripped(lengthTypes: set<string>, before: Table, after: Table): Schema {
    var m := Renames(before.columns, after.columns);
    var s := SchemaOf(lengthTypes, before);
    s.(keys := s.keys - Gone(m, DropOrder(before), DropOrder(after)),
       primaryKey := if PrimaryKept(m, before, after) then s.primaryKey else [])
  }

  lemma {:induction false} ExecDrops(lengthTypes: set<string>, before: Table, after: Table)
    requires Valid(before)
    ensures Exec(SchemaOf(lengthTypes, before), Drops(before, after)) == Some(Stripped(lengthTypes, before, after))
  {
    hide DropKeys, Renames, Find, FindColumn, ColumnMap, ForeignKeys, Uniques, Checks, Indexes;
    var m := Renames(before.columns, after.columns);
    var s := SchemaOf(lengthTypes, before);
    var keys := DropOrder(before);
    InKeyMap(keys);
    ExecDropKeys(s, m, keys, DropOrder(after));
    var t := s.(keys := s.keys - Gone(m, keys, DropOrder(after)));
    var drops := DropKeys(m, keys, DropOrder(after));
    if DropPrimary(m, before, after) == [] {
      assert drops + [] == drops;
    } else {
      ExecSnoc(s, drops, DropPrimaryKey);
    }
  }

  lemma {:induction false} StrippedKeys(lengthTypes: set<string>, before: Table, after: Table, k: KeyName)
    requires Valid(before) && k in Stripped(lengthTypes, before, after).keys
    ensures var m := Renames(before.columns, after.columns);
            var key := Key(k, Stripped(lengthTypes, before, after).keys[k]);
            key in DropOrder(before) && Survives(m, key, DropOrder(after))
  {
    var keys := DropOrder(before);
    InKeyMap(keys);
    var key := Key(k, KeyMap(keys)[k]);
    assert key in keys;
    var i :| 0 <= i < |keys| && keys[i] == key;
  }

  lemma {:induction false} SurvivorsStay(lengthTypes: set<string>, before: Table, after: Table, key: Key)
    requires Valid(before) && key in DropOrder(before)
    requires Survives(Renames(before.columns, after.columns), key, DropOrder(after))
    ensures key.key in Stripped(lengthTypes, before, after).keys
    ensures Stripped(lengthTypes, before, after).keys[key.key] == key.body
  {
    var keys := DropOrder(before);
    var m := Renames(before.columns, after.columns);
    InKeyMap(keys);
    assert Key(key.key, KeyMap(keys)[key.key]) in keys;
    SameKeySameBody(keys, Key(key.key, KeyMap(keys)[key.key]), key);
    if key.key in Gone(m, keys, DropOrder(after)) {
      var i :| 0 <= i < |keys| && !Survives(m, keys[i], DropOrder(after)) && keys[i].key == key.key;
      SameKeySameBody(keys, keys[i], key);
    }
  }

  /* ---------- Columns are dropped ---------- */

  function Dropped(before: seq<Column>, after: seq<Column>): set<string> {
    set i | 0 <= i < |before| && FindColumn(after, before[i].id).None? :: before[i].name
  }

  lemma DroppedStep(before: seq<Column>, after: seq<Column>)
    requires DistinctColumns(before) && before != []
    ensures var n := |before| - 1;
            var init := Dropped(before[..n], after);
            && before[n].name !in init
            && Dropped(before, after) == if FindColumn(after, before[n].id).Some? then init else init + {before[n].name}
  {
    var n := |before| - 1;
    forall x | x in Dropped(before, after) && x != before[n].name ensures x in Dropped(before[..n], after) {
      var i :| 0 <= i < |before| && FindColumn(after, before[i].id).None? && before[i].name == x;
      assert before[..n][i] == before[i];
    }
    forall x | x in Dropped(before[..n], after) ensures x in Dropped(before, after) {
      var i :| 0 <= i < n && FindColumn(after, before[..n][i].id).None? && before[..n][i].name == x;
      assert before[..n][i] == before[i];
    }
  }

  lemma DropOne(s: Schema, gone: set<string>, n: string)
    requires n in s.columns && n !in gone
    ensures Step(s.(columns := s.columns - gone), DropColumn(n)) ==
            if Named(s, n) then None else Some(s.(columns := s.columns - (gone + {n})))
  {
    assert s.columns - gone - {n} == s.columns - (gone + {n});
  }

  // The server takes every drop exactly when no key that is left names a dropped column.
  lemma {:induction false} ExecDropColumns(s: Schema, before: seq<Column>, after: seq<Column>)
    requires DistinctColumns(before)
    requires forall i :: 0 <= i < |before| ==> before[i].name in s.columns
    ensures Exec(s, DropColumns(before, after)) ==
            if exists n :: n in Dropped(before, after) && Named(s, n) then None
            else Some(s.(columns := s.columns - Dropped(before, after)))
  {
    hide Exec, Step, Named, FindColumn;
    if before == [] {
      assert s.columns - Dropped(before, after) == s.columns;
      ExecNothing(s);
    } else {
      var n := |before| - 1;
      var c, init := before[n], before[..n];
      ExecDropColumns(s, init, after);
      DroppedStep(before, after);
      hide Dropped;
      if FindColumn(after, c.id).Some? {
        assert DropColumns(before, after) == DropColumns(init, after);
      } else if Exec(s, DropColumns(init, after)).Some? {
        ExecSnoc(s, DropColumns(init, after), DropColumn(c.name));
        DropOne(s, Dropped(init, after), c.name);
      } else {
        ExecAppend(s, DropColumns(init, after), [DropColumn(c.name)]);
      }
    }
  }

  lemma ExecNothing(s: Schema)
    ensures Exec(s, []) == Some(s)
  {
  }

  /* ---------- Columns change ---------- */

  // A column both designs have: its name and definition before and after, and whether the
  // comparison found it changed.
  datatype Move = Move(from: string, to: string, prior: Definition, wanted: Definition, changed: bool)

  function MoveOf(lengthTypes: set<string>, prior: Column, c: Column): Move {
    Move(prior.name, c.name, DefinitionOf(lengthTypes, prior), DefinitionOf(lengthTypes, c), !SameColumn(prior, c))
  }

  function Moves(lengthTypes: set<string>, before: seq<Column>, after: seq<Column>): seq<Move> {
    if |after| == 0 then []
    else
      var init, c := Moves(lengthTypes, before, after[..|after| - 1]), after[|after| - 1];
      match FindColumn(before, c.id)
      case None => init
      case Some(prior) => init + [MoveOf(lengthTypes, prior, c)]
  }

  function MoveStatement(v: Move): seq<Statement> {
    if v.from != v.to then [ChangeColumn(v.from, v.to, v.wanted)]
    else if v.changed then [ModifyColumn(v.to, v.wanted)]
    else []
  }

  function MoveStatements(moves: seq<Move>): seq<Statement> {
    if |moves| == 0 then []
    else MoveStatements(moves[..|moves| - 1]) + MoveStatement(moves[|moves| - 1])
  }

  function MoveMap(moves: seq<Move>): map<string, string> {
    if |moves| == 0 then map[]
    else
      var m, v := MoveMap(moves[..|moves| - 1]), moves[|moves| - 1];
      if v.from != v.to then m[v.from := v.to] else m
  }

  // Names are distinct on each side, and what the comparison calls the same is the same.
  predicate GoodMoves(moves: seq<Move>) {
    && (forall i, j :: 0 <= i < j < |moves| ==> moves[i].from != moves[j].from && moves[i].to != moves[j].to)
    && (forall i :: 0 <= i < |moves| && !moves[i].changed ==> moves[i].prior == moves[i].wanted)
  }

  // Move `i` would take a name that move `j`, not yet made, still holds.
  predicate Blocked(moves: seq<Move>, i: nat, j: nat)
    requires i < |moves| && j < |moves|
  {
    i < j && moves[i].from != moves[i].to && moves[i].to == moves[j].from
  }

  predicate Free(moves: seq<Move>) {
    forall i, j :: 0 <= i < j < |moves| ==> !Blocked(moves, i, j)
  }

  // The names and the definitions once the first `i` moves are made.
  predicate Done(columns: map<string, Definition>, moves: seq<Move>, i: nat)
    requires i <= |moves|
  {
    forall j :: 0 <= j < i ==> moves[j].to in columns && columns[moves[j].to] == moves[j].wanted
  }

  predicate Waiting(columns: map<string, Definition>, moves: seq<Move>, i: nat)
    requires i <= |moves|
  {
    forall j :: i <= j < |moves| ==> moves[j].from in columns && columns[moves[j].from] == moves[j].prior
  }

  function NamesAt(moves: seq<Move>, i: nat): set<string>
    requires i <= |moves|
  {
    (set j | 0 <= j < i :: moves[j].to) + (set j | i <= j < |moves| :: moves[j].from)
  }

  predicate ColumnsAt(columns: map<string, Definition>, moves: seq<Move>, i: nat)
    requires i <= |moves|
  {
    Done(columns, moves, i) && Waiting(columns, moves, i) && columns.Keys == NamesAt(moves, i)
  }

  function Moving(columns: map<string, Definition>, v: Move): map<string, Definition> {
    (columns - {v.from})[v.to := v.wanted]
  }

  predicate Open(moves: seq<Move>, i: nat)
    requires i < |moves|
  {
    (forall j :: i < j < |moves| ==> !Blocked(moves, i, j)) && (forall j :: 0 <= j < i ==> !Blocked(moves, j, i))
  }

  lemma DoneNext(columns: map<string, Definition>, moves: seq<Move>, i: nat)
    requires i < |moves| && GoodMoves(moves) && Done(columns, moves, i) && Open(moves, i)
    ensures Done(Moving(columns, moves[i]), moves, i + 1)
  {
    var t := Moving(columns, moves[i]);
    forall j | 0 <= j < i + 1 ensures moves[j].to in t && t[moves[j].to] == moves[j].wanted {
      if j < i {
        assert !Blocked(moves, j, i);
      }
    }
  }

  lemma WaitingNext(columns: map<string, Definition>, moves: seq<Move>, i: nat)
    requires i < |moves| && GoodMoves(moves) && Waiting(columns, moves, i) && Open(moves, i)
    ensures Waiting(Moving(columns, moves[i]), moves, i + 1)
  {
    var t := Moving(columns, moves[i]);
    forall j | i + 1 <= j < |moves| ensures moves[j].from in t && t[moves[j].from] == moves[j].prior {
      assert !Blocked(moves, i, j);
    }
  }

  lemma InNames(moves: seq<Move>, i: nat, n: string)
    requires i <= |moves|
    ensures n in NamesAt(moves, i) <==>
            (exists j :: 0 <= j < i && moves[j].to == n) || (exists j :: i <= j < |moves| && moves[j].from == n)
  {
  }

  lemma NamesNext(moves: seq<Move>, i: nat)
    requires i < |moves| && GoodMoves(moves) && Open(moves, i)
    ensures NamesAt(moves, i + 1) == NamesAt(moves, i) - {moves[i].from} + {moves[i].to}
  {
    hide NamesAt;
    forall n ensures n in NamesAt(moves, i + 1) <==> n in NamesAt(moves, i) - {moves[i].from} + {moves[i].to} {
      InNames(moves, i, n);
      InNames(moves, i + 1, n);
      OneName(moves, i, n);
    }
  }

  lemma OneName(moves: seq<Move>, i: nat, n: string)
    requires i < |moves| && GoodMoves(moves) && Open(moves, i)
    ensures (exists j :: 0 <= j < i + 1 && moves[j].to == n) || (exists j :: i + 1 <= j < |moves| && moves[j].from == n) <==>
            n == moves[i].to
            || (n != moves[i].from
                && ((exists j :: 0 <= j < i && moves[j].to == n) || (exists j :: i <= j < |moves| && moves[j].from == n)))
  {
    if n != moves[i].to {
      if j :| 0 <= j < i + 1 && moves[j].to == n {
        assert j < i && !Blocked(moves, j, i);
      } else if j :| i + 1 <= j < |moves| && moves[j].from == n {
        assert moves[j].from != moves[i].from;
      }
    } else {
      assert moves[i].to == n;
    }
  }

  lemma {:induction false} MoveMapHolds(moves: seq<Move>, i: nat, x: string)
    requires i <= |moves|
    ensures x in MoveMap(moves[..i]) ==>
              exists j :: 0 <= j < i && moves[j].from == x && moves[j].to == MoveMap(moves[..i])[x] && moves[j].to != x
    ensures (exists j :: 0 <= j < i && moves[j].from == x && moves[j].to != x) ==> x in MoveMap(moves[..i])
  {
    if i > 0 {
      assert moves[..i][..i - 1] == moves[..i - 1];
      MoveMapHolds(moves, i - 1, x);
      assert moves[..i][i - 1] == moves[i - 1];
    }
  }

  // Renaming step by step is renaming all at once.
  lemma {:induction false} MovedNext(moves: seq<Move>, i: nat, names: seq<string>)
    requires i < |moves| && GoodMoves(moves) && Open(moves, i)
    ensures Moved(MoveMap(moves[..i + 1]), names) ==
            RenameIn(moves[i].from, moves[i].to, Moved(MoveMap(moves[..i]), names))
  {
    var m, v := MoveMap(moves[..i]), moves[i];
    assert moves[..i + 1][..i] == moves[..i];
    forall k | 0 <= k < |names|
      ensures Current(MoveMap(moves[..i + 1]), names[k]) ==
              if Current(m, names[k]) == v.from then v.to else Current(m, names[k])
    {
      var x := names[k];
      MoveMapHolds(moves, i, x);
      if x in m {
        var j :| 0 <= j < i && moves[j].from == x && moves[j].to == m[x] && moves[j].to != x;
        assert !Blocked(moves, j, i);
      }
    }
  }

  function Renamed(s: Schema, m: map<string, string>): Schema {
    s.(primaryKey := Moved(m, s.primaryKey), keys := map k | k in s.keys :: MovedBody(m, s.keys[k]))
  }

  lemma {:induction false} RenamedNext(s: Schema, moves: seq<Move>, i: nat)
    requires i < |moves| && GoodMoves(moves) && Open(moves, i)
    ensures var t, u, v := Renamed(s, MoveMap(moves[..i])), Renamed(s, MoveMap(moves[..i + 1])), moves[i];
            && u.primaryKey == RenameIn(v.from, v.to, t.primaryKey)
            && u.keys == map k | k in t.keys :: t.keys[k].(columns := RenameIn(v.from, v.to, t.keys[k].columns))
  {
    MovedNext(moves, i, s.primaryKey);
    forall k | k in s.keys
      ensures MovedBody(MoveMap(moves[..i + 1]), s.keys[k]).columns ==
              RenameIn(moves[i].from, moves[i].to, MovedBody(MoveMap(moves[..i]), s.keys[k]).columns)
    {
      MovedNext(moves, i, s.keys[k].columns);
    }
  }

  lemma RenameNothing(n: string, names: seq<string>)
    ensures RenameIn(n, n, names) == names
  {
  }

  lemma {:induction false} ExecMove(s: Schema, moves: seq<Move>, i: nat)
    requires i < |moves| && GoodMoves(moves) && ColumnsAt(s.columns, moves, i) && Open(moves, i)
    ensures var v := moves[i];
            Exec(s, MoveStatement(v)) ==
            Some(s.(columns := Moving(s.columns, v),
                    primaryKey := RenameIn(v.from, v.to, s.primaryKey),
                    keys := map k | k in s.keys :: s.keys[k].(columns := RenameIn(v.from, v.to, s.keys[k].columns))))
  {
    var v := moves[i];
    if v.from != v.to {
      ExecOne(s, ChangeColumn(v.from, v.to, v.wanted));
      if v.to in s.columns {
        TakenName(moves, i, v.to);
      }
    } else {
      RenameNothing(v.to, s.primaryKey);
      forall k | k in s.keys ensures s.keys[k].(columns := RenameIn(v.to, v.to, s.keys[k].columns)) == s.keys[k] {
        RenameNothing(v.to, s.keys[k].columns);
      }
      assert (map k | k in s.keys :: s.keys[k].(columns := RenameIn(v.from, v.to, s.keys[k].columns))) == s.keys;
      assert Moving(s.columns, v) == s.columns[v.to := v.wanted];
      if v.changed {
        ExecOne(s, ModifyColumn(v.to, v.wanted));
      } else {
        assert s.columns[v.to := v.wanted] == s.columns;
      }
    }
  }

  lemma TakenName(moves: seq<Move>, i: nat, n: string)
    requires i < |moves| && GoodMoves(moves) && n in NamesAt(moves, i) && n == moves[i].to && moves[i].from != n
    ensures exists j :: i < j < |moves| && Blocked(moves, i, j)
  {
    var j :| i <= j < |moves| && moves[j].from == n;
    assert Blocked(moves, i, j);
  }

  lemma StepTaken(s: Schema, from: string, to: string, d: Definition)
    requires to in s.columns && to != from
    ensures Step(s, ChangeColumn(from, to, d)) == None
  {
  }

  lemma {:induction false} ExecMoveBlocked(s: Schema, moves: seq<Move>, i: nat, j: nat)
    requires i < |moves| && j < |moves| && Blocked(moves, i, j) && Waiting(s.columns, moves, i)
    ensures Exec(s, MoveStatement(moves[i])) == None
  {
    var v := moves[i];
    assert moves[j].from in s.columns;
    StepTaken(s, v.from, v.to, v.wanted);
    ExecOne(s, ChangeColumn(v.from, v.to, v.wanted));
  }

  // No move among the first `i` is blocked.
  predicate FreeUpTo(moves: seq<Move>, i: nat)
    requires i <= |moves|
  {
    forall a, b :: 0 <= a < i && a < b < |moves| ==> !Blocked(moves, a, b)
  }

  lemma RenamedByNothing(s: Schema)
    ensures Renamed(s, map[]) == s
  {
    assert Moved(map[], s.primaryKey) == s.primaryKey;
    forall k | k in s.keys ensures MovedBody(map[], s.keys[k]) == s.keys[k] {
      assert Moved(map[], s.keys[k].columns) == s.keys[k].columns;
    }
    assert Renamed(s, map[]).keys == s.keys;
  }

  // The schema once the first `i` moves are made, whatever its columns are.
  predicate MovedTo(t: Schema, s: Schema, moves: seq<Move>, i: nat)
    requires i <= |moves|
  {
    ColumnsAt(t.columns, moves, i) && t == Renamed(s, MoveMap(moves[..i])).(columns := t.columns)
  }

  lemma {:induction false} ExecNextMove(s: Schema, t: Schema, moves: seq<Move>, i: nat)
    requires i < |moves| && GoodMoves(moves) && MovedTo(t, s, moves, i) && Open(moves, i)
    ensures var u := Exec(t, MoveStatement(moves[i]));
            u.Some? && MovedTo(u.value, s, moves, i + 1)
  {
    ExecMove(t, moves, i);
    DoneNext(t.columns, moves, i);
    WaitingNext(t.columns, moves, i);
    NamesNext(moves, i);
    RenamedNext(s, moves, i);
  }

  function MovesResult(s: Schema, moves: seq<Move>, i: nat): Option<Schema>
    requires i <= |moves|
  {
    Exec(s, MoveStatements(moves[..i]))
  }

  lemma {:induction false} MovesResultNext(s: Schema, moves: seq<Move>, i: nat)
    requires i < |moves|
    ensures MovesResult(s, moves, i + 1) == Then(MovesResult(s, moves, i), MoveStatement(moves[i]))
  {
    assert moves[..i + 1][..i] == moves[..i];
    ExecAppend(s, MoveStatements(moves[..i]), MoveStatement(moves[i]));
  }

  lemma {:induction false} ExecMovesNext(s: Schema, t: Schema, moves: seq<Move>, i: nat)
    requires i < |moves| && GoodMoves(moves) && MovedTo(t, s, moves, i) && FreeUpTo(moves, i)
    ensures var u := Exec(t, MoveStatement(moves[i]));
            if FreeUpTo(moves, i + 1) then u.Some? && MovedTo(u.value, s, moves, i + 1) else u == None
  {
    if j :| i < j < |moves| && Blocked(moves, i, j) {
      ExecMoveBlocked(t, moves, i, j);
    } else {
      ExecNextMove(s, t, moves, i);
    }
  }

  lemma {:induction false} ExecMoves(s: Schema, moves: seq<Move>, i: nat)
    requires i <= |moves| && GoodMoves(moves) && ColumnsAt(s.columns, moves, 0)
    ensures var t := MovesResult(s, moves, i);
            if FreeUpTo(moves, i) then t.Some? && MovedTo(t.value, s, moves, i) else t == None
  {
    if i == 0 {
      assert MoveMap(moves[..0]) == map[];
      RenamedByNothing(s);
    } else {
      ExecMoves(s, moves, i - 1);
      MovesResultNext(s, moves, i - 1);
      if FreeUpTo(moves, i - 1) {
        ExecMovesNext(s, MovesResult(s, moves, i - 1).value, moves, i - 1);
      }
    }
  }

  /* ---------- From columns to moves ---------- */

  predicate GoodColumns(columns: seq<Column>) {
    DistinctColumns(columns)
    && forall c :: c in columns && c.generated.Some? ==> c.generated.value.expression != ""
  }

  lemma {:induction false} SameColumnSameDefinition(lengthTypes: set<string>, a: Column, b: Column)
    requires SameColumn(a, b)
    requires a.generated.Some? ==> a.generated.value.expression != ""
    requires b.generated.Some? ==> b.generated.value.expression != ""
    ensures DefinitionOf(lengthTypes, a) == DefinitionOf(lengthTypes, b)
  {
    if a.generated.Some? && b.generated.Some? {
      assert a.generated.value == b.generated.value;
    }
  }

  lemma OneMoreMove(moves: seq<Move>, v: Move)
    ensures MoveStatements(moves + [v]) == MoveStatements(moves) + MoveStatement(v)
    ensures MoveMap(moves + [v]) == if v.from != v.to then MoveMap(moves)[v.from := v.to] else MoveMap(moves)
  {
    assert (moves + [v])[..|moves|] == moves;
  }

  lemma {:induction false} ChangesAreMoves(lengthTypes: set<string>, before: seq<Column>, after: seq<Column>)
    ensures ColumnChanges(lengthTypes, before, after) == MoveStatements(Moves(lengthTypes, before, after))
    ensures Renames(before, after) == MoveMap(Moves(lengthTypes, before, after))
  {
    hide MoveStatements, MoveMap, DefinitionOf, SameColumn, FindColumn;
    if after == [] {
      NoMoves();
    } else {
      var init, c := after[..|after| - 1], after[|after| - 1];
      ChangesAreMoves(lengthTypes, before, init);
      match FindColumn(before, c.id)
      case None => assert ColumnChanges(lengthTypes, before, init) + [] == ColumnChanges(lengthTypes, before, init);
      case Some(prior) => OneMoreMove(Moves(lengthTypes, before, init), MoveOf(lengthTypes, prior, c));
    }
  }

  lemma NoMoves()
    ensures MoveStatements([]) == [] && MoveMap([]) == map[]
  {
  }

  predicate IsMoveOf(lengthTypes: set<string>, before: seq<Column>, v: Move, c: Column) {
    var prior := FindColumn(before, c.id);
    prior.Some? && v == MoveOf(lengthTypes, prior.value, c)
  }

  lemma {:induction false} MoveHasColumn(lengthTypes: set<string>, before: seq<Column>, after: seq<Column>, v: Move)
    returns (c: Column)
    requires v in Moves(lengthTypes, before, after)
    ensures c in after && IsMoveOf(lengthTypes, before, v, c)
  {
    var n := |after| - 1;
    var init := Moves(lengthTypes, before, after[..n]);
    if v in init {
      c := MoveHasColumn(lengthTypes, before, after[..n], v);
    } else {
      c := after[n];
    }
  }

  lemma {:induction false} ColumnHasMove(lengthTypes: set<string>, before: seq<Column>, after: seq<Column>, c: Column)
    requires c in after && FindColumn(before, c.id).Some?
    ensures MoveOf(lengthTypes, FindColumn(before, c.id).value, c) in Moves(lengthTypes, before, after)
  {
    var n := |after| - 1;
    if c != after[n] {
      assert c in after[..n];
      ColumnHasMove(lengthTypes, before, after[..n], c);
    }
  }

  lemma OneColumn(columns: seq<Column>, a: Column, b: Column)
    requires DistinctColumns(columns) && a in columns && b in columns && (a.id == b.id || a.name == b.name)
    ensures a == b
  {
  }

  lemma {:induction false} MovesAreGood(lengthTypes: set<string>, before: seq<Column>, after: seq<Column>)
    requires GoodColumns(before) && GoodColumns(after)
    ensures GoodMoves(Moves(lengthTypes, before, after))
  {
    if after != [] {
      var n := |after| - 1;
      var c, init := after[n], Moves(lengthTypes, before, after[..n]);
      MovesAreGood(lengthTypes, before, after[..n]);
      if FindColumn(before, c.id).Some? {
        var v := MoveOf(lengthTypes, FindColumn(before, c.id).value, c);
        forall i | 0 <= i < |init| ensures init[i].from != v.from && init[i].to != v.to {
          var d := MoveHasColumn(lengthTypes, before, after[..n], init[i]);
          DifferentMoves(before, after, c, d);
        }
        if !v.changed {
          SameColumnSameDefinition(lengthTypes, FindColumn(before, c.id).value, c);
        }
      }
    }
  }

  lemma {:induction false} DifferentMoves(before: seq<Column>, after: seq<Column>, c: Column, d: Column)
    requires DistinctColumns(before) && DistinctColumns(after)
    requires after != [] && c == after[|after| - 1] && d in after[..|after| - 1]
    requires FindColumn(before, c.id).Some? && FindColumn(before, d.id).Some?
    ensures c.name != d.name && FindColumn(before, c.id).value.name != FindColumn(before, d.id).value.name
  {
    var x, y := FindColumn(before, c.id).value, FindColumn(before, d.id).value;
    if x.name == y.name {
      OneColumn(before, x, y);
    }
  }

  lemma {:induction false} ColumnMapHolds(lengthTypes: set<string>, columns: seq<Column>)
    requires DistinctColumns(columns)
    ensures forall c :: c in columns ==>
              c.name in ColumnMap(lengthTypes, columns)
              && ColumnMap(lengthTypes, columns)[c.name] == DefinitionOf(lengthTypes, c)
    ensures forall n :: n in ColumnMap(lengthTypes, columns) ==> HasColumn(columns, n)
  {
    if columns != [] {
      var n := |columns| - 1;
      ColumnMapHolds(lengthTypes, columns[..n]);
      forall c | c in columns
        ensures c.name in ColumnMap(lengthTypes, columns)
                && ColumnMap(lengthTypes, columns)[c.name] == DefinitionOf(lengthTypes, c)
      {
        if c != columns[n] {
          assert c in columns[..n];
          var i :| 0 <= i < n && columns[i] == c;
        }
      }
      forall x | x in ColumnMap(lengthTypes, columns) ensures HasColumn(columns, x) {
        if x != columns[n].name {
          assert HasColumn(columns[..n], x);
          var i :| 0 <= i < n && columns[..n][i].name == x;
          assert columns[i].name == x;
        }
      }
    }
  }

  // What is left once the dropped columns are gone is what the moves start from.
  lemma {:induction false} MovesStart(lengthTypes: set<string>, before: seq<Column>, after: seq<Column>)
    requires DistinctColumns(before)
    ensures ColumnsAt(ColumnMap(lengthTypes, before) - Dropped(before, after), Moves(lengthTypes, before, after), 0)
  {
    hide Moves, DefinitionOf, Find;
    var moves := Moves(lengthTypes, before, after);
    var columns := ColumnMap(lengthTypes, before) - Dropped(before, after);
    ColumnMapHolds(lengthTypes, before);
    forall j | 0 <= j < |moves| ensures moves[j].from in columns && columns[moves[j].from] == moves[j].prior {
      var c := MoveHasColumn(lengthTypes, before, after, moves[j]);
      var prior := FindColumn(before, c.id).value;
      assert prior in before;
      forall i | 0 <= i < |before| && before[i].name == prior.name ensures FindColumn(after, before[i].id).Some? {
        OneColumn(before, before[i], prior);
      }
    }
    forall n | n in columns ensures n in NamesAt(moves, 0) {
      assert HasColumn(before, n);
      var i :| 0 <= i < |before| && before[i].name == n;
      var c := FindColumn(after, before[i].id).value;
      var prior := FindColumn(before, c.id).value;
      OneColumn(before, before[i], prior);
      ColumnHasMove(lengthTypes, before, after, c);
      var j :| 0 <= j < |moves| && moves[j] == MoveOf(lengthTypes, prior, c);
      assert moves[j].from == n;
    }
  }

  /* ---------- Columns are added ---------- */

  predicate ReadyFor(lengthTypes: set<string>, columns: map<string, Definition>, before: seq<Column>, c: Column) {
    if FindColumn(before, c.id).Some? then c.name in columns && columns[c.name] == DefinitionOf(lengthTypes, c)
    else c.name !in columns
  }

  lemma MergeOne(base: map<string, Definition>, extra: map<string, Definition>, n: string, d: Definition)
    requires n !in extra
    ensures base + extra[n := d] == (base + extra)[n := d]
    ensures n in base && base[n] == d ==> (base + extra)[n := d] == base + extra
  {
  }

  lemma {:induction false} AddOne(s: Schema, script: seq<Statement>, there: bool,
                                  extra: map<string, Definition>, n: string, d: Definition)
    requires Exec(s, script) == Some(s.(columns := s.columns + extra)) && n !in extra
    requires if there then n in s.columns && s.columns[n] == d else n !in s.columns
    ensures Exec(s, script + (if there then [] else [AddColumn(n, d)])) == Some(s.(columns := s.columns + extra[n := d]))
  {
    MergeOne(s.columns, extra, n, d);
    if there {
      assert script + [] == script;
    } else {
      ExecSnoc(s, script, AddColumn(n, d));
    }
  }

  lemma {:induction false} ExecAddColumns(lengthTypes: set<string>, s: Schema, before: seq<Column>, after: seq<Column>)
    requires DistinctColumns(after)
    requires forall c :: c in after ==> ReadyFor(lengthTypes, s.columns, before, c)
    ensures Exec(s, AddColumns(lengthTypes, before, after)) ==
            Some(s.(columns := s.columns + ColumnMap(lengthTypes, after)))
  {
    if after == [] {
      assert s.columns + map[] == s.columns;
    } else {
      var n := |after| - 1;
      ExecAddColumns(lengthTypes, s, before, after[..n]);
      NotYetThere(lengthTypes, after);
      var c := after[n];
      assert ReadyFor(lengthTypes, s.columns, before, c);
      AddOne(s, AddColumns(lengthTypes, before, after[..n]), FindColumn(before, c.id).Some?,
             ColumnMap(lengthTypes, after[..n]), c.name, DefinitionOf(lengthTypes, c));
    }
  }

  lemma {:induction false} NotYetThere(lengthTypes: set<string>, after: seq<Column>)
    requires DistinctColumns(after) && after != []
    ensures after[|after| - 1].name !in ColumnMap(lengthTypes, after[..|after| - 1])
  {
    var n := |after| - 1;
    ColumnMapHolds(lengthTypes, after[..n]);
    assert !HasColumn(after[..n], after[n].name);
  }

  lemma {:induction false} MovesEnd(
      lengthTypes: set<string>, before: seq<Column>, after: seq<Column>, columns: map<string, Definition>)
    requires DistinctColumns(after)
    requires var moves := Moves(lengthTypes, before, after);
             ColumnsAt(columns, moves, |moves|)
    ensures forall c :: c in after ==> ReadyFor(lengthTypes, columns, before, c)
    ensures columns + ColumnMap(lengthTypes, after) == ColumnMap(lengthTypes, after)
  {
    hide Moves, DefinitionOf, ColumnMap, FindColumn;
    var moves := Moves(lengthTypes, before, after);
    forall c | c in after ensures ReadyFor(lengthTypes, columns, before, c) {
      if FindColumn(before, c.id).Some? {
        ColumnHasMove(lengthTypes, before, after, c);
        var j :| 0 <= j < |moves| && moves[j] == MoveOf(lengthTypes, FindColumn(before, c.id).value, c);
        assert moves[j].to == c.name;
      } else if c.name in columns {
        var j :| 0 <= j < |moves| && moves[j].to == c.name;
        var d := MoveHasColumn(lengthTypes, before, after, moves[j]);
        OneColumn(after, c, d);
      }
    }
    ColumnMapHolds(lengthTypes, after);
    forall n | n in columns ensures n in ColumnMap(lengthTypes, after) {
      var j :| 0 <= j < |moves| && moves[j].to == n;
      var d := MoveHasColumn(lengthTypes, before, after, moves[j]);
    }
  }

  /* ---------- Keys come back ---------- */

  // The keys the list adds.
  function Extra(m: map<string, string>, afters: seq<Key>, befores: seq<Key>): map<KeyName, Body> {
    if |afters| == 0 then map[]
    else
      var init, k := Extra(m, afters[..|afters| - 1], befores), afters[|afters| - 1];
      if Settled(m, k, befores) then init else init[k.key := k.body]
  }

  lemma {:induction false} ExtraHolds(m: map<string, string>, afters: seq<Key>, befores: seq<Key>)
    requires NoClash(afters)
    ensures forall x :: x in Extra(m, afters, befores) ==> Key(x, Extra(m, afters, befores)[x]) in afters
    ensures forall k :: k in afters && !Settled(m, k, befores) ==>
              k.key in Extra(m, afters, befores) && Extra(m, afters, befores)[k.key] == k.body
  {
    if afters != [] {
      var n := |afters| - 1;
      ExtraHolds(m, afters[..n], befores);
      assert forall k :: k in afters ==> k == afters[n] || k in afters[..n];
      forall k | k in afters && !Settled(m, k, befores)
        ensures k.key in Extra(m, afters, befores) && Extra(m, afters, befores)[k.key] == k.body
      {
        if k.key == afters[n].key {
          SameKeySameBody(afters, k, afters[n]);
        }
      }
    }
  }

  // The server can take a key of `all` that it does not have yet.
  predicate Addable(s: Schema, all: seq<Key>, k: Key) {
    && NoClash(all) && k in all && k.key !in s.keys && InColumns(k.body.columns, s)
    && forall x :: x in s.keys ==> Key(x, s.keys[x]) in all
  }

  lemma {:induction false} StepAddKey(s: Schema, all: seq<Key>, table: string, k: Key)
    requires Addable(s, all, k)
    ensures Step(s, AddStatement(table, k)) ==
            if k.key.kind != KIndex || table == s.name then Some(s.(keys := s.keys[k.key := k.body])) else None
  {
    forall x | x in s.keys ensures !Clash(x, k.key) {
      if Clash(x, k.key) {
        SameKeySameBody(all, Key(x, s.keys[x]), k);
      }
    }
  }

  predicate CanCreate(s: Schema, m: map<string, string>, table: string, afters: seq<Key>, befores: seq<Key>) {
    s.name == table || forall k :: k in afters && k.key.kind == KIndex ==> Settled(m, k, befores)
  }

  predicate AllAddable(s: Schema, m: map<string, string>, all: seq<Key>, afters: seq<Key>, befores: seq<Key>) {
    && NoClash(afters)
    && (forall k :: k in afters && !Settled(m, k, befores) ==> Addable(s, all, k))
  }

  lemma MergeKey(base: map<KeyName, Body>, extra: map<KeyName, Body>, k: Key)
    ensures (base + extra)[k.key := k.body] == base + extra[k.key := k.body]
  {
  }

  lemma {:induction false} AddOneKey(
      s: Schema, script: seq<Statement>, table: string, all: seq<Key>, extra: map<KeyName, Body>, k: Key)
    requires Exec(s, script) == Some(s.(keys := s.keys + extra))
    requires Addable(s.(keys := s.keys + extra), all, k)
    ensures Exec(s, script + [AddStatement(table, k)]) ==
            if k.key.kind != KIndex || table == s.name then Some(s.(keys := s.keys + extra[k.key := k.body])) else None
  {
    ExecSnoc(s, script, AddStatement(table, k));
    StepAddKey(s.(keys := s.keys + extra), all, table, k);
    MergeKey(s.keys, extra, k);
  }

  lemma {:induction false} CanCreateNext(s: Schema, m: map<string, string>, table: string, afters: seq<Key>, befores: seq<Key>)
    requires afters != []
    ensures var n := |afters| - 1;
            CanCreate(s, m, table, afters, befores) <==>
            && CanCreate(s, m, table, afters[..n], befores)
            && (Settled(m, afters[n], befores) || afters[n].key.kind != KIndex || s.name == table)
  {
    var n := |afters| - 1;
    assert forall x :: x in afters <==> x == afters[n] || x in afters[..n];
  }

  lemma {:induction false} ExecAddKeys(
      s: Schema, m: map<string, string>, table: string, all: seq<Key>, afters: seq<Key>, befores: seq<Key>)
    requires AllAddable(s, m, all, afters, befores)
    ensures Exec(s, AddKeys(m, table, afters, befores)) ==
            if CanCreate(s, m, table, afters, befores) then Some(s.(keys := s.keys + Extra(m, afters, befores))) else None
  {
    if afters == [] {
      assert s.keys + map[] == s.keys;
    } else {
      var n := |afters| - 1;
      var init, k := afters[..n], afters[n];
      assert AllAddable(s, m, all, init, befores) by {
        assert forall x :: x in init ==> x in afters;
      }
      ExecAddKeys(s, m, table, all, init, befores);
      CanCreateNext(s, m, table, afters, befores);
      var script := AddKeys(m, table, init, befores);
      if Settled(m, k, befores) {
        assert AddKeys(m, table, afters, befores) == script;
      } else if CanCreate(s, m, table, init, befores) {
        StillAddable(s, m, all, afters, befores);
        AddOneKey(s, script, table, all, Extra(m, init, befores), k);
      } else {
        ExecAppend(s, script, [AddStatement(table, k)]);
      }
    }
  }

  lemma {:induction false} StillAddable(
      s: Schema, m: map<string, string>, all: seq<Key>, afters: seq<Key>, befores: seq<Key>)
    requires AllAddable(s, m, all, afters, befores) && afters != []
    requires !Settled(m, afters[|afters| - 1], befores)
    ensures Addable(s.(keys := s.keys + Extra(m, afters[..|afters| - 1], befores)), all, afters[|afters| - 1])
  {
    var n := |afters| - 1;
    var k, init := afters[n], afters[..n];
    ExtraHolds(m, init, befores);
    assert Addable(s, all, k);
    if k.key in Extra(m, init, befores) {
      assert false;
    }
    forall x | x in Extra(m, init, befores) ensures Key(x, Extra(m, init, befores)[x]) in all {
      ExtraSettled(m, init, befores, x);
    }
  }

  lemma {:induction false} ExtraSettled(m: map<string, string>, afters: seq<Key>, befores: seq<Key>, x: KeyName)
    requires NoClash(afters) && x in Extra(m, afters, befores)
    ensures var k := Key(x, Extra(m, afters, befores)[x]);
            k in afters && !Settled(m, k, befores)
  {
    var n := |afters| - 1;
    if x in Extra(m, afters[..n], befores) && (Settled(m, afters[n], befores) || x != afters[n].key) {
      ExtraSettled(m, afters[..n], befores, x);
    }
  }

  /* ---------- The whole script ---------- */

  lemma {:induction false} FindOnly(keys: seq<Key>, k: Key)
    requires NoClash(keys) && k in keys
    ensures Find(keys, k.key) == Some(k.body)
  {
    SameKeySameBody(keys, Key(k.key, Find(keys, k.key).value), k);
  }

  lemma {:induction false} OrdersAgree(t: Table)
    requires NoClash(DropOrder(t))
    ensures NoClash(AddOrder(t))
    ensures forall k :: k in AddOrder(t) <==> k in DropOrder(t)
    ensures forall k :: k in Indexes(t) <==> k in AddOrder(t) && k.key.kind == KIndex
  {
    var f, u, c, x := |t.foreignKeys|, |t.uniques|, |t.checks|, |t.indexes|;
    var drops, adds := DropOrder(t), AddOrder(t);
    forall i, j | 0 <= i < j < |adds| ensures !Clash(adds[i].key, adds[j].key) {
      var di, dj := DropPlace(t, i), DropPlace(t, j);
      assert adds[i] == drops[di] && adds[j] == drops[dj] && di != dj;
      if di < dj {
        assert !Clash(drops[di].key, drops[dj].key);
      } else {
        assert !Clash(drops[dj].key, drops[di].key);
      }
    }
  }

  // Where the key at place `i` of the order of adding stands in the order of dropping.
  function DropPlace(t: Table, i: nat): (d: nat)
    requires i < |AddOrder(t)|
    ensures d < |DropOrder(t)| && DropOrder(t)[d] == AddOrder(t)[i]
  {
    var f, u, c := |t.foreignKeys|, |t.uniques|, |t.checks|;
    if i < u + c then i + f else if i < u + c + f then i - u - c else i
  }

  // The schema once the kept columns have their new names and definitions.
  predicate Changed(lengthTypes: set<string>, before: Table, after: Table, s: Schema) {
    var m := Renames(before.columns, after.columns);
    && s == Renamed(Stripped(lengthTypes, before, after), m).(columns := s.columns)
    && var moves := Moves(lengthTypes, before.columns, after.columns);
       ColumnsAt(s.columns, moves, |moves|)
  }

  lemma {:induction false} NamedWhenKept(lengthTypes: set<string>, before: Table, after: Table)
    requires Valid(before)
    ensures KeptKeysKeepColumns(before, after) <==>
            forall n :: n in Dropped(before.columns, after.columns) ==> !Named(Stripped(lengthTypes, before, after), n)
  {
    hide Renames, Survives, FindColumn, Find, ForeignKeys, Uniques, Checks, Indexes, ColumnMap;
    var m := Renames(before.columns, after.columns);
    var s := Stripped(lengthTypes, before, after);
    if KeptKeysKeepColumns(before, after) {
      forall n | n in Dropped(before.columns, after.columns) ensures !Named(s, n) {
        var i :| 0 <= i < |before.columns| && FindColumn(after.columns, before.columns[i].id).None? && before.columns[i].name == n;
        assert before.columns[i] in before.columns;
        forall k | k in s.keys ensures n !in s.keys[k].columns {
          StrippedKeys(lengthTypes, before, after, k);
        }
      }
    } else {
      var c :| c in before.columns && FindColumn(after.columns, c.id).None? &&
        !((PrimaryKept(m, before, after) ==> c.name !in before.primaryKey)
          && forall k :: k in DropOrder(before) && Survives(m, k, DropOrder(after)) ==> c.name !in k.body.columns);
      var i :| 0 <= i < |before.columns| && before.columns[i] == c;
      assert c.name in Dropped(before.columns, after.columns);
      if PrimaryKept(m, before, after) && c.name in before.primaryKey {
      } else {
        var k :| k in DropOrder(before) && Survives(m, k, DropOrder(after)) && c.name in k.body.columns;
        SurvivorsStay(lengthTypes, before, after, k);
      }
      assert Named(s, c.name);
    }
  }

  // The schema without the dropped columns.
  function Shrunk(lengthTypes: set<string>, before: Table, after: Table): Schema {
    var s := Stripped(lengthTypes, before, after);
    s.(columns := s.columns - Dropped(before.columns, after.columns))
  }

  lemma {:induction false} ExecKeptColumns(lengthTypes: set<string>, before: Table, after: Table)
    requires Valid(before) && Valid(after)
    ensures var t := Exec(Shrunk(lengthTypes, before, after), ColumnChanges(lengthTypes, before.columns, after.columns));
            if Free(Moves(lengthTypes, before.columns, after.columns))
            then t.Some? && Changed(lengthTypes, before, after, t.value)
            else t == None
  {
    hide Moves, Renames, Exec, ColumnMap, Dropped, Gone, PrimaryKept, ColumnChanges, Find, ColumnsAt, GoodMoves;
    var moves := Moves(lengthTypes, before.columns, after.columns);
    MovesStart(lengthTypes, before.columns, after.columns);
    MovesAreGood(lengthTypes, before.columns, after.columns);
    ExecMoves(Shrunk(lengthTypes, before, after), moves, |moves|);
    assert moves[..|moves|] == moves;
    ChangesAreMoves(lengthTypes, before.columns, after.columns);
  }

  lemma {:induction false} ColumnsBefore(lengthTypes: set<string>, before: Table, after: Table)
    requires Valid(before)
    ensures forall i :: 0 <= i < |before.columns| ==> before.columns[i].name in Stripped(lengthTypes, before, after).columns
  {
    hide Renames, Gone, PrimaryKept, DefinitionOf;
    ColumnMapHolds(lengthTypes, before.columns);
    forall i | 0 <= i < |before.columns| ensures before.columns[i].name in Stripped(lengthTypes, before, after).columns {
      assert before.columns[i] in before.columns;
    }
  }

  lemma {:induction false} ExecColumnChanges(lengthTypes: set<string>, before: Table, after: Table)
    requires Valid(before) && Valid(after)
    ensures var script := DropColumns(before.columns, after.columns) + ColumnChanges(lengthTypes, before.columns, after.columns);
            var t := Exec(Stripped(lengthTypes, before, after), script);
            if KeptKeysKeepColumns(before, after) && Free(Moves(lengthTypes, before.columns, after.columns))
            then t.Some? && Changed(lengthTypes, before, after, t.value)
            else t == None
  {
    hide Exec, KeptKeysKeepColumns, DropColumns, ColumnChanges, Moves, Free, Dropped, Stripped, Changed, Named;
    var s := Stripped(lengthTypes, before, after);
    ColumnsBefore(lengthTypes, before, after);
    ExecDropColumns(s, before.columns, after.columns);
    NamedWhenKept(lengthTypes, before, after);
    ExecAppend(s, DropColumns(before.columns, after.columns), ColumnChanges(lengthTypes, before.columns, after.columns));
    ExecKeptColumns(lengthTypes, before, after);
  }

  lemma {:induction false} ChangedKeys(lengthTypes: set<string>, before: Table, after: Table, s: Schema)
    requires Valid(before) && Valid(after) && Changed(lengthTypes, before, after, s)
    ensures forall x :: x in s.keys ==> Key(x, s.keys[x]) in DropOrder(after)
    ensures forall k :: k in DropOrder(after) ==>
              (Settled(Renames(before.columns, after.columns), k, DropOrder(before)) <==> k.key in s.keys)
  {
    var m := Renames(before.columns, after.columns);
    forall x | x in s.keys ensures Key(x, s.keys[x]) in DropOrder(after) {
      StrippedKeys(lengthTypes, before, after, x);
    }
    forall k | k in DropOrder(after) ensures Settled(m, k, DropOrder(before)) <==> k.key in s.keys {
      FindOnly(DropOrder(after), k);
      if k.key in s.keys {
        StrippedKeys(lengthTypes, before, after, k.key);
        var prior := Key(k.key, Stripped(lengthTypes, before, after).keys[k.key]);
        FindOnly(DropOrder(before), prior);
      }
      if Settled(m, k, DropOrder(before)) {
        var prior := Key(k.key, Find(DropOrder(before), k.key).value);
        SurvivorsStay(lengthTypes, before, after, prior);
      }
    }
  }

  lemma {:induction false} TailAddable(lengthTypes: set<string>, before: Table, after: Table, s: Schema, u: Schema)
    requires Valid(before) && Valid(after) && Changed(lengthTypes, before, after, s)
    requires u.keys == s.keys && forall c :: c in after.columns ==> c.name in u.columns
    ensures AllAddable(u, Renames(before.columns, after.columns), DropOrder(after), AddOrder(after), DropOrder(before))
  {
    OrdersAgree(after);
    ChangedKeys(lengthTypes, before, after, s);
    forall k | k in DropOrder(after) ensures InColumns(k.body.columns, u) {
      ColumnsThere(after, k.body.columns, u);
    }
  }

  lemma ColumnsThere(after: Table, names: seq<string>, s: Schema)
    requires KnownColumns(after.columns, names)
    requires forall c :: c in after.columns ==> c.name in s.columns
    ensures InColumns(names, s)
  {
    forall n | n in names ensures n in s.columns {
      assert HasColumn(after.columns, n);
    }
  }

  predicate KeysFrom(keys: map<KeyName, Body>, all: seq<Key>) {
    forall x :: x in keys ==> Key(x, keys[x]) in all
  }

  lemma {:induction false} KeyMapFrom(keys: map<KeyName, Body>, all: seq<Key>)
    requires NoClash(all) && KeysFrom(keys, all) && forall k :: k in all ==> k.key in keys
    ensures keys == KeyMap(all)
  {
    InKeyMap(all);
    forall x | x in KeyMap(all) ensures x in keys && keys[x] == KeyMap(all)[x] {
      var k := Key(x, KeyMap(all)[x]);
      assert k in all;
      FindOnly(all, Key(x, keys[x]));
    }
    forall x | x in keys ensures x in KeyMap(all) {
      var i :| 0 <= i < |all| && all[i] == Key(x, keys[x]);
      assert all[i].key in KeyMap(all);
    }
  }

  lemma {:induction false} KeysCover(kept: map<KeyName, Body>, extra: map<KeyName, Body>, all: seq<Key>)
    requires NoClash(all) && KeysFrom(kept, all) && KeysFrom(extra, all)
    requires forall k :: k in all ==> k.key in kept || k.key in extra
    ensures kept + extra == KeyMap(all)
  {
    KeyMapFrom(kept + extra, all);
  }

  lemma {:induction false} ExtraFromAfter(m: map<string, string>, befores: seq<Key>, after: Table)
    requires Valid(after)
    ensures KeysFrom(Extra(m, AddOrder(after), befores), DropOrder(after))
    ensures forall k :: k in DropOrder(after) && !Settled(m, k, befores) ==> k.key in Extra(m, AddOrder(after), befores)
  {
    OrdersAgree(after);
    ExtraHolds(m, AddOrder(after), befores);
  }

  lemma {:induction false} KeysComplete(lengthTypes: set<string>, before: Table, after: Table, s: Schema)
    requires Valid(before) && Valid(after) && Changed(lengthTypes, before, after, s)
    ensures s.keys + Extra(Renames(before.columns, after.columns), AddOrder(after), DropOrder(before))
            == KeyMap(DropOrder(after))
  {
    var m := Renames(before.columns, after.columns);
    ChangedKeys(lengthTypes, before, after, s);
    ExtraFromAfter(m, DropOrder(before), after);
    KeysCover(s.keys, Extra(m, AddOrder(after), DropOrder(before)), DropOrder(after));
  }

  // The schema once every column of `after` is there and every other key is as it was.
  function Complete(lengthTypes: set<string>, after: Table, s: Schema): Schema {
    s.(columns := ColumnMap(lengthTypes, after.columns))
  }

  lemma {:induction false} ExecAddPrimary(lengthTypes: set<string>, before: Table, after: Table, s: Schema)
    requires Valid(after) && Changed(lengthTypes, before, after, s)
    ensures Exec(Complete(lengthTypes, after, s), AddPrimary(Renames(before.columns, after.columns), before, after)) ==
            Some(Complete(lengthTypes, after, s).(primaryKey := after.primaryKey))
  {
    var m, t := Renames(before.columns, after.columns), Complete(lengthTypes, after, s);
    if AddPrimary(m, before, after) != [] {
      assert Moved(m, []) == [];
      ColumnMapHolds(lengthTypes, after.columns);
      ColumnsThere(after, after.primaryKey, t);
      ExecOne(t, AddPrimaryKey(after.primaryKey));
    } else {
      assert Moved(m, []) == [];
    }
  }

  lemma {:induction false} ExecTail(lengthTypes: set<string>, before: Table, after: Table, s: Schema)
    requires Valid(before) && Valid(after) && Changed(lengthTypes, before, after, s)
    ensures var t := Complete(lengthTypes, after, s);
            Exec(t, Tail(before, after)) ==
            if IndexesFindTable(before, after) then
              Some(t.(primaryKey := after.primaryKey, keys := KeyMap(DropOrder(after))))
            else None
  {
    var m, t := Renames(before.columns, after.columns), Complete(lengthTypes, after, s);
    ExecAddPrimary(lengthTypes, before, after, s);
    ExecAppend(t, AddPrimary(m, before, after), AddKeys(m, after.name, AddOrder(after), DropOrder(before)));
    var u := t.(primaryKey := after.primaryKey);
    ColumnMapHolds(lengthTypes, after.columns);
    TailAddable(lengthTypes, before, after, s, u);
    ExecAddKeys(u, m, after.name, DropOrder(after), AddOrder(after), DropOrder(before));
    KeysComplete(lengthTypes, before, after, s);
    OrdersAgree(after);
  }

  lemma {:induction false} ExecLast(before: Table, after: Table, s: Schema)
    requires s.name == before.name && s.comment == before.comment.GetOr("")
    ensures Exec(s, Last(before, after)) == Some(s.(name := after.name, comment := after.comment.GetOr("")))
  {
    var comment := if before.comment.GetOr("") != after.comment.GetOr("") then [CommentTable(after.comment.GetOr(""))] else [];
    var rename := if before.name != after.name then [RenameTable(after.name)] else [];
    ExecAppend(s, comment, rename);
    if comment != [] {
      ExecOne(s, comment[0]);
    }
    var t := s.(comment := after.comment.GetOr(""));
    assert Exec(s, comment) == Some(t);
    if rename != [] {
      ExecOne(t, rename[0]);
    }
  }

  /**
   The script turns the table of `before` into the table of `after` exactly when the renames are in
   order, no key that stays names a dropped column, and no index is created while the table is
   renamed; otherwise the server refuses one of its statements.
   */
  lemma {:induction false} AlterReachesAfter(lengthTypes: set<string>, before: Table, after: Table)
    requires Valid(before) && Valid(after)
    ensures Exec(SchemaOf(lengthTypes, before), AlterStatements(lengthTypes, before, after)) ==
            if && KeptKeysKeepColumns(before, after)
               && Free(Moves(lengthTypes, before.columns, after.columns))
               && IndexesFindTable(before, after)
            then Some(SchemaOf(lengthTypes, after)) else None
  {
    var s0 := SchemaOf(lengthTypes, before);
    var moves := Moves(lengthTypes, before.columns, after.columns);
    var changes := DropColumns(before.columns, after.columns) + ColumnChanges(lengthTypes, before.columns, after.columns);
    var adds := AddColumns(lengthTypes, before.columns, after.columns);
    ExecDrops(lengthTypes, before, after);
    ExecColumnChanges(lengthTypes, before, after);
    ExecAppend(s0, Drops(before, after), changes);
    ExecAppend(s0, Drops(before, after) + changes, adds);
    ExecAppend(s0, Drops(before, after) + changes + adds, Tail(before, after));
    ExecAppend(s0, Drops(before, after) + changes + adds + Tail(before, after), Last(before, after));
    if KeptKeysKeepColumns(before, after) && Free(moves) {
      var s := Exec(Stripped(lengthTypes, before, after), changes).value;
      MovesEnd(lengthTypes, before.columns, after.columns, s.columns);
      ExecAddColumns(lengthTypes, s, before.columns, after.columns);
      ExecTail(lengthTypes, before, after, s);
      if IndexesFindTable(before, after) {
        ExecLast(before, after,
                 Complete(lengthTypes, after, s).(primaryKey := after.primaryKey, keys := KeyMap(DropOrder(after))));
      }
    }
  }
}
