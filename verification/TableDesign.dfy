/**
 The visual table designer: the difference between two table designs as MySQL `ALTER TABLE`
 statements. The designs, the names given to unnamed constraints, the comparisons and the order
 of the statements follow packages/db-admin/src/tableDesign.ts; the statements are kept abstract
 (what they do, not how they are spelled).
 */
module TableDesign {
  import opened Wrappers
  import opened Letters
  import Numerals

  /* ---------- The designer's model ---------- */

  datatype Generated = Generated(expression: string, stored: bool)

  datatype Column = Column(
    id: string, name: string, typ: string, length: Option<string>, unsigned: bool, nullable: bool,
    default: Option<string>, autoIncrement: bool, generated: Option<Generated>, comment: Option<string>)

  datatype Unique = Unique(name: Option<string>, columns: seq<string>)

  datatype ForeignKey = ForeignKey(
    name: Option<string>, columns: seq<string>, refSchema: Option<string>, refTable: string,
    refColumns: seq<string>, onDelete: Option<string>, onUpdate: Option<string>)

  datatype Check = Check(name: Option<string>, expression: string)

  datatype IndexColumn = IndexColumn(name: string, order: Option<string>)

  datatype Index = Index(
    name: string, columns: seq<IndexColumn>, unique: bool, using: Option<string>, filter: Option<string>)

  datatype Table = Table(
    name: string, columns: seq<Column>, primaryKey: seq<string>, foreignKeys: seq<ForeignKey>,
    uniques: seq<Unique>, checks: seq<Check>, indexes: seq<Index>, comment: Option<string>)

  /* ---------- Names ---------- */

  predicate IsBlank(c: char) {
    c == ' ' || '\t' <= c <= '\r'
  }

  function Trim(s: string): string
    decreases |s|
  {
    if |s| == 0 then s
    else if IsBlank(s[0]) then Trim(s[1..])
    else if IsBlank(s[|s| - 1]) then Trim(s[..|s| - 1])
    else s
  }

  predicate IsWord(c: char) {
    'a' <= c <= 'z' || 'A' <= c <= 'Z' || '0' <= c <= '9'
  }

  // Every run of other characters becomes one underscore (`inRun`: such a run is open).
  function Underscored(s: string, inRun: bool): string {
    if |s| == 0 then ""
    else if IsWord(s[0]) then [s[0]] + Underscored(s[1..], false)
    else (if inRun then "" else "_") + Underscored(s[1..], true)
  }

  function Unpadded(s: string): string
    decreases |s|
  {
    if |s| == 0 then s
    else if s[0] == '_' then Unpadded(s[1..])
    else if s[|s| - 1] == '_' then Unpadded(s[..|s| - 1])
    else s
  }

  function Slug(s: string): string {
    Unpadded(Underscored(s, false))
  }

  function Slugs(columns: seq<string>): string {
    if |columns| == 0 then ""
    else if |columns| == 1 then Slug(columns[0])
    else Slug(columns[0]) + "_" + Slugs(columns[1..])
  }

  function AutoName(prefix: string, table: string, columns: seq<string>): string {
    var full := prefix + "_" + Slug(table) + "_" + Slugs(columns);
    if |full| > 60 then full[..60] else full
  }

  // JavaScript's `name || fallback`: an empty name counts as none.
  function NameOr(name: Option<string>, fallback: string): string {
    if name.Some? && name.value != "" then name.value else fallback
  }

  function ForeignKeyName(t: Table, key: ForeignKey): string {
    NameOr(key.name, AutoName("fk", t.name, key.columns))
  }

  function UniqueName(t: Table, key: Unique): string {
    NameOr(key.name, AutoName("uq", t.name, key.columns))
  }

  function CheckName(t: Table, check: Check, index: nat): string {
    NameOr(check.name, "ck_" + Slug(t.name) + "_" + Numerals.Digits(index + 1))
  }

  /* ---------- What a server stores ---------- */

  // A column definition as the server reads it; type names have no letter case.
  datatype Definition = Definition(
    typ: string, length: Option<string>, unsigned: bool, generated: Option<Generated>, notNull: bool,
    default: Option<string>, autoIncrement: bool, comment: string)

  datatype Kind = KForeign | KUnique | KCheck | KIndex

  datatype KeyName = KeyName(kind: Kind, name: string)

  datatype Facts =
    | ForeignFacts(refSchema: string, refTable: string, refColumns: seq<string>, onDelete: string, onUpdate: string)
    | UniqueFacts
    | CheckFacts(expression: string)
    | IndexFacts(orders: seq<string>, unique: bool, using: string, filter: string)

  // A key or index: the columns of the table it names, and the rest.
  datatype Body = Body(columns: seq<string>, facts: Facts)

  datatype Key = Key(key: KeyName, body: Body)

  // The text of a column definition: what `columnDefinition` writes for MySQL.
  function DefinitionOf(lengthTypes: set<string>, c: Column): Definition {
    var base := Trim(Lower(c.typ));
    var length := if c.length.GetOr("") != "" && base in lengthTypes then c.length else None;
    if c.generated.Some? then
      Definition(base, length, c.unsigned, c.generated, !c.nullable, None, false, c.comment.GetOr(""))
    else
      Definition(base, length, c.unsigned, None, !(c.nullable && !c.autoIncrement),
                 if c.default.GetOr("") != "" && !c.autoIncrement then c.default else None,
                 c.autoIncrement, c.comment.GetOr(""))
  }

  function ForeignBodyOf(k: ForeignKey): Body {
    Body(k.columns, ForeignFacts(k.refSchema.GetOr(""), k.refTable, k.refColumns,
                                 k.onDelete.GetOr("NO ACTION"), k.onUpdate.GetOr("NO ACTION")))
  }

  function IndexNames(cs: seq<IndexColumn>): seq<string> {
    seq(|cs|, i requires 0 <= i < |cs| => cs[i].name)
  }

  function IndexOrders(cs: seq<IndexColumn>): seq<string> {
    seq(|cs|, i requires 0 <= i < |cs| => cs[i].order.GetOr("ASC"))
  }

  function IndexBodyOf(x: Index): Body {
    Body(IndexNames(x.columns), IndexFacts(IndexOrders(x.columns), x.unique, Upper(x.using.GetOr("")), x.filter.GetOr("")))
  }

  // The constraints and indexes of a design under their resolved names.
  function ForeignKeys(t: Table): seq<Key> {
    seq(|t.foreignKeys|, i requires 0 <= i < |t.foreignKeys| =>
      Key(KeyName(KForeign, ForeignKeyName(t, t.foreignKeys[i])), ForeignBodyOf(t.foreignKeys[i])))
  }

  function Uniques(t: Table): seq<Key> {
    seq(|t.uniques|, i requires 0 <= i < |t.uniques| =>
      Key(KeyName(KUnique, UniqueName(t, t.uniques[i])), Body(t.uniques[i].columns, UniqueFacts)))
  }

  function Checks(t: Table): seq<Key> {
    seq(|t.checks|, i requires 0 <= i < |t.checks| =>
      Key(KeyName(KCheck, CheckName(t, t.checks[i], i)), Body([], CheckFacts(t.checks[i].expression))))
  }

  function Indexes(t: Table): seq<Key> {
    seq(|t.indexes|, i requires 0 <= i < |t.indexes| =>
      Key(KeyName(KIndex, t.indexes[i].name), IndexBodyOf(t.indexes[i])))
  }

  // In the order the statements drop them, and in the order they add them.
  function DropOrder(t: Table): seq<Key> { ForeignKeys(t) + Uniques(t) + Checks(t) + Indexes(t) }

  function AddOrder(t: Table): seq<Key> { Uniques(t) + Checks(t) + ForeignKeys(t) + Indexes(t) }

  // JavaScript's `find` by name.
  function Find(keys: seq<Key>, name: KeyName): (r: Option<Body>)
    ensures r.Some? <==> exists k :: k in keys && k.key == name
    ensures r.Some? ==> Key(name, r.value) in keys
  {
    if |keys| == 0 then None
    else if keys[0].key == name then Some(keys[0].body)
    else Find(keys[1..], name)
  }

  function FindColumn(columns: seq<Column>, id: string): (r: Option<Column>)
    ensures r.Some? <==> exists c :: c in columns && c.id == id
    ensures r.Some? ==> r.value in columns && r.value.id == id
  {
    if |columns| == 0 then None
    else if columns[|columns| - 1].id == id then Some(columns[|columns| - 1])
    else FindColumn(columns[..|columns| - 1], id)
  }

  /* ---------- Statements and the server that runs them ---------- */

  datatype Statement =
    | DropKey(key: KeyName)
    | DropPrimaryKey
    | DropColumn(name: string)
    | ChangeColumn(oldName: string, name: string, definition: Definition)
    | ModifyColumn(name: string, definition: Definition)
    | AddColumn(name: string, definition: Definition)
    | AddPrimaryKey(columns: seq<string>)
    | AddKey(key: KeyName, body: Body)
    | CreateIndex(table: string, key: KeyName, body: Body)
    | CommentTable(comment: string)
    | RenameTable(newName: string)

  datatype Schema = Schema(
    name: string, columns: map<string, Definition>, primaryKey: seq<string>, keys: map<KeyName, Body>, comment: string)

  predicate InColumns(columns: seq<string>, s: Schema) {
    forall c :: c in columns ==> c in s.columns
  }

  // Some key or index that is still there names the column.
  predicate Named(s: Schema, column: string) {
    column in s.primaryKey || exists k :: k in s.keys && column in s.keys[k].columns
  }

  // Uniques and indexes share one name space; foreign keys and checks have their own.
  predicate Clash(a: KeyName, b: KeyName) {
    a.name == b.name && (a.kind == b.kind || (a.kind in {KUnique, KIndex} && b.kind in {KUnique, KIndex}))
  }

  function RenameIn(from: string, to: string, columns: seq<string>): seq<string> {
    seq(|columns|, i requires 0 <= i < |columns| => if columns[i] == from then to else columns[i])
  }

  function CanAdd(s: Schema, key: KeyName, body: Body): bool {
    InColumns(body.columns, s) && forall k :: k in s.keys ==> !Clash(k, key)
  }

  function Step(s: Schema, x: Statement): Option<Schema> {
    match x
    case DropKey(k) =>
      if k in s.keys then Some(s.(keys := s.keys - {k})) else None
    case DropPrimaryKey =>
      if s.primaryKey != [] then Some(s.(primaryKey := [])) else None
    case DropColumn(n) =>
      if n in s.columns && !Named(s, n) then Some(s.(columns := s.columns - {n})) else None
    case ChangeColumn(o, n, d) =>
      if o in s.columns && (n == o || n !in s.columns) then
        Some(s.(columns := (s.columns - {o})[n := d],
                primaryKey := RenameIn(o, n, s.primaryKey),
                keys := map k | k in s.keys :: s.keys[k].(columns := RenameIn(o, n, s.keys[k].columns))))
      else None
    case ModifyColumn(n, d) =>
      if n in s.columns then Some(s.(columns := s.columns[n := d])) else None
    case AddColumn(n, d) =>
      if n !in s.columns then Some(s.(columns := s.columns[n := d])) else None
    case AddPrimaryKey(cs) =>
      if s.primaryKey == [] && cs != [] && InColumns(cs, s) then Some(s.(primaryKey := cs)) else None
    case AddKey(k, b) =>
      if CanAdd(s, k, b) then Some(s.(keys := s.keys[k := b])) else None
    case CreateIndex(t, k, b) =>
      if t == s.name && CanAdd(s, k, b) then Some(s.(keys := s.keys[k := b])) else None
    case CommentTable(c) => Some(s.(comment := c))
    case RenameTable(n) => Some(s.(name := n))
  }

  // Runs a script; it stops at the first statement the server refuses.
  function Exec(s: Schema, script: seq<Statement>): Option<Schema> {
    if |script| == 0 then Some(s)
    else match Exec(s, script[..|script| - 1])
      case None => None
      case Some(t) => Step(t, script[|script| - 1])
  }

  // The table a design describes, as `CREATE TABLE` would make it.
  function KeyMap(keys: seq<Key>): map<KeyName, Body> {
    map k | k in (set i | 0 <= i < |keys| :: keys[i].key) && Find(keys, k).Some? :: Find(keys, k).value
  }

  function ColumnMap(lengthTypes: set<string>, columns: seq<Column>): map<string, Definition> {
    if |columns| == 0 then map[]
    else ColumnMap(lengthTypes, columns[..|columns| - 1])
         [columns[|columns| - 1].name := DefinitionOf(lengthTypes, columns[|columns| - 1])]
  }

  function SchemaOf(lengthTypes: set<string>, t: Table): Schema {
    Schema(t.name, ColumnMap(lengthTypes, t.columns), t.primaryKey, KeyMap(DropOrder(t)), t.comment.GetOr(""))
  }

  /* ---------- The comparisons ---------- */

  predicate SameColumn(a: Column, b: Column) {
    && Lower(a.typ) == Lower(b.typ)
    && a.length.GetOr("") == b.length.GetOr("")
    && a.unsigned == b.unsigned
    && a.nullable == b.nullable
    && a.default.GetOr("") == b.default.GetOr("")
    && a.autoIncrement == b.autoIncrement
    && (if a.generated.Some? then a.generated.value.expression else "")
       == (if b.generated.Some? then b.generated.value.expression else "")
    && (a.generated.Some? && a.generated.value.stored) == (b.generated.Some? && b.generated.value.stored)
    && a.comment.GetOr("") == b.comment.GetOr("")
  }

  predicate SameForeignKey(a: ForeignKey, b: ForeignKey) {
    && a.columns == b.columns
    && a.refTable == b.refTable
    && a.refSchema.GetOr("") == b.refSchema.GetOr("")
    && a.refColumns == b.refColumns
    && a.onDelete.GetOr("NO ACTION") == b.onDelete.GetOr("NO ACTION")
    && a.onUpdate.GetOr("NO ACTION") == b.onUpdate.GetOr("NO ACTION")
  }

  predicate SameIndex(a: Index, b: Index) {
    && a.unique == b.unique
    && Upper(a.using.GetOr("")) == Upper(b.using.GetOr(""))
    && a.filter.GetOr("") == b.filter.GetOr("")
    && |a.columns| == |b.columns|
    && forall i :: 0 <= i < |a.columns| ==>
         a.columns[i].name == b.columns[i].name && a.columns[i].order.GetOr("ASC") == b.columns[i].order.GetOr("ASC")
  }
}
