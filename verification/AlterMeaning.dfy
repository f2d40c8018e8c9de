/**
 What the ALTER script means, said of the fields of the two designs: the table it ends in, and what it leaves
 alone. The helpers the script is built with are characterised by what they are for.
 */
module AlterMeaning {
  import opened Wrappers
  import opened Letters
  import opened Texts
  import opened TableDesign
  import opened AlterTable
  import Numerals

  /* ---------- Names and types ---------- */

  // A blank of ASCII.
  predicate Blank(c: char) {
    c == ' ' || c == '\t' || c == '\n' || c == '\r' || c == '\U{000b}' || c == '\U{000c}'
  }

  /** Trimming leaves out exactly the blanks at the ends: it gives `s[i..j]`. */
  lemma {:induction false} TrimIs(s: string) returns (i: nat, j: nat)
    ensures i <= j <= |s| && Trim(s) == s[i..j]
    ensures (forall k :: 0 <= k < i || j <= k < |s| ==> Blank(s[k])) && (i < j ==> !Blank(s[i]) && !Blank(s[j - 1]))
    decreases |s|
  {
    if s != "" && IsBlank(s[0]) {
      var t := s[1..];
      var a, b := TrimIs(t);
      i, j := a + 1, b + 1;
      assert forall k :: 0 < k < |s| ==> s[k] == t[k - 1];
      assert s[i..j] == t[a..b];
    } else if s != "" && IsBlank(s[|s| - 1]) {
      var t := s[..|s| - 1];
      i, j := TrimIs(t);
      assert forall k :: 0 <= k < |t| ==> s[k] == t[k];
      assert s[i..j] == t[i..j];
    } else {
      i, j := 0, |s|;
    }
  }

  predicate IsAlphanumeric(c: char) {
    'a' <= LowerChar(c) <= 'z' || Numerals.IsDigit(c)
  }

  // The words of a text: its longest runs of ASCII letters and digits.
  function Words(s: string): (r: seq<string>)
    ensures forall i :: 0 <= i < |r| ==> r[i] != ""
    decreases |s|
  {
    if s == "" then []
    else if !IsAlphanumeric(s[0]) then Words(s[1..])
    else if |s| == 1 || !IsAlphanumeric(s[1]) then [s[..1]] + Words(s[1..])
    else
      var more := Words(s[1..]);
      if more == [] then [] else [[s[0]] + more[0]] + more[1..]
  }

  function Joined(words: seq<string>): string {
    if words == [] then "" else Join('_', words)
  }

  lemma {:induction false} WordsThere(s: string)
    requires s != "" && IsAlphanumeric(s[0])
    ensures Words(s) != []
  {
    if |s| > 1 && IsAlphanumeric(s[1]) {
      WordsThere(s[1..]);
    }
  }

  function Lead(s: string, inRun: bool): string {
    if s != "" && !IsAlphanumeric(s[0]) && !inRun then "_" else ""
  }

  function Trail(s: string): string {
    if Words(s) != [] && !IsAlphanumeric(s[|s| - 1]) then "_" else ""
  }

  lemma JoinFirst(first: string, more: seq<string>)
    ensures Joined([first] + more) == if more == [] then first else first + "_" + Joined(more)
  {
    assert ([first] + more)[1..] == more;
  }

  lemma JoinLonger(c: char, words: seq<string>)
    requires words != []
    ensures Joined([[c] + words[0]] + words[1..]) == [c] + Joined(words)
  {
    assert words == [words[0]] + words[1..];
    JoinFirst([c] + words[0], words[1..]);
    JoinFirst(words[0], words[1..]);
    if words[1..] != [] {
      assert [c] + words[0] + "_" + Joined(words[1..]) == [c] + (words[0] + "_" + Joined(words[1..]));
    }
  }

  lemma UnderscoredStep(s: string, inRun: bool)
    ensures s == "" ==> Underscored(s, inRun) == ""
    ensures s != "" && IsAlphanumeric(s[0]) ==> Underscored(s, inRun) == [s[0]] + Underscored(s[1..], false)
    ensures s != "" && !IsAlphanumeric(s[0]) ==> Underscored(s, inRun) == (if inRun then "" else "_") + Underscored(s[1..], true)
  {
  }

  // The first character is a word on its own, or begins a longer one.
  lemma {:induction false} WordsStep(s: string)
    requires s != ""
    ensures !IsAlphanumeric(s[0]) ==> Words(s) == Words(s[1..])
    ensures IsAlphanumeric(s[0]) && (|s| == 1 || !IsAlphanumeric(s[1])) ==> Words(s) == [[s[0]]] + Words(s[1..])
    ensures IsAlphanumeric(s[0]) && |s| > 1 && IsAlphanumeric(s[1]) ==>
              Words(s[1..]) != [] && Words(s) == [[s[0]] + Words(s[1..])[0]] + Words(s[1..])[1..]
  {
    if |s| > 1 && IsAlphanumeric(s[1]) {
      WordsThere(s[1..]);
    }
    assert s[..1] == [s[0]];
  }

  lemma {:induction false} UnderscoredIs(s: string, inRun: bool)
    ensures Underscored(s, inRun) == Lead(s, inRun) + Joined(Words(s)) + Trail(s)
    decreases |s|
  {
    hide Joined, Words, Underscored, IsAlphanumeric;
    NothingJoined();
    UnderscoredStep(s, inRun);
    if s == "" {
      assert Words("") == [] by {
        NoText();
      }
    } else {
      var t := s[1..];
      UnderscoredIs(t, !IsAlphanumeric(s[0]));
      WordsStep(s);
      if !IsAlphanumeric(s[0]) {
        SameTrail(s);
      } else if |s| > 1 && IsAlphanumeric(s[1]) {
        JoinLonger(s[0], Words(t));
        assert Underscored(s, inRun) == [s[0]] + (Joined(Words(t)) + Trail(t));
      } else {
        JoinFirst([s[0]], Words(t));
        NoText();
        if t == "" {
          assert Underscored(t, false) == "";
        } else if Words(t) == [] {
          NoWords(t);
          assert Underscored(t, false) == "_";
          assert Joined(Words(s)) == [s[0]] && Trail(s) == "_";
        } else {
          assert Underscored(t, false) == "_" + Joined(Words(t)) + Trail(t);
          assert Joined(Words(s)) == [s[0]] + "_" + Joined(Words(t)) && Trail(s) == Trail(t);
        }
      }
    }
  }

  lemma NoText()
    ensures Words("") == []
  {
  }

  lemma {:induction false} SameTrail(s: string)
    requires s != "" && !IsAlphanumeric(s[0])
    ensures Trail(s) == Trail(s[1..])
  {
    if |s| == 1 {
      NoText();
    }
  }

  lemma NothingJoined()
    ensures Joined([]) == ""
  {
  }

  lemma {:induction false} NoWords(s: string)
    requires Words(s) == [] && s != ""
    ensures !IsAlphanumeric(s[0]) && !IsAlphanumeric(s[|s| - 1])
  {
    if IsAlphanumeric(s[0]) {
      WordsThere(s);
    } else if |s| > 1 {
      NoWords(s[1..]);
    }
  }

  // A name as it stands in the names of constraints: its words, joined by underscores.
  lemma {:induction false} SlugJoinsWords(s: string)
    ensures Slug(s) == Joined(Words(s))
  {
    UnderscoredIs(s, false);
    JoinedIsBare(s);
    hide Underscored, Words, Joined, Unpadded;
    UnpaddedIs(Lead(s, false), Joined(Words(s)), Trail(s));
  }

  lemma {:induction false} WordsAreWords(s: string)
    ensures forall i, k :: 0 <= i < |Words(s)| && 0 <= k < |Words(s)[i]| ==> IsAlphanumeric(Words(s)[i][k])
  {
    if s != "" {
      WordsAreWords(s[1..]);
    }
  }

  lemma {:induction false} JoinedEnds(words: seq<string>)
    requires words != [] && (forall i :: 0 <= i < |words| ==> words[i] != "")
    ensures var r := Joined(words);
            r != "" && r[0] == words[0][0] && r[|r| - 1] == words[|words| - 1][|words[|words| - 1]| - 1]
  {
    if |words| > 1 {
      JoinedEnds(words[1..]);
    }
  }

  lemma {:induction false} JoinedIsBare(s: string)
    ensures var r := Joined(Words(s)); if r == "" then Words(s) == [] else r[0] != '_' && r[|r| - 1] != '_'
  {
    hide Joined;
    NothingJoined();
    WordsAreWords(s);
    if Words(s) != [] {
      JoinedEnds(Words(s));
    }
  }

  lemma UnpaddedIs(a: string, r: string, b: string)
    requires (a == "" || a == "_") && (b == "" || b == "_") && (r != "" ==> r[0] != '_' && r[|r| - 1] != '_')
    requires r == "" ==> b == ""
    ensures Unpadded(a + r + b) == r
  {
    var s, t := a + r + b, r + b;
    assert Unpadded(r) == r;
    if b == "" {
      assert t == r;
    } else {
      assert t[..|t| - 1] == r && t[0] != '_' && t[|t| - 1] == '_';
      assert Unpadded(t) == Unpadded(r);
    }
    if a == "" {
      assert s == t;
    } else {
      assert s[1..] == t && s[0] == '_';
    }
  }

  /* ---------- The names of constraints ---------- */

  function Labels(names: seq<string>): seq<string> {
    seq(|names|, i requires 0 <= i < |names| => Joined(Words(names[i])))
  }

  lemma {:induction false} SlugsJoinLabels(names: seq<string>)
    ensures Slugs(names) == Joined(Labels(names))
  {
    hide Words;
    if names != [] {
      SlugJoinsWords(names[0]);
      SlugsJoinLabels(names[1..]);
      assert Labels(names) == [Joined(Words(names[0]))] + Labels(names[1..]);
      JoinFirst(Joined(Words(names[0])), Labels(names[1..]));
    }
  }

  // The name a constraint gets that has none: at most 60 characters of its kind, its table and its columns.
  predicate IsAutoName(n: string, prefix: string, table: string, columns: seq<string>) {
    var full := prefix + "_" + Joined(Words(table)) + "_" + Joined(Labels(columns));
    n <= full && |n| == if |full| < 60 then |full| else 60
  }

  lemma AutoNameIs(prefix: string, table: string, columns: seq<string>)
    ensures IsAutoName(AutoName(prefix, table, columns), prefix, table, columns)
  {
    hide Words, Joined, Slug, Slugs;
    SlugJoinsWords(table);
    SlugsJoinLabels(columns);
  }

  // A name is the one that was given, as far as one was given.
  predicate IsGiven(name: Option<string>, n: string) {
    name == Some(n) && n != ""
  }

  predicate NoneGiven(name: Option<string>) {
    name == None || name == Some("")
  }

  predicate IsForeignName(t: Table, k: ForeignKey, n: string) {
    IsGiven(k.name, n) || (NoneGiven(k.name) && IsAutoName(n, "fk", t.name, k.columns))
  }

  predicate IsUniqueName(t: Table, k: Unique, n: string) {
    IsGiven(k.name, n) || (NoneGiven(k.name) && IsAutoName(n, "uq", t.name, k.columns))
  }

  predicate IsCheckName(t: Table, k: Check, place: nat, n: string) {
    IsGiven(k.name, n) || (NoneGiven(k.name) && n == "ck_" + Joined(Words(t.name)) + "_" + Numerals.Digits(place + 1))
  }

  lemma AutoNameOnly(n: string, prefix: string, table: string, columns: seq<string>)
    ensures IsAutoName(n, prefix, table, columns) <==> n == AutoName(prefix, table, columns)
  {
    hide Words, Joined, Slug, Slugs;
    AutoNameIs(prefix, table, columns);
    var full := prefix + "_" + Joined(Words(table)) + "_" + Joined(Labels(columns));
    if IsAutoName(n, prefix, table, columns) {
      assert n == full[..|n|];
      assert AutoName(prefix, table, columns) == full[..|n|];
    }
  }

  lemma ForeignNameIs(t: Table, k: ForeignKey, n: string)
    ensures IsForeignName(t, k, n) <==> n == ForeignKeyName(t, k)
  {
    hide AutoName, IsAutoName;
    AutoNameOnly(n, "fk", t.name, k.columns);
  }

  lemma UniqueNameIs(t: Table, k: Unique, n: string)
    ensures IsUniqueName(t, k, n) <==> n == UniqueName(t, k)
  {
    hide AutoName, IsAutoName;
    AutoNameOnly(n, "uq", t.name, k.columns);
  }

  lemma CheckNameIs(t: Table, k: Check, place: nat, n: string)
    ensures IsCheckName(t, k, place, n) <==> n == CheckName(t, k, place)
  {
    hide Words, Joined, Slug;
    SlugJoinsWords(t.name);
  }

  /* ---------- What a design says of its table ---------- */

  // The value of an optional text, where an absent one is the same as an empty one.
  predicate IsTextOf(o: Option<string>, text: string) {
    o == Some(text) || (o == None && text == "")
  }

  // A column as the server keeps it.
  ghost predicate IsColumn(lengthTypes: set<string>, c: Column, d: Definition) {
    && d.typ == Trim(Lower(c.typ))
    && (forall l :: d.length == Some(l) <==> c.length == Some(l) && l != "" && d.typ in lengthTypes)
    && d.unsigned == c.unsigned
    && d.generated == c.generated
    && (c.generated.None? ==> (d.notNull <==> !c.nullable || c.autoIncrement))
    && (c.generated.Some? ==> (d.notNull <==> !c.nullable))
    && (forall x :: d.default == Some(x) <==> c.default == Some(x) && x != "" && !c.autoIncrement && c.generated.None?)
    && (d.autoIncrement <==> c.autoIncrement && c.generated.None?)
    && IsTextOf(c.comment, d.comment)
  }

  lemma DefinitionIs(lengthTypes: set<string>, c: Column, d: Definition)
    ensures IsColumn(lengthTypes, c, d) <==> d == DefinitionOf(lengthTypes, c)
  {
    hide Trim, Lower;
    var e := DefinitionOf(lengthTypes, c);
    assert IsColumn(lengthTypes, c, e);
    if IsColumn(lengthTypes, c, d) {
      SameOption(d.length, e.length);
      SameOption(d.default, e.default);
    }
  }

  lemma SameOption(a: Option<string>, b: Option<string>)
    requires forall x :: a == Some(x) <==> b == Some(x)
    ensures a == b
  {
    if a.Some? {
      assert a == Some(a.value);
    } else if b.Some? {
      assert b == Some(b.value);
    }
  }

  // What a foreign key does, where none is the same as NO ACTION.
  predicate IsAction(o: Option<string>, action: string) {
    o == Some(action) || (o == None && action == "NO ACTION")
  }

  predicate IsForeignKey(k: ForeignKey, b: Body) {
    && b.columns == k.columns && b.facts.ForeignFacts?
    && b.facts.refTable == k.refTable && b.facts.refColumns == k.refColumns && IsTextOf(k.refSchema, b.facts.refSchema)
    && IsAction(k.onDelete, b.facts.onDelete) && IsAction(k.onUpdate, b.facts.onUpdate)
  }

  predicate IsUnique(k: Unique, b: Body) {
    b.columns == k.columns && b.facts == UniqueFacts
  }

  predicate IsCheck(k: Check, b: Body) {
    b.columns == [] && b.facts.CheckFacts? && b.facts.expression == k.expression
  }

  predicate IsIndex(x: Index, b: Body) {
    && b.facts.IndexFacts? && |b.columns| == |b.facts.orders| == |x.columns|
    && (forall i :: 0 <= i < |x.columns| ==>
          && b.columns[i] == x.columns[i].name
          && (x.columns[i].order == Some(b.facts.orders[i]) || (x.columns[i].order == None && b.facts.orders[i] == "ASC")))
    && b.facts.unique == x.unique && b.facts.using == Upper(x.using.GetOr("")) && IsTextOf(x.filter, b.facts.filter)
  }

  // A key of the table is one the design has, under its name and with its facts.
  predicate HasKey(t: Table, x: KeyName, b: Body) {
    match x.kind
    case KForeign => exists i :: 0 <= i < |t.foreignKeys| && IsForeignName(t, t.foreignKeys[i], x.name) && IsForeignKey(t.foreignKeys[i], b)
    case KUnique => exists i :: 0 <= i < |t.uniques| && IsUniqueName(t, t.uniques[i], x.name) && IsUnique(t.uniques[i], b)
    case KCheck => exists i :: 0 <= i < |t.checks| && IsCheckName(t, t.checks[i], i, x.name) && IsCheck(t.checks[i], b)
    case KIndex => exists i :: 0 <= i < |t.indexes| && t.indexes[i].name == x.name && IsIndex(t.indexes[i], b)
  }

  // The table is the one the design describes.
  ghost predicate Describes(lengthTypes: set<string>, t: Table, s: Schema) {
    && s.name == t.name && s.primaryKey == t.primaryKey && IsTextOf(t.comment, s.comment)
    && (forall n :: n in s.columns ==> HasColumn(t.columns, n))
    && (forall i :: 0 <= i < |t.columns| ==>
          t.columns[i].name in s.columns && IsColumn(lengthTypes, t.columns[i], s.columns[t.columns[i].name]))
    && (forall x, b :: x in s.keys && s.keys[x] == b <==> HasKey(t, x, b))
  }

  lemma ForeignIs(k: ForeignKey, b: Body)
    ensures IsForeignKey(k, b) <==> b == ForeignBodyOf(k)
  {
  }

  lemma IndexIs(x: Index, b: Body)
    ensures IsIndex(x, b) <==> b == IndexBodyOf(x)
  {
    hide Upper;
    var e := IndexBodyOf(x);
    assert IsIndex(x, e);
    if IsIndex(x, b) {
      assert b.columns == e.columns;
      assert b.facts.orders == e.facts.orders;
    }
  }

  lemma {:induction false} ForeignThere(t: Table, n: string, b: Body)
    ensures Key(KeyName(KForeign, n), b) in DropOrder(t) <==> HasKey(t, KeyName(KForeign, n), b)
  {
    hide ForeignKeyName, IsForeignName, IsForeignKey, ForeignBodyOf;
    var key := Key(KeyName(KForeign, n), b);
    forall i | 0 <= i < |t.foreignKeys|
      ensures ForeignKeys(t)[i] == key <==> IsForeignName(t, t.foreignKeys[i], n) && IsForeignKey(t.foreignKeys[i], b)
    {
      ForeignNameIs(t, t.foreignKeys[i], n);
      ForeignIs(t.foreignKeys[i], b);
    }
    assert key in DropOrder(t) <==> key in ForeignKeys(t);
    if key in ForeignKeys(t) {
      var i :| 0 <= i < |ForeignKeys(t)| && ForeignKeys(t)[i] == key;
      assert IsForeignName(t, t.foreignKeys[i], n);
    }
    if HasKey(t, KeyName(KForeign, n), b) {
      var i :| 0 <= i < |t.foreignKeys| && IsForeignName(t, t.foreignKeys[i], n) && IsForeignKey(t.foreignKeys[i], b);
      assert ForeignKeys(t)[i] == key;
    }
  }

  lemma {:induction false} UniqueThere(t: Table, n: string, b: Body)
    ensures Key(KeyName(KUnique, n), b) in DropOrder(t) <==> HasKey(t, KeyName(KUnique, n), b)
  {
    hide UniqueName, IsUniqueName;
    var key := Key(KeyName(KUnique, n), b);
    forall i | 0 <= i < |t.uniques|
      ensures Uniques(t)[i] == key <==> IsUniqueName(t, t.uniques[i], n) && IsUnique(t.uniques[i], b)
    {
      UniqueNameIs(t, t.uniques[i], n);
    }
    assert key in DropOrder(t) <==> key in Uniques(t);
    if key in Uniques(t) {
      var i :| 0 <= i < |Uniques(t)| && Uniques(t)[i] == key;
      assert IsUniqueName(t, t.uniques[i], n);
    }
    if HasKey(t, KeyName(KUnique, n), b) {
      var i :| 0 <= i < |t.uniques| && IsUniqueName(t, t.uniques[i], n) && IsUnique(t.uniques[i], b);
      assert Uniques(t)[i] == key;
    }
  }

  lemma {:induction false} CheckThere(t: Table, n: string, b: Body)
    ensures Key(KeyName(KCheck, n), b) in DropOrder(t) <==> HasKey(t, KeyName(KCheck, n), b)
  {
    hide CheckName, IsCheckName;
    var key := Key(KeyName(KCheck, n), b);
    forall i | 0 <= i < |t.checks|
      ensures Checks(t)[i] == key <==> IsCheckName(t, t.checks[i], i, n) && IsCheck(t.checks[i], b)
    {
      CheckNameIs(t, t.checks[i], i, n);
    }
    assert key in DropOrder(t) <==> key in Checks(t);
    if key in Checks(t) {
      var i :| 0 <= i < |Checks(t)| && Checks(t)[i] == key;
      assert IsCheckName(t, t.checks[i], i, n);
    }
    if HasKey(t, KeyName(KCheck, n), b) {
      var i :| 0 <= i < |t.checks| && IsCheckName(t, t.checks[i], i, n) && IsCheck(t.checks[i], b);
      assert Checks(t)[i] == key;
    }
  }

  lemma {:induction false} IndexThere(t: Table, n: string, b: Body)
    ensures Key(KeyName(KIndex, n), b) in DropOrder(t) <==> HasKey(t, KeyName(KIndex, n), b)
  {
    hide IsIndex, IndexBodyOf;
    var key := Key(KeyName(KIndex, n), b);
    forall i | 0 <= i < |t.indexes|
      ensures Indexes(t)[i] == key <==> t.indexes[i].name == n && IsIndex(t.indexes[i], b)
    {
      IndexIs(t.indexes[i], b);
    }
    assert key in DropOrder(t) <==> key in Indexes(t);
    if key in Indexes(t) {
      var i :| 0 <= i < |Indexes(t)| && Indexes(t)[i] == key;
      assert t.indexes[i].name == n;
    }
    if HasKey(t, KeyName(KIndex, n), b) {
      var i :| 0 <= i < |t.indexes| && t.indexes[i].name == n && IsIndex(t.indexes[i], b);
      assert Indexes(t)[i] == key;
    }
  }

  lemma {:induction false} KeyThere(t: Table, x: KeyName, b: Body)
    ensures Key(x, b) in DropOrder(t) <==> HasKey(t, x, b)
  {
    hide HasKey, DropOrder;
    match x.kind
    case KForeign => ForeignThere(t, x.name, b);
    case KUnique => UniqueThere(t, x.name, b);
    case KCheck => CheckThere(t, x.name, b);
    case KIndex => IndexThere(t, x.name, b);
  }

  lemma {:induction false} KeysAre(t: Table, x: KeyName, b: Body)
    requires Valid(t)
    ensures x in KeyMap(DropOrder(t)) && KeyMap(DropOrder(t))[x] == b <==> HasKey(t, x, b)
  {
    hide HasKey, ForeignKeys, Uniques, Checks, Indexes, Find;
    var all := DropOrder(t);
    KeyThere(t, x, b);
    InKeyMap(all);
    if Key(x, b) in all {
      var i :| 0 <= i < |all| && all[i] == Key(x, b);
      assert all[i].key in KeyMap(all);
      SameKeySameBody(all, Key(x, b), Key(x, KeyMap(all)[x]));
    }
  }

  /** `CREATE TABLE` gives a design the one table it describes. */
  lemma {:induction false} SchemaIs(lengthTypes: set<string>, t: Table, s: Schema)
    requires Valid(t)
    ensures Describes(lengthTypes, t, s) <==> s == SchemaOf(lengthTypes, t)
  {
    hide HasKey, IsColumn, KeyMap, DropOrder, DefinitionOf, NoClash;
    var e := SchemaOf(lengthTypes, t);
    ColumnMapHolds(lengthTypes, t.columns);
    forall i | 0 <= i < |t.columns|
      ensures t.columns[i].name in e.columns && e.columns[t.columns[i].name] == DefinitionOf(lengthTypes, t.columns[i])
    {
      assert t.columns[i] in t.columns;
    }
    forall i, d | 0 <= i < |t.columns| ensures IsColumn(lengthTypes, t.columns[i], d) <==> d == DefinitionOf(lengthTypes, t.columns[i]) {
      DefinitionIs(lengthTypes, t.columns[i], d);
    }
    forall x, b ensures x in e.keys && e.keys[x] == b <==> HasKey(t, x, b) {
      KeysAre(t, x, b);
    }
    forall n ensures n in e.columns <==> HasColumn(t.columns, n) {
    }
    assert Describes(lengthTypes, t, e);
    if Describes(lengthTypes, t, s) {
      forall n ensures n in s.columns <==> n in e.columns {
      }
      assert s.columns == e.columns;
      forall x ensures (x in s.keys <==> x in e.keys) && (x in s.keys ==> s.keys[x] == e.keys[x]) {
        if x in s.keys {
          assert HasKey(t, x, s.keys[x]);
        }
        if x in e.keys {
          assert HasKey(t, x, e.keys[x]);
        }
      }
      assert s.keys == e.keys;
    }
  }

  /**
   On any table the first design describes, the script ends in a table the second describes exactly when the
   renames are in order, no key that stays names a dropped column, and no index is created while the
   table is renamed; otherwise the server refuses one of its statements.
   */
  lemma {:induction false} AlterMeans(lengthTypes: set<string>, before: Table, after: Table, s: Schema)
    requires Valid(before) && Valid(after) && Describes(lengthTypes, before, s)
    ensures var t := Exec(s, AlterStatements(lengthTypes, before, after));
            if && KeptKeysKeepColumns(before, after)
               && Free(Moves(lengthTypes, before.columns, after.columns))
               && IndexesFindTable(before, after)
            then t.Some? && Describes(lengthTypes, after, t.value) else t == None
  {
    hide Describes, SchemaOf, AlterStatements, Exec, Valid, KeptKeysKeepColumns, Free, IndexesFindTable;
    SchemaIs(lengthTypes, before, s);
    AlterReachesAfter(lengthTypes, before, after);
    SchemaIs(lengthTypes, after, SchemaOf(lengthTypes, after));
  }

  /* ---------- What the script leaves alone ---------- */

  lemma {:induction false} DropsAre(m: map<string, string>, befores: seq<Key>, afters: seq<Key>, x: Statement)
    ensures x in DropKeys(m, befores, afters) <==>
            x.DropKey? && exists k :: k in befores && k.key == x.key && !Survives(m, k, afters)
  {
    hide Survives;
    if befores != [] {
      var n := |befores| - 1;
      DropsAre(m, befores[..n], afters, x);
      assert befores == befores[..n] + [befores[n]];
    }
  }

  lemma {:induction false} AddsAre(m: map<string, string>, table: string, afters: seq<Key>, befores: seq<Key>, x: Statement)
    ensures x in AddKeys(m, table, afters, befores) <==>
            exists k :: k in afters && x == AddStatement(table, k) && !Settled(m, k, befores)
  {
    hide Settled;
    if afters != [] {
      var n := |afters| - 1;
      AddsAre(m, table, afters[..n], befores, x);
      assert afters == afters[..n] + [afters[n]];
    }
  }

  lemma {:induction false} ColumnDropsAre(before: seq<Column>, after: seq<Column>, x: Statement)
    ensures x in DropColumns(before, after) <==>
            x.DropColumn? && exists c :: c in before && c.name == x.name && forall d :: d in after ==> d.id != c.id
  {
    if before != [] {
      var n := |before| - 1;
      ColumnDropsAre(before[..n], after, x);
      assert before == before[..n] + [before[n]];
      assert FindColumn(after, before[n].id).None? <==> forall d :: d in after ==> d.id != before[n].id;
    }
  }

  lemma {:induction false} ColumnAddsAre(lengthTypes: set<string>, before: seq<Column>, after: seq<Column>, x: Statement)
    ensures x in AddColumns(lengthTypes, before, after) <==>
            x.AddColumn? && exists c :: c in after && c.name == x.name && IsColumn(lengthTypes, c, x.definition)
                                        && forall d :: d in before ==> d.id != c.id
  {
    hide IsColumn, DefinitionOf;
    if after != [] {
      var n := |after| - 1;
      ColumnAddsAre(lengthTypes, before, after[..n], x);
      assert after == after[..n] + [after[n]];
      assert FindColumn(before, after[n].id).None? <==> forall d :: d in before ==> d.id != after[n].id;
      if x.AddColumn? {
        DefinitionIs(lengthTypes, after[n], x.definition);
      }
    }
  }

  // Two columns that say the same, where letter case of a type and empty texts do not count.
  predicate Alike(a: Column, b: Column) {
    && Lower(a.typ) == Lower(b.typ) && AlikeText(a.length, b.length) && a.unsigned == b.unsigned && a.nullable == b.nullable
    && AlikeText(a.default, b.default) && a.autoIncrement == b.autoIncrement && AlikeText(a.comment, b.comment)
    && (a.generated == b.generated || (Nothing(a.generated) && Nothing(b.generated)))
  }

  predicate AlikeText(a: Option<string>, b: Option<string>) {
    a == b || (a == None && b == Some("")) || (a == Some("") && b == None)
  }

  predicate Nothing(g: Option<Generated>) {
    g == None || g == Some(Generated("", false))
  }

  lemma AlikeIsSame(a: Column, b: Column)
    ensures Alike(a, b) <==> SameColumn(a, b)
  {
    hide Lower;
  }

  // A statement for a column that both designs have.
  predicate IsColumnChange(lengthTypes: set<string>, before: seq<Column>, c: Column, x: Statement) {
    match FindColumn(before, c.id)
    case None => false
    case Some(prior) =>
      if prior.name != c.name then x.ChangeColumn? && x.oldName == prior.name && x.name == c.name && x.definition == DefinitionOf(lengthTypes, c)
      else x.ModifyColumn? && x.name == c.name && x.definition == DefinitionOf(lengthTypes, c) && !Alike(prior, c)
  }

  lemma {:induction false} ColumnChangesAre(lengthTypes: set<string>, before: seq<Column>, after: seq<Column>, x: Statement)
    ensures x in ColumnChanges(lengthTypes, before, after) <==>
            exists c :: c in after && IsColumnChange(lengthTypes, before, c, x)
  {
    hide DefinitionOf, FindColumn, Alike, SameColumn;
    if after != [] {
      var n := |after| - 1;
      ColumnChangesAre(lengthTypes, before, after[..n], x);
      assert after == after[..n] + [after[n]];
      if FindColumn(before, after[n].id).Some? {
        AlikeIsSame(FindColumn(before, after[n].id).value, after[n]);
      }
      assert x in ColumnChange(lengthTypes, before, after[n]) <==> IsColumnChange(lengthTypes, before, after[n], x);
    }
  }

  // The renames the script makes.
  predicate IsRename(before: seq<Column>, after: seq<Column>, from: string, to: string) {
    from != to && exists a, b :: a in before && b in after && a.id == b.id && a.name == from && b.name == to
  }

  lemma {:induction false} RenamesMade(before: seq<Column>, after: seq<Column>, from: string)
    ensures from in Renames(before, after) ==> IsRename(before, after, from, Renames(before, after)[from])
  {
    hide FindColumn;
    if after != [] {
      var n := |after| - 1;
      var c := after[n];
      RenamesMade(before, after[..n], from);
      assert after == after[..n] + [c];
      if FindColumn(before, c.id).Some? && FindColumn(before, c.id).value.name == from && from != c.name {
        assert IsRename(before, after, from, c.name);
      }
    }
  }

  lemma {:induction false} RenameKept(before: seq<Column>, after: seq<Column>, a: Column, b: Column)
    requires DistinctColumns(before) && DistinctColumns(after)
    requires a in before && b in after && a.id == b.id && a.name != b.name
    ensures a.name in Renames(before, after) && Renames(before, after)[a.name] == b.name
  {
    hide FindColumn, DistinctColumns;
    var n := |after| - 1;
    var c := after[n];
    assert after == after[..n] + [c];
    FoundById(before, a);
    if b != c {
      FrontDistinct(after);
      RenameKept(before, after[..n], a, b);
      OtherName(before, after, b, c, a);
    }
  }

  lemma FrontDistinct(columns: seq<Column>)
    requires DistinctColumns(columns) && columns != []
    ensures DistinctColumns(columns[..|columns| - 1])
  {
  }

  lemma {:induction false} RenamesAre(before: seq<Column>, after: seq<Column>, from: string)
    requires DistinctColumns(before) && DistinctColumns(after)
    ensures from in Renames(before, after) ==> IsRename(before, after, from, Renames(before, after)[from])
    ensures forall to :: IsRename(before, after, from, to) ==> from in Renames(before, after) && Renames(before, after)[from] == to
  {
    hide Renames, DistinctColumns;
    RenamesMade(before, after, from);
    forall to | IsRename(before, after, from, to) ensures from in Renames(before, after) && Renames(before, after)[from] == to {
      var a, b :| a in before && b in after && a.id == b.id && a.name == from && b.name == to;
      RenameKept(before, after, a, b);
    }
  }

  lemma {:induction false} FoundById(columns: seq<Column>, c: Column)
    requires DistinctColumns(columns) && c in columns
    ensures FindColumn(columns, c.id) == Some(c)
  {
    var n := |columns| - 1;
    assert columns == columns[..n] + [columns[n]];
    if columns[n].id != c.id {
      FoundById(columns[..n], c);
    }
  }

  // Another column of the new design comes from another column of the old one.
  lemma OtherName(before: seq<Column>, after: seq<Column>, b: Column, c: Column, a: Column)
    requires DistinctColumns(before) && DistinctColumns(after) && b in after && c in after && b != c && a in before && a.id == b.id
    ensures FindColumn(before, c.id).Some? ==> FindColumn(before, c.id).value.name != a.name
  {
    var i :| 0 <= i < |after| && after[i] == b;
    var j :| 0 <= j < |after| && after[j] == c;
    if FindColumn(before, c.id).Some? {
      var d := FindColumn(before, c.id).value;
      var k :| 0 <= k < |before| && before[k] == a;
      var l :| 0 <= l < |before| && before[l] == d;
    }
  }

  lemma {:induction false} FoundKey(keys: seq<Key>, x: KeyName, b: Body)
    requires NoClash(keys)
    ensures Find(keys, x) == Some(b) <==> Key(x, b) in keys
  {
    if Key(x, b) in keys {
      SameKeySameBody(keys, Key(x, b), Key(x, Find(keys, x).value));
    }
  }

  // A key of the old design that is as it was, under the new names of its columns.
  predicate KeyStays(before: Table, after: Table, x: KeyName, b: Body) {
    HasKey(before, x, b) && HasKey(after, x, MovedBody(Renames(before.columns, after.columns), b))
  }

  // What a statement of the script is for.
  ghost predicate IsCalledFor(lengthTypes: set<string>, before: Table, after: Table, x: Statement) {
    match x
    case DropKey(k) => exists b :: HasKey(before, k, b) && !KeyStays(before, after, k, b)
    case AddKey(k, b) =>
      k.kind != KIndex && HasKey(after, k, b)
      && !exists was :: KeyStays(before, after, k, was) && MovedBody(Renames(before.columns, after.columns), was) == b
    case CreateIndex(table, k, b) =>
      k.kind == KIndex && table == after.name && HasKey(after, k, b)
      && !exists was :: KeyStays(before, after, k, was) && MovedBody(Renames(before.columns, after.columns), was) == b
    case DropPrimaryKey =>
      before.primaryKey != [] && Moved(Renames(before.columns, after.columns), before.primaryKey) != after.primaryKey
    case AddPrimaryKey(columns) =>
      columns == after.primaryKey != [] && Moved(Renames(before.columns, after.columns), before.primaryKey) != after.primaryKey
    case DropColumn(n) => exists c :: c in before.columns && c.name == n && forall d :: d in after.columns ==> d.id != c.id
    case AddColumn(n, definition) =>
      exists c :: c in after.columns && c.name == n && IsColumn(lengthTypes, c, definition)
                  && forall d :: d in before.columns ==> d.id != c.id
    case CommentTable(text) => IsTextOf(after.comment, text) && !AlikeText(before.comment, after.comment)
    case RenameTable(n) => n == after.name != before.name
    case _ => exists c :: c in after.columns && IsColumnChange(lengthTypes, before.columns, c, x)
  }

  lemma {:induction false} DropCalledFor(before: Table, after: Table, k: KeyName)
    requires Valid(before) && Valid(after)
    ensures var m := Renames(before.columns, after.columns);
            DropKey(k) in DropKeys(m, DropOrder(before), DropOrder(after)) <==>
            exists b :: HasKey(before, k, b) && !KeyStays(before, after, k, b)
  {
    hide HasKey, DropKeys, DropOrder, Find, Renames;
    var m := Renames(before.columns, after.columns);
    DropsAre(m, DropOrder(before), DropOrder(after), DropKey(k));
    forall b ensures Key(k, b) in DropOrder(before) <==> HasKey(before, k, b) {
      KeyThere(before, k, b);
    }
    forall b ensures Survives(m, Key(k, b), DropOrder(after)) <==> HasKey(after, k, MovedBody(m, b)) {
      KeyThere(after, k, MovedBody(m, b));
      FoundKey(DropOrder(after), k, MovedBody(m, b));
    }
    if y :| y in DropOrder(before) && y.key == k && !Survives(m, y, DropOrder(after)) {
      assert y == Key(k, y.body);
    }
  }

  lemma {:induction false} AddCalledFor(before: Table, after: Table, k: KeyName, b: Body)
    requires Valid(before) && Valid(after)
    ensures var m := Renames(before.columns, after.columns);
            AddStatement(after.name, Key(k, b)) in AddKeys(m, after.name, AddOrder(after), DropOrder(before)) <==>
            HasKey(after, k, b) && !exists was :: KeyStays(before, after, k, was) && MovedBody(m, was) == b
  {
    hide HasKey, AddKeys, Find, Renames, ForeignKeys, Uniques, Checks, Indexes;
    var m := Renames(before.columns, after.columns);
    var x := AddStatement(after.name, Key(k, b));
    AddsAre(m, after.name, AddOrder(after), DropOrder(before), x);
    OrdersAgree(after);
    KeyThere(after, k, b);
    forall was ensures Find(DropOrder(before), k) == Some(was) <==> HasKey(before, k, was) {
      KeyThere(before, k, was);
      FoundKey(DropOrder(before), k, was);
    }
    if y :| y in AddOrder(after) && x == AddStatement(after.name, y) && !Settled(m, y, DropOrder(before)) {
      assert y == Key(k, b);
    }
    if HasKey(after, k, b) && !Settled(m, Key(k, b), DropOrder(before)) {
      assert Key(k, b) in AddOrder(after);
    }
  }

  /** Every statement of the script is called for by a difference between the designs, and every difference gets its. */
  lemma {:induction false} ScriptIs(lengthTypes: set<string>, before: Table, after: Table, x: Statement)
    requires Valid(before) && Valid(after)
    ensures x in AlterStatements(lengthTypes, before, after) <==> IsCalledFor(lengthTypes, before, after, x)
  {
    hide DropKeys, AddKeys, DropColumns, ColumnChanges, AddColumns, DropOrder, AddOrder, Renames, HasKey, KeyStays,
      IsColumn, IsColumnChange, Valid;
    var m := Renames(before.columns, after.columns);
    DropsAre(m, DropOrder(before), DropOrder(after), x);
    AddsAre(m, after.name, AddOrder(after), DropOrder(before), x);
    ColumnDropsAre(before.columns, after.columns, x);
    ColumnAddsAre(lengthTypes, before.columns, after.columns, x);
    ColumnChangesAre(lengthTypes, before.columns, after.columns, x);
    ColumnChangeKinds(lengthTypes, before, after, x);
    match x
    case DropKey(k) => DropCalledFor(before, after, k);
    case AddKey(k, b) => AddCalledFor(before, after, k, b);
    case CreateIndex(table, k, b) => AddCalledFor(before, after, k, b);
    case _ =>
  }

  // A change of a column is written for a column both designs have.
  lemma ColumnChangeKinds(lengthTypes: set<string>, before: Table, after: Table, x: Statement)
    ensures x in ColumnChanges(lengthTypes, before.columns, after.columns) ==> x.ChangeColumn? || x.ModifyColumn?
  {
    hide FindColumn, DefinitionOf, ColumnChanges, Alike;
    ColumnChangesAre(lengthTypes, before.columns, after.columns, x);
  }
}
