/**
 Which texts spell which values: arrays, objects, constants, constructors and extended JSON, at every depth.
 The reader of the document editor reads a text as a value exactly when the text spells it.
 */
module ShellValues {
  import opened Wrappers
  import opened Letters
  import opened Numerals
  import opened BsonDocument
  import opened BsonDocumentRoundTrip
  import opened ShellGrammar

  /* ---------- Texts and numbers ---------- */

  function LowerText(s: string): string {
    seq(|s|, i requires 0 <= i < |s| => if 'A' <= s[i] <= 'Z' then (s[i] as int + 32) as char else s[i])
  }

  predicate IsIntegerText(s: string) {
    (s != "" && AreDigits(s)) || (|s| >= 2 && s[0] == '-' && AreDigits(s[1..]))
  }

  function IntegerValue(s: string): int
    requires IsIntegerText(s)
  {
    DigitsAre(s);
    if s[0] == '-' then -(ToNat(s[1..]) as int) else ToNat(s)
  }

  lemma DigitsAre(s: string)
    requires IsIntegerText(s)
    ensures if s[0] == '-' then AllDigits(s[1..]) else AllDigits(s)
  {
  }

  predicate Fits32(s: string) {
    IsIntegerText(s) && -2_147_483_648 <= IntegerValue(s) <= 2_147_483_647
  }

  predicate Fits64(s: string) {
    IsIntegerText(s) && -9_223_372_036_854_775_808 <= IntegerValue(s) <= 9_223_372_036_854_775_807
  }

  predicate IsIdText(s: string) {
    |s| == 24 && forall i :: 0 <= i < 24 ==> IsHexDigit(s[i])
  }

  // A number that stands for itself: an integer of 32 or of 64 bits, or else a finite number.
  predicate NumberMeans(env: Env, s: string, node: Node) {
    if IsIntegerText(s) then (Fits32(s) && node == Int32(s)) || (!Fits32(s) && Fits64(s) && node == Int64(s))
    else node == Double(s) && env.number(s) != "NaN" && env.number(s) != "Infinity" && env.number(s) != "-Infinity"
  }

  predicate IsConstant(c: string, t: string, node: Node) {
    && (t == "" || !GoesOnName(t[0]))
    && ((c == "true" && node == Bool(true)) || (c == "false" && node == Bool(false))
        || ((c == "null" || c == "undefined") && node == Null) || ((c == "NaN" || c == "Infinity") && node == Double(c)))
  }

  predicate IsConstantName(name: string) {
    name == "true" || name == "false" || name == "null" || name == "undefined" || name == "NaN" || name == "Infinity"
  }

  /* ---------- Constructors ---------- */

  // A text, or a number by its text.
  predicate HasText(n: Node, s: string) {
    n == Text(s) || n == Int32(s) || n == Int64(s) || n == Double(s)
  }

  // The date of an argument, from a number or from a text.
  predicate DateMeans(env: Env, n: Node, date: string) {
    match n
    case Int32(v) => env.dateOfNumber(v) == Some(date)
    case Int64(v) => env.dateOfNumber(v) == Some(date)
    case Double(v) => env.dateOfNumber(v) == Some(date)
    case Text(v) => env.dateOf(v) == Some(date)
    case _ => false
  }

  // The number of an argument of a timestamp; what has none counts as 0.
  predicate NumberOfArgument(env: Env, n: Node, number: Number) {
    match n
    case Text(v) => number == env.number(v)
    case Int32(v) => number == env.number(v)
    case Int64(v) => number == env.number(v)
    case Double(v) => number == env.number(v)
    case Decimal128(v) => number == env.number(v)
    case ObjectId(v) => number == env.number(v)
    case Date(v) => number == env.number(v)
    case Uuid(v) => number == env.number(v)
    case Binary(v, _) => number == env.number(v)
    case Bool(b) => number == if b then "1" else "0"
    case _ => number == "0"
  }

  predicate NumberAt(env: Env, args: seq<Node>, i: nat, number: Number) {
    if i < |args| then NumberOfArgument(env, args[i], number) else number == "0"
  }

  // The identifier, or the UUID, that an argument's text gives.
  ghost predicate IdMeans(n: Node, node: Node) {
    exists s :: HasText(n, s) && IsIdText(s) && node == ObjectId(LowerText(s))
  }

  ghost predicate UuidMeans(n: Node, node: Node) {
    exists s :: HasText(n, s) && node == Uuid(LowerText(s))
  }

  ghost predicate ObjectIdMeans(args: seq<Node>, node: Node) {
    if args == [] then node == ObjectId("000000000000000000000000")
    else IdMeans(args[0], node)
  }

  predicate DateCallMeans(env: Env, args: seq<Node>, node: Node) {
    if args == [] then node == Date(env.now) else node.Date? && DateMeans(env, args[0], node.v)
  }

  predicate BinaryMeans(env: Env, args: seq<Node>, node: Node) {
    && |args| >= 2 && node.Binary? && HasText(args[1], node.v)
    && (if args[0].Int32? || args[0].Int64? then node.subtype == env.number(args[0].v) else node.subtype == "0")
  }

  predicate RegexMeans(args: seq<Node>, node: Node) {
    && args != [] && node.Regex? && HasText(args[0], node.pattern)
    && node.flags == if |args| >= 2 && args[1].Text? then args[1].v else ""
  }

  // What a constructor makes of its arguments; what follows the arguments it looks at is ignored.
  ghost predicate ConstructorMeans(env: Env, name: string, args: seq<Node>, node: Node) {
    if name == "ObjectId" then ObjectIdMeans(args, node)
    else if name == "ISODate" || name == "Date" then DateCallMeans(env, args, node)
    else if name == "NumberInt" then args != [] && node.Int32? && HasText(args[0], node.v) && Fits32(node.v)
    else if name == "NumberLong" then args != [] && node.Int64? && HasText(args[0], node.v) && Fits64(node.v)
    else if name == "NumberDecimal" then args != [] && node.Decimal128? && HasText(args[0], node.v)
    else if name == "Double" then args != [] && node.Double? && HasText(args[0], node.v)
    else if name == "UUID" then args != [] && UuidMeans(args[0], node)
    else if name == "BinData" then BinaryMeans(env, args, node)
    else if name == "Timestamp" then
      node.Timestamp? && NumberAt(env, args, 0, node.seconds) && NumberAt(env, args, 1, node.increment)
    else if name == "MinKey" then node == MinKey
    else if name == "MaxKey" then node == MaxKey
    else if name == "RegExp" then RegexMeans(args, node)
    else false
  }

  /* ---------- Extended JSON ---------- */

  // The first field of a name.
  predicate IsFirst(entries: seq<Entry>, key: string, value: Node) {
    exists i :: 0 <= i < |entries| && entries[i] == Entry(key, value) && forall j :: 0 <= j < i ==> entries[j].key != key
  }

  // An object of one field whose name and value are those of extended JSON, and the value it stands for.
  ghost predicate ExtendedForm(env: Env, key: string, value: Node, node: Node) {
    if key == "$oid" then IdMeans(value, node)
    else if key == "$date" then
      if value.Object? then
        node.Date? && exists v :: IsFirst(value.entries, "$numberLong", Text(v)) && env.dateOfNumber(v) == Some(node.v)
      else
        node.Date? && (DateMeans(env, value, node.v) || ((forall s :: !HasText(value, s)) && env.dateOf("") == Some(node.v)))
    else if key == "$numberInt" then node.Int32? && HasText(value, node.v) && IsIntegerText(node.v)
    else if key == "$numberLong" then node.Int64? && HasText(value, node.v) && IsIntegerText(node.v)
    else if key == "$numberDouble" then node.Double? && HasText(value, node.v)
    else if key == "$numberDecimal" then node.Decimal128? && HasText(value, node.v)
    else if key == "$uuid" then UuidMeans(value, node)
    else false
  }

  // A date around a 64-bit number that is no date is an error.
  ghost predicate IsBadDate(env: Env, key: string, value: Node) {
    && key == "$date" && value.Object?
    && exists v :: IsFirst(value.entries, "$numberLong", Text(v)) && env.dateOfNumber(v) == None
  }

  ghost predicate ExtendedMeans(env: Env, entries: seq<Entry>, node: Node) {
    if |entries| == 1 && (exists n :: ExtendedForm(env, entries[0].key, entries[0].value, n)) then
      ExtendedForm(env, entries[0].key, entries[0].value, node)
    else
      node == Object(entries) && !(|entries| == 1 && IsBadDate(env, entries[0].key, entries[0].value))
  }

  /* ---------- The tables agree with the reader ---------- */

  lemma LowerIs(s: string)
    ensures Lower(s) == LowerText(s)
  {
  }

  lemma IntegersAre(s: string)
    ensures IsInteger(s) <==> IsIntegerText(s)
    ensures IsInteger(s) ==> IntegerOf(s) == IntegerValue(s)
    ensures FitsInt32(s) <==> Fits32(s)
    ensures FitsInt64(s) <==> Fits64(s)
  {
    hide ToNat;
  }

  lemma IdsAre(s: string)
    ensures IsObjectId(s) <==> IsIdText(s)
  {
    if |s| == 24 {
      forall i | 0 <= i < 24 ensures IsHex(s[i]) <==> IsHexDigit(s[i]) {
        HexIs(s[i]);
      }
    }
  }

  lemma TextsAre(n: Node)
    ensures forall s :: TextOf(n) == Some(s) <==> HasText(n, s)
  {
  }

  lemma NumbersAre(env: Env, s: string, node: Node)
    ensures NumberNode(env, s) == Some(node) <==> NumberMeans(env, s, node)
  {
    hide IsInteger, FitsInt32, FitsInt64, IsIntegerText, Fits32, Fits64, IntegerValue, IntegerOf;
    IntegersAre(s);
    NotFinite(env.number(s));
    SmallFits(s);
  }

  lemma NotFinite(n: string)
    ensures n in NOT_FINITE <==> n == "NaN" || n == "Infinity" || n == "-Infinity"
  {
  }

  lemma SmallFits(s: string)
    ensures Fits32(s) ==> Fits64(s) && IsIntegerText(s)
    ensures Fits64(s) ==> IsIntegerText(s)
  {
  }

  lemma DatesAre(env: Env, args: seq<Node>, node: Node)
    ensures ConstructDate(env, args) == Some(node) <==> DateCallMeans(env, args, node)
  {
  }

  lemma TimestampsAre(env: Env, args: seq<Node>, i: nat)
    ensures forall n: Number :: NumberOf(env, args, i) == n <==> NumberAt(env, args, i, n)
  {
  }

  // The text of the first argument.
  function FirstText(args: seq<Node>): Option<string> {
    if args == [] then None else TextOf(args[0])
  }

  lemma NumbersMade(env: Env, args: seq<Node>)
    ensures var text := FirstText(args);
            && Construct(env, "NumberInt", args) == (if text.Some? && FitsInt32(text.value) then Some(Int32(text.value)) else None)
            && Construct(env, "NumberLong", args) == (if text.Some? && FitsInt64(text.value) then Some(Int64(text.value)) else None)
            && Construct(env, "NumberDecimal", args) == (if text.Some? then Some(Decimal128(text.value)) else None)
            && Construct(env, "Double", args) == (if text.Some? then Some(Double(text.value)) else None)
  {
    hide TextOf, ConstructDate, NumberOf, FitsInt32, FitsInt64, Lower, IsObjectId;
  }

  lemma TextsMade(env: Env, args: seq<Node>)
    ensures var text := FirstText(args);
            && Construct(env, "ObjectId", args) ==
               (if args == [] then Some(ObjectId("000000000000000000000000"))
                else if text.Some? && IsObjectId(text.value) then Some(ObjectId(Lower(text.value))) else None)
            && Construct(env, "UUID", args) == (if text.Some? then Some(Uuid(Lower(text.value))) else None)
            && Construct(env, "RegExp", args) ==
               (if text.Some? then Some(Regex(text.value, if |args| > 1 && args[1].Text? then args[1].v else "")) else None)
  {
    hide TextOf, ConstructDate, NumberOf, FitsInt32, FitsInt64, Lower, IsObjectId;
  }

  lemma BinaryMade(env: Env, args: seq<Node>)
    ensures Construct(env, "BinData", args) ==
            if |args| > 1 && TextOf(args[1]).Some? then
              Some(Binary(TextOf(args[1]).value, if args[0].Int32? || args[0].Int64? then env.number(args[0].v) else "0"))
            else None
  {
    hide TextOf, ConstructDate, NumberOf, FitsInt32, FitsInt64, Lower, IsObjectId;
  }

  lemma TimestampMade(env: Env, args: seq<Node>)
    ensures Construct(env, "Timestamp", args) == Some(Timestamp(NumberOf(env, args, 0), NumberOf(env, args, 1)))
  {
    hide TextOf, ConstructDate, NumberOf, FitsInt32, FitsInt64, Lower, IsObjectId;
  }

  lemma MinKeyMade(env: Env, args: seq<Node>)
    ensures Construct(env, "MinKey", args) == Some(MinKey)
  {
    hide TextOf, ConstructDate, NumberOf, FitsInt32, FitsInt64, Lower, IsObjectId;
  }

  lemma MaxKeyMade(env: Env, args: seq<Node>)
    ensures Construct(env, "MaxKey", args) == Some(MaxKey)
  {
    hide TextOf, ConstructDate, NumberOf, FitsInt32, FitsInt64, Lower, IsObjectId;
  }

  lemma DatesMade(env: Env, args: seq<Node>)
    ensures Construct(env, "ISODate", args) == ConstructDate(env, args) && Construct(env, "Date", args) == ConstructDate(env, args)
  {
    hide TextOf, ConstructDate, NumberOf, FitsInt32, FitsInt64, Lower, IsObjectId;
  }

  predicate IsConstructor(name: string) {
    || name == "ObjectId" || name == "NumberInt" || name == "NumberLong" || name == "NumberDecimal" || name == "Double"
    || name == "UUID" || name == "BinData" || name == "RegExp" || name == "ISODate" || name == "Date"
    || name == "Timestamp" || name == "MinKey" || name == "MaxKey"
  }

  lemma NothingMade(env: Env, name: string, args: seq<Node>)
    requires !IsConstructor(name)
    ensures Construct(env, name, args) == None
  {
    hide TextOf, ConstructDate, NumberOf, FitsInt32, FitsInt64, Lower, IsObjectId;
  }

  lemma NumbersMeant(env: Env, args: seq<Node>, node: Node)
    ensures ConstructorMeans(env, "NumberInt", args, node) <==> args != [] && node.Int32? && HasText(args[0], node.v) && Fits32(node.v)
    ensures ConstructorMeans(env, "NumberLong", args, node) <==> args != [] && node.Int64? && HasText(args[0], node.v) && Fits64(node.v)
    ensures ConstructorMeans(env, "NumberDecimal", args, node) <==> args != [] && node.Decimal128? && HasText(args[0], node.v)
    ensures ConstructorMeans(env, "Double", args, node) <==> args != [] && node.Double? && HasText(args[0], node.v)
  {
    hide HasText, DateCallMeans, NumberAt, Fits32, Fits64, UuidMeans, ObjectIdMeans, BinaryMeans, RegexMeans;
  }

  lemma TextsMeant(env: Env, args: seq<Node>, node: Node)
    ensures ConstructorMeans(env, "ObjectId", args, node) <==> ObjectIdMeans(args, node)
    ensures ConstructorMeans(env, "UUID", args, node) <==> args != [] && UuidMeans(args[0], node)
    ensures ConstructorMeans(env, "RegExp", args, node) <==> RegexMeans(args, node)
  {
    hide HasText, DateCallMeans, NumberAt, Fits32, Fits64, UuidMeans, ObjectIdMeans, BinaryMeans, RegexMeans;
  }

  lemma PairsMeant(env: Env, args: seq<Node>, node: Node)
    ensures ConstructorMeans(env, "BinData", args, node) <==> BinaryMeans(env, args, node)
    ensures ConstructorMeans(env, "Timestamp", args, node) <==>
            node.Timestamp? && NumberAt(env, args, 0, node.seconds) && NumberAt(env, args, 1, node.increment)
  {
    hide HasText, DateCallMeans, NumberAt, Fits32, Fits64, UuidMeans, ObjectIdMeans, BinaryMeans, RegexMeans;
  }

  lemma KeysMeant(env: Env, args: seq<Node>, node: Node)
    ensures ConstructorMeans(env, "MinKey", args, node) <==> node == MinKey
    ensures ConstructorMeans(env, "MaxKey", args, node) <==> node == MaxKey
  {
    hide HasText, DateCallMeans, NumberAt, Fits32, Fits64, UuidMeans, ObjectIdMeans, BinaryMeans, RegexMeans;
  }

  lemma DatesMeant(env: Env, args: seq<Node>, node: Node)
    ensures ConstructorMeans(env, "ISODate", args, node) <==> DateCallMeans(env, args, node)
    ensures ConstructorMeans(env, "Date", args, node) <==> DateCallMeans(env, args, node)
  {
    hide HasText, DateCallMeans, NumberAt, Fits32, Fits64, UuidMeans, ObjectIdMeans, BinaryMeans, RegexMeans;
  }

  lemma NothingMeant(env: Env, name: string, args: seq<Node>, node: Node)
    requires !IsConstructor(name)
    ensures !ConstructorMeans(env, name, args, node)
  {
    hide HasText, DateCallMeans, NumberAt, Fits32, Fits64, UuidMeans, ObjectIdMeans, BinaryMeans, RegexMeans;
  }

  // The first argument has the text that is looked at, and no other.
  lemma FirstIs(args: seq<Node>)
    ensures forall s :: FirstText(args) == Some(s) <==> args != [] && HasText(args[0], s)
  {
    if args != [] {
      TextsAre(args[0]);
    }
  }

  lemma NumberCallsAre(env: Env, name: string, args: seq<Node>, node: Node)
    requires name == "NumberInt" || name == "NumberLong" || name == "NumberDecimal" || name == "Double"
    ensures Construct(env, name, args) == Some(node) <==> ConstructorMeans(env, name, args, node)
  {
    NumbersMade(env, args);
    NumbersMeant(env, args, node);
    FirstIs(args);
    hide Construct, ConstructorMeans, FirstText, HasText, FitsInt32, FitsInt64, Fits32, Fits64;
    if FirstText(args).Some? {
      IntegersAre(FirstText(args).value);
    }
  }

  lemma TextCallsAre(env: Env, name: string, args: seq<Node>, node: Node)
    requires name == "ObjectId" || name == "UUID" || name == "RegExp"
    ensures Construct(env, name, args) == Some(node) <==> ConstructorMeans(env, name, args, node)
  {
    TextsMade(env, args);
    TextsMeant(env, args, node);
    FirstIs(args);
    hide Construct, ConstructorMeans, FirstText, HasText, Lower, LowerText, IsObjectId, IsIdText;
    if FirstText(args).Some? {
      IdsAre(FirstText(args).value);
      LowerIs(FirstText(args).value);
    }
  }

  lemma OtherCallsAre(env: Env, name: string, args: seq<Node>, node: Node)
    requires name == "BinData" || name == "Timestamp" || name == "MinKey" || name == "MaxKey"
    ensures Construct(env, name, args) == Some(node) <==> ConstructorMeans(env, name, args, node)
  {
    BinaryMade(env, args);
    TimestampMade(env, args);
    MinKeyMade(env, args);
    MaxKeyMade(env, args);
    PairsMeant(env, args, node);
    KeysMeant(env, args, node);
    TimestampsAre(env, args, 0);
    TimestampsAre(env, args, 1);
    hide Construct, ConstructorMeans, NumberOf, NumberAt, HasText, TextOf;
    if |args| > 1 {
      TextsAre(args[1]);
    }
  }

  lemma DateCallsAre(env: Env, name: string, args: seq<Node>, node: Node)
    requires name == "ISODate" || name == "Date"
    ensures Construct(env, name, args) == Some(node) <==> ConstructorMeans(env, name, args, node)
  {
    DatesMade(env, args);
    DatesMeant(env, args, node);
    DatesAre(env, args, node);
    hide Construct, ConstructorMeans, ConstructDate, DateCallMeans;
  }

  /** What each constructor makes of its arguments. */
  lemma {:induction false} CallIs(env: Env, name: string, args: seq<Node>, node: Node)
    ensures Construct(env, name, args) == Some(node) <==> ConstructorMeans(env, name, args, node)
  {
    hide Construct, ConstructorMeans;
    if name == "NumberInt" || name == "NumberLong" || name == "NumberDecimal" || name == "Double" {
      NumberCallsAre(env, name, args, node);
    } else if name == "ObjectId" || name == "UUID" || name == "RegExp" {
      TextCallsAre(env, name, args, node);
    } else if name == "BinData" || name == "Timestamp" || name == "MinKey" || name == "MaxKey" {
      OtherCallsAre(env, name, args, node);
    } else if name == "ISODate" || name == "Date" {
      DateCallsAre(env, name, args, node);
    } else {
      NothingMade(env, name, args);
      NothingMeant(env, name, args, node);
    }
  }

  lemma {:induction false} FindIs(entries: seq<Entry>, key: string, value: Node)
    ensures FindEntry(entries, key) == Some(value) <==> IsFirst(entries, key, value)
  {
    if entries != [] {
      FindIs(entries[1..], key, value);
      if IsFirst(entries, key, value) && entries[0].key != key {
        var i :| 0 <= i < |entries| && entries[i] == Entry(key, value) && forall j :: 0 <= j < i ==> entries[j].key != key;
        assert entries[1..][i - 1] == entries[i];
        assert forall j :: 0 <= j < i - 1 ==> entries[1..][j].key != key;
      }
      if IsFirst(entries[1..], key, value) && entries[0].key != key {
        var i :| && 0 <= i < |entries[1..]| && entries[1..][i] == Entry(key, value)
                 && forall j :: 0 <= j < i ==> entries[1..][j].key != key;
        assert entries[i + 1] == Entry(key, value);
        forall j | 0 <= j < i + 1 ensures entries[j].key != key {
          assert j > 0 ==> entries[j] == entries[1..][j - 1];
        }
      }
      if entries[0].key == key {
        assert IsFirst(entries, key, entries[0].value);
      }
    }
  }

  // What a field that may be extended JSON becomes.
  function OneField(key: string, value: Node): seq<Entry> {
    [Entry(key, value)]
  }

  lemma NumberFieldsMade(env: Env, value: Node)
    ensures var text := TextOf(value);
            && FromExtendedJson(env, OneField("$numberInt", value)) ==
               Some(if text.Some? && IsInteger(text.value) then Int32(text.value) else Object(OneField("$numberInt", value)))
            && FromExtendedJson(env, OneField("$numberLong", value)) ==
               Some(if text.Some? && IsInteger(text.value) then Int64(text.value) else Object(OneField("$numberLong", value)))
            && FromExtendedJson(env, OneField("$numberDouble", value)) ==
               Some(if text.Some? then Double(text.value) else Object(OneField("$numberDouble", value)))
            && FromExtendedJson(env, OneField("$numberDecimal", value)) ==
               Some(if text.Some? then Decimal128(text.value) else Object(OneField("$numberDecimal", value)))
  {
    hide TextOf, IsObjectId, Lower, IsInteger, FindEntry;
  }

  lemma IdFieldsMade(env: Env, value: Node)
    ensures var text := TextOf(value);
            && FromExtendedJson(env, OneField("$oid", value)) ==
               Some(if text.Some? && IsObjectId(text.value) then ObjectId(Lower(text.value)) else Object(OneField("$oid", value)))
            && FromExtendedJson(env, OneField("$uuid", value)) ==
               Some(if text.Some? then Uuid(Lower(text.value)) else Object(OneField("$uuid", value)))
  {
    hide TextOf, IsObjectId, Lower, IsInteger, FindEntry;
  }

  lemma DateFieldMade(env: Env, value: Node)
    ensures var text, inner := TextOf(value), if value.Object? then FindEntry(value.entries, "$numberLong") else None;
            var fields := OneField("$date", value);
            FromExtendedJson(env, fields) ==
            if value.Object? then
              if inner.Some? && inner.value.Text? then
                if env.dateOfNumber(inner.value.v).Some? then Some(Date(env.dateOfNumber(inner.value.v).value)) else None
              else Some(Object(fields))
            else
              var date := if text.Some? && !value.Text? then env.dateOfNumber(text.value) else env.dateOf(text.GetOr(""));
              Some(if date.Some? then Date(date.value) else Object(fields))
  {
    hide TextOf, IsObjectId, Lower, IsInteger, FindEntry;
  }

  predicate IsExtendedKey(key: string) {
    || key == "$oid" || key == "$uuid" || key == "$date" || key == "$numberInt" || key == "$numberLong"
    || key == "$numberDouble" || key == "$numberDecimal"
  }

  lemma OtherFieldMade(env: Env, entries: seq<Entry>)
    requires |entries| == 1 && !IsExtendedKey(entries[0].key)
    ensures FromExtendedJson(env, entries) == Some(Object(entries))
  {
    hide TextOf, IsObjectId, Lower, IsInteger, FindEntry;
  }

  lemma IntegerFieldsMeant(env: Env, value: Node, node: Node)
    ensures ExtendedForm(env, "$numberInt", value, node) <==> node.Int32? && HasText(value, node.v) && IsIntegerText(node.v)
    ensures ExtendedForm(env, "$numberLong", value, node) <==> node.Int64? && HasText(value, node.v) && IsIntegerText(node.v)
  {
    hide HasText, IdMeans, UuidMeans, IsIntegerText, DateMeans, IsFirst;
  }

  lemma NumberFieldsMeant(env: Env, value: Node, node: Node)
    ensures ExtendedForm(env, "$numberDouble", value, node) <==> node.Double? && HasText(value, node.v)
    ensures ExtendedForm(env, "$numberDecimal", value, node) <==> node.Decimal128? && HasText(value, node.v)
  {
    hide HasText, IdMeans, UuidMeans, IsIntegerText, DateMeans, IsFirst;
  }

  lemma IdFieldMeant(env: Env, value: Node, node: Node)
    ensures ExtendedForm(env, "$oid", value, node) <==> IdMeans(value, node)
  {
    hide HasText, IdMeans, UuidMeans, IsIntegerText, DateMeans, IsFirst;
  }

  lemma UuidFieldMeant(env: Env, value: Node, node: Node)
    ensures ExtendedForm(env, "$uuid", value, node) <==> UuidMeans(value, node)
  {
    hide HasText, IdMeans, UuidMeans, IsIntegerText, DateMeans, IsFirst;
  }

  // The two forms of a date.
  ghost predicate DateFieldMeans(env: Env, value: Node, node: Node) {
    node.Date? &&
    if value.Object? then exists v :: IsFirst(value.entries, "$numberLong", Text(v)) && env.dateOfNumber(v) == Some(node.v)
    else DateMeans(env, value, node.v) || ((forall s :: !HasText(value, s)) && env.dateOf("") == Some(node.v))
  }

  lemma DateFieldMeant(env: Env, value: Node, node: Node)
    ensures ExtendedForm(env, "$date", value, node) <==> DateFieldMeans(env, value, node)
  {
    hide HasText, IdMeans, UuidMeans, IsIntegerText, DateMeans, IsFirst;
  }

  lemma OtherFieldMeant(env: Env, key: string, value: Node, node: Node)
    requires !IsExtendedKey(key)
    ensures !ExtendedForm(env, key, value, node)
  {
    hide HasText, IdMeans, UuidMeans, IsIntegerText, DateMeans, IsFirst;
  }

  lemma BadOnlyDates(env: Env, key: string, value: Node)
    ensures IsBadDate(env, key, value) ==> key == "$date" && value.Object?
  {
  }

  // One field, and what becomes of it: a value, an error, or the object.
  ghost predicate FieldMeans(env: Env, key: string, value: Node, node: Node) {
    if exists n :: ExtendedForm(env, key, value, n) then ExtendedForm(env, key, value, node)
    else node == Object(OneField(key, value)) && !IsBadDate(env, key, value)
  }

  lemma NumberFieldsAre(env: Env, key: string, value: Node, node: Node)
    requires key == "$numberInt" || key == "$numberLong" || key == "$numberDouble" || key == "$numberDecimal"
    ensures FromExtendedJson(env, OneField(key, value)) == Some(node) <==> FieldMeans(env, key, value, node)
  {
    NumberFieldsMade(env, value);
    forall n ensures ExtendedForm(env, key, value, n) <==> NumberFieldForm(key, value, n) {
      IntegerFieldsMeant(env, value, n);
      NumberFieldsMeant(env, value, n);
    }
    TextsAre(value);
    BadOnlyDates(env, key, value);
    hide FromExtendedJson, ExtendedForm, IsBadDate, OneField, HasText, TextOf, IsInteger, IsIntegerText;
    if TextOf(value).Some? {
      var s := TextOf(value).value;
      IntegersAre(s);
      var n := if key == "$numberInt" then Int32(s) else if key == "$numberLong" then Int64(s)
               else if key == "$numberDouble" then Double(s) else Decimal128(s);
      assert key == "$numberDouble" || key == "$numberDecimal" || IsIntegerText(s) ==> ExtendedForm(env, key, value, n);
    }
  }

  predicate NumberFieldForm(key: string, value: Node, n: Node) {
    || (key == "$numberInt" && n.Int32? && HasText(value, n.v) && IsIntegerText(n.v))
    || (key == "$numberLong" && n.Int64? && HasText(value, n.v) && IsIntegerText(n.v))
    || (key == "$numberDouble" && n.Double? && HasText(value, n.v))
    || (key == "$numberDecimal" && n.Decimal128? && HasText(value, n.v))
  }

  lemma IdFieldsAre(env: Env, key: string, value: Node, node: Node)
    requires key == "$oid" || key == "$uuid"
    ensures FromExtendedJson(env, OneField(key, value)) == Some(node) <==> FieldMeans(env, key, value, node)
  {
    IdFieldsMade(env, value);
    forall n ensures ExtendedForm(env, key, value, n) <==>
      (key == "$oid" && IdMeans(value, n)) || (key == "$uuid" && UuidMeans(value, n))
    {
      IdFieldMeant(env, value, n);
      UuidFieldMeant(env, value, n);
    }
    TextsAre(value);
    BadOnlyDates(env, key, value);
    hide FromExtendedJson, ExtendedForm, IsBadDate, OneField, HasText, TextOf, IsObjectId, IsIdText, Lower, LowerText;
    if TextOf(value).Some? {
      var s := TextOf(value).value;
      IdsAre(s);
      LowerIs(s);
      if key == "$uuid" {
        assert ExtendedForm(env, key, value, Uuid(LowerText(s)));
      } else if IsIdText(s) {
        assert ExtendedForm(env, key, value, ObjectId(LowerText(s)));
      }
    }
  }

  lemma DateObjectIs(env: Env, value: Node, node: Node)
    requires value.Object?
    ensures FromExtendedJson(env, OneField("$date", value)) == Some(node) <==> FieldMeans(env, "$date", value, node)
  {
    DateFieldMade(env, value);
    forall n ensures ExtendedForm(env, "$date", value, n) <==> DateFieldMeans(env, value, n) {
      DateFieldMeant(env, value, n);
    }
    hide FromExtendedJson, ExtendedForm, OneField, FindEntry, IsFirst, DateMeans, HasText;
    var inner := FindEntry(value.entries, "$numberLong");
    forall v ensures IsFirst(value.entries, "$numberLong", v) <==> inner == Some(v) {
      FindIs(value.entries, "$numberLong", v);
    }
    if inner.Some? && inner.value.Text? {
      var date := env.dateOfNumber(inner.value.v);
      if date.Some? {
        assert ExtendedForm(env, "$date", value, Date(date.value));
      } else {
        assert IsBadDate(env, "$date", value);
      }
    }
  }

  lemma DateFieldIs(env: Env, value: Node, node: Node)
    requires !value.Object?
    ensures FromExtendedJson(env, OneField("$date", value)) == Some(node) <==> FieldMeans(env, "$date", value, node)
  {
    DateFieldMade(env, value);
    forall n ensures ExtendedForm(env, "$date", value, n) <==> DateFieldMeans(env, value, n) {
      DateFieldMeant(env, value, n);
    }
    BadOnlyDates(env, "$date", value);
    hide FromExtendedJson, ExtendedForm, OneField, FindEntry, IsFirst, IsBadDate;
    TextsAre(value);
    var text := TextOf(value);
    assert text == None ==> forall s :: !HasText(value, s);
    assert text.Some? ==> HasText(value, text.value);
    var date := if text.Some? && !value.Text? then env.dateOfNumber(text.value) else env.dateOf(text.GetOr(""));
    if date.Some? {
      assert ExtendedForm(env, "$date", value, Date(date.value));
    }
  }

  lemma OtherFieldIs(env: Env, key: string, value: Node, node: Node)
    requires !IsExtendedKey(key)
    ensures FromExtendedJson(env, OneField(key, value)) == Some(node) <==> FieldMeans(env, key, value, node)
  {
    OtherFieldMade(env, OneField(key, value));
    forall n ensures !ExtendedForm(env, key, value, n) {
      OtherFieldMeant(env, key, value, n);
    }
    BadOnlyDates(env, key, value);
    hide FromExtendedJson, ExtendedForm, OneField, IsBadDate;
  }

  lemma FieldOfOne(env: Env, entries: seq<Entry>, node: Node)
    requires |entries| == 1
    ensures entries == OneField(entries[0].key, entries[0].value)
    ensures ExtendedMeans(env, entries, node) <==> FieldMeans(env, entries[0].key, entries[0].value, node)
  {
    hide ExtendedForm, IsBadDate;
    assert entries == [entries[0]];
  }

  /** What each form of extended JSON stands for; any other object stays as it is. */
  lemma {:induction false} ExtendedIs(env: Env, entries: seq<Entry>, node: Node)
    ensures FromExtendedJson(env, entries) == Some(node) <==> ExtendedMeans(env, entries, node)
  {
    hide ExtendedForm, IsBadDate, FieldMeans;
    if |entries| == 1 {
      var key, value := entries[0].key, entries[0].value;
      FieldOfOne(env, entries, node);
      hide FromExtendedJson, ExtendedMeans, OneField;
      if key == "$oid" || key == "$uuid" {
        IdFieldsAre(env, key, value, node);
      } else if key == "$date" {
        if value.Object? {
          DateObjectIs(env, value, node);
        } else {
          DateFieldIs(env, value, node);
        }
      } else if key == "$numberInt" || key == "$numberLong" || key == "$numberDouble" || key == "$numberDecimal" {
        NumberFieldsAre(env, key, value, node);
      } else {
        OtherFieldIs(env, key, value, node);
      }
    }
  }

  /* ---------- Values at every depth ---------- */

  // A field name: quoted, a name, or a number.
  ghost predicate IsBareName(c: string, t: string, key: string) {
    IsQuoted(c, key) || (c == key && (IsNameText(c, t) || IsNumberName(c, t)))
  }

  ghost predicate IsFieldName(k: string, t: string, key: string) {
    exists g, c :: k == g + c && IsGap(g) && IsBareName(c, t, key)
  }

  // A bracket that closes, perhaps behind a last comma.
  ghost predicate IsClose(z: string, bracket: char) {
    || (exists g :: z == g + [bracket] && IsGap(g))
    || (exists g, h :: z == g + ("," + (h + [bracket])) && IsGap(g) && IsGap(h))
  }

  // A comma, and what is behind it.
  ghost predicate IsComma(z: string, more: string) {
    exists g :: z == g + ("," + more) && IsGap(g)
  }

  // The text `v`, in front of `t`, spells a value: blanks, and the value.
  ghost predicate IsValue(env: Env, v: string, t: string, node: Node, depth: nat)
    decreases |v|, 3
  {
    depth <= 100 && exists g, c :: v == g + c && IsGap(g) && IsBare(env, c, t, node, depth)
  }

  ghost predicate IsBare(env: Env, c: string, t: string, node: Node, depth: nat)
    decreases |c|, 2
  {
    || (node.Text? && IsQuoted(c, node.v))
    || (node.Regex? && IsRegexText(c, t, node.pattern, node.flags))
    || (NumberMeans(env, c, node) && exists n :: IsNumberLiteral(c, t, n))
    || IsConstant(c, t, node)
    || (exists w :: c == "new" + w && IsNew(env, w, t, node, depth))
    || (exists name, g, b :: c == name + (g + ("(" + b)) && IsCall(env, name, g, b, t, node, depth))
    || (exists b :: c == "[" + b && IsArrayText(env, b, t, node, depth))
    || (exists b :: c == "{" + b && IsObjectText(env, b, t, node, depth))
  }

  // Behind `new` stands a value, one level deeper.
  ghost predicate IsNew(env: Env, w: string, t: string, node: Node, depth: nat)
    decreases |w|, 4
  {
    w != "" && !GoesOnName(w[0]) && IsValue(env, w, t, node, depth + 1)
  }

  // A constructor: a name, blanks, and behind the parenthesis the arguments and another one.
  ghost predicate IsCall(env: Env, name: string, g: string, b: string, t: string, node: Node, depth: nat)
    decreases |b|, 4
  {
    && IsNameText(name, g + "(") && IsGap(g) && name != "new" && !IsConstantName(name)
    && exists a, args :: b == a + ")" && IsArguments(env, a, ")" + t, args, depth) && ConstructorMeans(env, name, args, node)
  }

  ghost predicate IsArguments(env: Env, a: string, t: string, args: seq<Node>, depth: nat)
    decreases |a|, 5
  {
    if args == [] then IsGap(a) else IsArgs(env, a, t, args, depth)
  }

  // One argument or more, with commas between them.
  ghost predicate IsArgs(env: Env, a: string, t: string, args: seq<Node>, depth: nat)
    requires args != []
    decreases |a|, 4
  {
    if |args| == 1 then exists w, g :: a == w + g && IsGap(g) && IsValue(env, w, g + t, args[0], depth + 1)
    else exists w, z, m ::
      && a == w + z && |m| < |z| && IsComma(z, m) && IsValue(env, w, z + t, args[0], depth + 1)
      && IsArgs(env, m, t, args[1..], depth)
  }

  // What is behind an opening bracket, with the closing one.
  ghost predicate IsArrayText(env: Env, b: string, t: string, node: Node, depth: nat)
    decreases |b|, 5
  {
    || (node == Array([]) && exists g :: b == g + "]" && IsGap(g))
    || (node.Array? && node.items != [] && IsItems(env, b, t, node.items, depth))
  }

  ghost predicate IsItems(env: Env, b: string, t: string, items: seq<Node>, depth: nat)
    requires items != []
    decreases |b|, 4
  {
    if |items| == 1 then exists w, z :: b == w + z && IsClose(z, ']') && IsValue(env, w, z + t, items[0], depth + 1)
    else exists w, z, m ::
      && b == w + z && |m| < |z| && IsComma(z, m) && IsValue(env, w, z + t, items[0], depth + 1)
      && IsItems(env, m, t, items[1..], depth)
  }

  ghost predicate IsObjectText(env: Env, b: string, t: string, node: Node, depth: nat)
    decreases |b|, 6
  {
    || (node == Object([]) && exists g :: b == g + "}" && IsGap(g))
    || (exists entries :: entries != [] && IsEntries(env, b, t, entries, depth) && ExtendedMeans(env, entries, node))
  }

  ghost predicate IsEntries(env: Env, b: string, t: string, entries: seq<Entry>, depth: nat)
    requires entries != []
    decreases |b|, 5
  {
    if |entries| == 1 then exists f, z :: b == f + z && IsClose(z, '}') && IsEntry(env, f, z + t, entries[0], depth)
    else exists f, z, m ::
      && b == f + z && |m| < |z| && IsComma(z, m) && IsEntry(env, f, z + t, entries[0], depth)
      && IsEntries(env, m, t, entries[1..], depth)
  }

  // A name, a colon and a value.
  ghost predicate IsEntry(env: Env, f: string, t: string, e: Entry, depth: nat)
    decreases |f|, 4
  {
    exists k, g, w ::
      f == k + (g + (":" + w)) && IsFieldName(k, g + (":" + (w + t)), e.key) && IsGap(g) && IsValue(env, w, t, e.value, depth + 1)
  }

  // A whole text: a value, and nothing behind it.
  ghost predicate SpellsDocument(env: Env, s: string, node: Node) {
    exists v, t :: s == v + t && IsValue(env, v, t, node, 0) && IsLastGap(t)
  }
}
