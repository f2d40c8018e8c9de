/**
 What reading makes of any bytes at all, and what becomes of a document that is read, written and read
 again.
 */
module BsonDecoded {
  import opened Bytes
  import opened Numerals
  import opened Wrappers
  import opened Bson
  import opened BsonRoundTrip
  import opened BsonTags
  import Decimal128

  // Every object inside that passes for a tagged value has the form of one that reading makes.
  predicate TagsGood(env: Env, v: Value) {
    match v
    case List(items) => forall i :: 0 <= i < |items| ==> TagsGood(env, items[i])
    case Document(fields) => if IsTagged(fields) then PairGood(env, fields) else FieldTagsGood(env, fields)
    case _ => true
  }

  predicate PairGood(env: Env, fields: seq<Field>)
    requires IsTagged(fields)
  {
    TaggedTexts(fields);
    fields[0].name == "$type" && IsTagForm(env, Lookup(fields, "$type").value.text, Lookup(fields, "$value").value.text)
  }

  predicate FieldTagsGood(env: Env, fields: seq<Field>) {
    forall i :: 0 <= i < |fields| ==> TagsGood(env, fields[i].value)
  }

  // The fields of such an object, in one of the two orders.
  lemma TaggedIsPair(fields: seq<Field>)
    requires IsTagged(fields) && fields[0].name == "$type"
    ensures Document(fields) == Pair(Lookup(fields, "$type").value.text, Lookup(fields, "$value").value.text)
  {
    assert "$type" != "$value" by {
      assert |"$type"| == 5 && |"$value"| == 6;
    }
    assert Lookup(fields, "$value") == Lookup(fields[1..], "$value");
    assert fields[1..][1..] == [];
    assert fields[1].name == "$value";
    assert fields == [fields[0], fields[1]];
  }

  lemma {:induction false} PairGoodIsGood(env: Env, fields: seq<Field>)
    requires Sound(env) && IsTagged(fields)
    ensures PairGood(env, fields) <==> IsGoodTag(env, Document(fields))
  {
    hide IsTagForm, TagName, TagText, Sound;
    TaggedTexts(fields);
    var name, text := Lookup(fields, "$type").value.text, Lookup(fields, "$value").value.text;
    TagFormIsGood(env, name, text);
    if fields[0].name == "$type" {
      TaggedIsPair(fields);
    }
  }

  /* ---------- Values without a document ---------- */

  lemma NumberRanges(bytes: seq<Byte>)
    ensures |bytes| == 4 ==> FromLittleEndian(bytes) < TWO_32 && -TWO_31 <= Int32Of(bytes) < TWO_31
    ensures |bytes| == 8 ==> FromLittleEndian(bytes) < TWO_64 && -TWO_63 <= Int64Of(bytes) < TWO_63
    ensures |bytes| == 16 ==> FromLittleEndian(bytes) < Decimal128.TWO_128
  {
    hide FromLittleEndian;
    Widths();
    LittleEndianWritten(bytes);
  }

  lemma GoodTag(env: Env, k: Kind)
    requires GoodKind(k)
    ensures Canonical(env, Tag(env, k))
  {
    hide TagName, TagText;
    LookupPair(TagName(k), TagText(env, k));
  }

  lemma {:induction false} FixedMade(env: Env, type_: Byte, bytes: seq<Byte>)
    requires Sound(env) && FixedWidth(type_) == Some(|bytes|)
    ensures Canonical(env, FixedValue(env, type_, bytes))
  {
    hide FromLittleEndian, Int32Of, Int64Of, Tag, IsTagged;
    NumberRanges(bytes);
    if type_ == T_DATE && !(-MAX_DATE <= Int64Of(bytes) <= MAX_DATE) {
      GoodTag(env, FarDate(Int64Of(bytes)));
    } else if type_ == T_TIMESTAMP {
      NumberRanges(bytes[4..]);
      NumberRanges(bytes[..4]);
      GoodTag(env, Timestamp(FromLittleEndian(bytes[4..]), FromLittleEndian(bytes[..4])));
    } else if type_ == T_OBJECT_ID {
      GoodTag(env, ObjectId(bytes));
    } else if type_ == T_DECIMAL128 {
      GoodTag(env, Decimal(FromLittleEndian(bytes)));
    } else if type_ == T_MIN_KEY {
      GoodTag(env, MinKey);
    } else if type_ == T_MAX_KEY {
      GoodTag(env, MaxKey);
    }
  }

  lemma NameMade(env: Env, bytes: seq<Byte>)
    requires Sound(env)
    ensures ReadName(env, bytes).Some? ==> '\0' !in ReadName(env, bytes).value.value
  {
  }

  lemma {:induction false} BinaryMade(env: Env, bytes: seq<Byte>)
    ensures ReadBinary(env, bytes).Some? ==> Canonical(env, ReadBinary(env, bytes).value.value)
  {
    hide Tag, IsTagged, Int32Of;
    if ReadBinary(env, bytes).Some? {
      var length := Int32Of(bytes[..4]);
      var inner := bytes[5..5 + length];
      if bytes[4] == 4 && |inner| == 16 {
        GoodTag(env, Uuid(inner));
      } else if bytes[4] != 0 {
        GoodTag(env, OtherBinary(bytes[4], inner));
      }
    }
  }

  // The two types whose tagged values may not come back.
  predicate IsDoubtful(env: Env, type_: Byte, bytes: seq<Byte>) {
    type_ == T_DB_POINTER || (type_ == T_REGEX && !GoodFlags(FlagsOf(env, bytes)))
  }

  // The flags of a regular expression.
  function FlagsOf(env: Env, bytes: seq<Byte>): string {
    match ReadName(env, bytes)
    case None => ""
    case Some(pattern) =>
      match ReadName(env, pattern.rest)
      case None => ""
      case Some(flags) => flags.value
  }

  /** Whatever bytes a value without a document is read from, it is canonical, but for those two types. */
  lemma {:induction false} ScalarMade(env: Env, type_: Byte, bytes: seq<Byte>)
    requires Sound(env) && ReadScalar(env, type_, bytes).Some? && !IsDoubtful(env, type_, bytes)
    ensures Canonical(env, ReadScalar(env, type_, bytes).value.value)
  {
    hide Canonical, Sound, FixedValue, ReadBinary, ReadName, ReadString, GoodFlags, Tag, ReadDbPointer;
    if FixedWidth(type_).Some? {
      FixedMade(env, type_, bytes[..FixedWidth(type_).value]);
    } else if type_ == T_STRING || type_ == T_JAVASCRIPT || type_ == T_SYMBOL {
      var text := ReadString(env, bytes).value.value;
      GoodTag(env, JavaScript(text));
      GoodTag(env, Symbol(text));
      TextsAreCanonical(env, text);
    } else if type_ == T_BINARY {
      BinaryMade(env, bytes);
    } else {
      var pattern := ReadName(env, bytes).value;
      NameMade(env, bytes);
      GoodTag(env, Regex(pattern.value, FlagsOf(env, bytes)));
    }
  }

  lemma TextsAreCanonical(env: Env, text: string)
    ensures Canonical(env, Text(text))
  {
  }

  /* ---------- Documents ---------- */

  lemma {:induction false} PutMade(fields: seq<Field>, f: Field)
    requires Distinct(fields)
    ensures Distinct(Put(fields, f))
    ensures forall g :: g in Put(fields, f) ==> g in fields || g == f
    ensures forall g :: g in Put(fields, f) ==> g.name == f.name || exists h :: h in fields && h.name == g.name
  {
    if fields != [] && fields[0].name != f.name {
      var rest := Put(fields[1..], f);
      PutMade(fields[1..], f);
      forall i | 0 <= i < |rest| ensures rest[i].name != fields[0].name {
        assert rest[i] in rest;
      }
      DistinctFront(fields[0], rest);
    }
  }

  lemma DistinctFront(f: Field, rest: seq<Field>)
    requires Distinct(rest) && forall i :: 0 <= i < |rest| ==> rest[i].name != f.name
    ensures Distinct([f] + rest)
  {
  }

  lemma {:induction false} ObjectMade(elements: seq<Field>)
    ensures Distinct(ObjectOf(elements))
    ensures forall g :: g in ObjectOf(elements) ==> g in elements
  {
    if elements != [] {
      var n := |elements| - 1;
      ObjectMade(elements[..n]);
      PutMade(ObjectOf(elements[..n]), elements[n]);
    }
  }

  // A value as reading at this depth makes it.
  predicate Made(env: Env, v: Value, depth: int) {
    Regular(env, v) && NestsWithin(v, MAX_DEPTH - depth)
  }

  predicate ElementsAreMade(env: Env, elements: seq<Field>, depth: int) {
    forall f :: f in elements ==> '\0' !in f.name && Made(env, f.value, depth)
  }

  lemma {:induction false} ValueMade(env: Env, type_: Byte, bytes: seq<Byte>, depth: nat)
    requires Sound(env) && ReadValue(env, type_, bytes, depth).Some? && depth <= MAX_DEPTH
    ensures Made(env, ReadValue(env, type_, bytes, depth).value.value, depth)
    decreases |bytes|, 1
  {
    hide Sound, ReadDocument, ReadScalar, Regular, NestsWithin, ReadString, Tag;
    var v := ReadValue(env, type_, bytes, depth).value.value;
    if type_ == T_DOCUMENT || type_ == T_ARRAY {
      DocumentMade(env, bytes, type_ == T_ARRAY, depth + 1);
    } else if type_ == T_JAVASCRIPT_SCOPE {
      TagMade(env, JavaScript(ReadString(env, bytes[4..]).value.value), depth);
    } else {
      ScalarIsMade(env, type_, bytes, depth);
    }
  }

  lemma TagMade(env: Env, k: Kind, depth: nat)
    requires depth <= MAX_DEPTH && GoodKind(k)
    ensures Made(env, Tag(env, k), depth)
  {
    hide TagName, TagText;
    LookupPair(TagName(k), TagText(env, k));
  }

  lemma ScalarIsMade(env: Env, type_: Byte, bytes: seq<Byte>, depth: nat)
    requires Sound(env) && ReadScalar(env, type_, bytes).Some? && depth <= MAX_DEPTH
    ensures Made(env, ReadScalar(env, type_, bytes).value.value, depth)
  {
    hide Sound, ReadScalar, IsDoubtful, IsTagged, IsGoodTag;
    ScalarsNestNothing(env, type_, bytes, depth);
    if !IsDoubtful(env, type_, bytes) {
      ScalarMade(env, type_, bytes);
      CanonicalIsRegular(env, ReadScalar(env, type_, bytes).value.value);
    } else {
      DoubtfulTagged(env, type_, bytes);
    }
  }

  lemma DoubtfulTagged(env: Env, type_: Byte, bytes: seq<Byte>)
    requires ReadScalar(env, type_, bytes).Some? && IsDoubtful(env, type_, bytes)
    ensures var v := ReadScalar(env, type_, bytes).value.value;
            v.Document? && IsTagged(v.fields)
  {
    hide TagName, TagText, ReadName, ReadString, IsTagged;
    var v := ReadScalar(env, type_, bytes).value.value;
    assert v == Pair(v.fields[0].value.text, v.fields[1].value.text);
    LookupPair(v.fields[0].value.text, v.fields[1].value.text);
  }

  lemma ScalarsNestNothing(env: Env, type_: Byte, bytes: seq<Byte>, depth: nat)
    requires ReadScalar(env, type_, bytes).Some?
    ensures NestsWithin(ReadScalar(env, type_, bytes).value.value, MAX_DEPTH - depth)
  {
    hide TagName, TagText, ReadName, ReadString, IsTagged, Int32Of, Int64Of, FromLittleEndian;
    var v := ReadScalar(env, type_, bytes).value.value;
    if v.Document? {
      assert v == Pair(v.fields[0].value.text, v.fields[1].value.text);
      LookupPair(v.fields[0].value.text, v.fields[1].value.text);
    }
  }

  lemma {:induction false} DocumentMade(env: Env, bytes: seq<Byte>, isArray: bool, depth: nat)
    requires Sound(env) && depth > 0 && ReadDocument(env, bytes, isArray, depth).Some?
    ensures Made(env, ReadDocument(env, bytes, isArray, depth).value.value, depth - 1)
    decreases |bytes|, 0
  {
    hide Sound, ReadElements, Int32Of, ObjectOf, Made, Distinct, ElementsAreMade;
    var inner := bytes[4..Int32Of(bytes[..4]) - 1];
    var elements := ReadElements(env, inner, depth).value;
    ElementsMade(env, inner, depth);
    if isArray {
      ListIsMade(env, elements, depth);
    } else {
      ObjectMade(elements);
      FieldsMade(env, ObjectOf(elements), elements, depth);
      ObjectIsMade(env, ObjectOf(elements), depth);
    }
  }

  lemma ListIsMade(env: Env, elements: seq<Field>, depth: nat)
    requires 0 < depth <= MAX_DEPTH && ElementsAreMade(env, elements, depth)
    ensures Made(env, List(ValuesOf(elements)), depth - 1)
  {
    hide Regular, NestsWithin;
    var items := ValuesOf(elements);
    forall i | 0 <= i < |items| ensures Regular(env, items[i]) && NestsWithin(items[i], MAX_DEPTH - depth) {
      assert elements[i] in elements;
    }
    ListOfMade(env, items, depth);
  }

  lemma ListOfMade(env: Env, items: seq<Value>, depth: nat)
    requires 0 < depth <= MAX_DEPTH
    requires forall i :: 0 <= i < |items| ==> Regular(env, items[i]) && NestsWithin(items[i], MAX_DEPTH - depth)
    ensures Made(env, List(items), depth - 1)
  {
  }

  lemma ObjectIsMade(env: Env, fields: seq<Field>, depth: nat)
    requires 0 < depth <= MAX_DEPTH && Distinct(fields)
    requires forall i :: 0 <= i < |fields| ==> '\0' !in fields[i].name && Made(env, fields[i].value, depth)
    ensures Made(env, Document(fields), depth - 1)
  {
    hide IsTagged, Distinct;
    var v := Document(fields);
    assert v.fields == fields;
    assert RegularFields(env, v.fields) && FieldsNestWithin(v.fields, MAX_DEPTH - depth);
  }

  lemma FieldsMade(env: Env, fields: seq<Field>, elements: seq<Field>, depth: nat)
    requires ElementsAreMade(env, elements, depth) && forall g :: g in fields ==> g in elements
    ensures forall i :: 0 <= i < |fields| ==> '\0' !in fields[i].name && Made(env, fields[i].value, depth)
  {
    hide Made;
    forall i | 0 <= i < |fields| ensures '\0' !in fields[i].name && Made(env, fields[i].value, depth) {
      assert fields[i] in fields;
    }
  }

  lemma {:induction false} ElementsMade(env: Env, bytes: seq<Byte>, depth: nat)
    requires Sound(env) && depth <= MAX_DEPTH && ReadElements(env, bytes, depth).Some?
    ensures ElementsAreMade(env, ReadElements(env, bytes, depth).value, depth)
    decreases |bytes|, 0
  {
    hide Sound, ReadValue, ReadName, Made;
    if bytes != [] {
      var name := ReadName(env, bytes[1..]).value;
      var v := ReadValue(env, bytes[0], name.rest, depth).value;
      NameMade(env, bytes[1..]);
      ValueMade(env, bytes[0], name.rest, depth);
      ElementsMade(env, v.rest, depth);
    }
  }

  /* ---------- Coming back is having good tags ---------- */

  lemma {:induction false} SortedAscends(s: string)
    ensures |Sorted(s)| == |s| && Ascending(Sorted(s)) && (forall c :: c in Sorted(s) <==> c in s)
  {
    if s != "" {
      SortedAscends(s[1..]);
      InsertAscends(s[0], Sorted(s[1..]));
      assert s == [s[0]] + s[1..];
    }
  }

  lemma {:induction false} InsertAscends(c: char, s: string)
    requires Ascending(s)
    ensures |Insert(c, s)| == |s| + 1 && Ascending(Insert(c, s)) && (forall d :: d in Insert(c, s) <==> d == c || d in s)
  {
    if s != "" && c > s[0] {
      InsertAscends(c, s[1..]);
      var more := Insert(c, s[1..]);
      forall i | 0 <= i < |more| ensures s[0] <= more[i] {
        assert more[i] in more;
      }
      assert s == [s[0]] + s[1..];
    }
  }

  lemma {:induction false} WrittenFlags(env: Env, value: string)
    requires Sound(env) && RegexBody(env, value).Some?
    ensures GoodFlags(FlagsOf(env, RegexBody(env, value).value))
  {
    hide Sorted, PastLast, Sound, ReadName, NameBytes;
    var last := PastLast(value, '/');
    var pattern, flags := value[1..last - 1], Sorted(value[last..]);
    SortedAscends(value[last..]);
    forall i | 0 <= i < |flags| ensures IsLower(flags[i]) {
      assert flags[i] in value[last..];
    }
    NulFree(env, pattern);
    NulFree(env, flags);
    var f := NameBytes(env, flags).value;
    NameBack(env, pattern, f);
    NameBack(env, flags, []);
    assert f + [] == f;
  }

  // What is written for a pair of texts is never of a doubtful type.
  lemma {:induction false} WrittenIsNoDoubt(env: Env, name: string, value: string)
    requires Sound(env) && EncodeTag(env, name, value).Some?
    ensures var e := EncodeTag(env, name, value).value; !IsDoubtful(env, e.type_, e.body)
  {
    hide LittleEndian, Decimal128.FromText, RegexBody, TimestampBody, ReadHex, Without, SubtypeOf, StringBytes, BinaryBody,
      Integer64, Int32Bytes, FlagsOf, GoodFlags;
    if EncodeTag(env, name, value).value.type_ == T_REGEX {
      WrittenFlags(env, value);
    }
  }

  lemma {:induction false} TagAgainGood(env: Env, fields: seq<Field>)
    requires Sound(env) && IsTagged(fields) && TagOf(env, fields).Some? && |TagOf(env, fields).value.body| <= MAX_DOCUMENT_BYTES
    requires Again(env, Document(fields)) == Document(fields)
    ensures PairGood(env, fields)
  {
    hide EncodeTag, ReadScalar, Sound, IsTagged, IsGoodTag, IsDoubtful, PairGood;
    TaggedTexts(fields);
    var name, text := Lookup(fields, "$type").value.text, Lookup(fields, "$value").value.text;
    var e := TagOf(env, fields).value;
    TagAlone(env, name, text, []);
    WrittenIsNoDoubt(env, name, text);
    ScalarMade(env, e.type_, e.body);
    PairGoodIsGood(env, fields);
  }

  lemma {:induction false} AgainGood(env: Env, v: Value, depth: nat)
    requires Sound(env) && EncodeValue(env, v, depth).Some? && |EncodeValue(env, v, depth).value.body| <= MAX_DOCUMENT_BYTES
    requires Again(env, v) == v
    ensures TagsGood(env, v)
    decreases v, 1
  {
    hide Sound, IsTagged, PairGood, Wrap, EncodeTag, ReadScalar;
    match v
    case List(items) =>
      BodySmaller(EncodeItems(env, items, depth + 1).value);
      assert AgainItems(env, items) == items;
      ItemsAgainGood(env, items, depth + 1);
    case Document(fields) =>
      if IsTagged(fields) {
        TagAgainGood(env, fields);
      } else {
        BodySmaller(EncodeFields(env, fields, depth + 1).value);
        FieldsAgainGood(env, fields, depth + 1);
      }
    case _ =>
  }

  lemma {:induction false} ItemsAgainGood(env: Env, items: seq<Value>, depth: nat)
    requires Sound(env) && EncodeItems(env, items, depth).Some? && |EncodeItems(env, items, depth).value| <= MAX_DOCUMENT_BYTES
    requires AgainItems(env, items) == items
    ensures forall i :: 0 <= i < |items| ==> TagsGood(env, items[i])
    decreases items, 0
  {
    hide Sound, EncodeValue, NameBytes, Again, Digits, TagsGood;
    if items != [] {
      var n := |items| - 1;
      assert AgainItems(env, items[..n]) == AgainItems(env, items)[..n];
      assert AgainItems(env, items)[n] == Again(env, items[n]);
      ItemsAgainGood(env, items[..n], depth);
      AgainGood(env, items[n], depth);
      assert forall i :: 0 <= i < n ==> items[..n][i] == items[i];
    }
  }

  lemma {:induction false} FieldsAgainGood(env: Env, fields: seq<Field>, depth: nat)
    requires Sound(env) && EncodeFields(env, fields, depth).Some? && |EncodeFields(env, fields, depth).value| <= MAX_DOCUMENT_BYTES
    requires AgainFields(env, fields) == fields
    ensures FieldTagsGood(env, fields)
    decreases fields, 0
  {
    hide Sound, EncodeValue, NameBytes, Again, TagsGood;
    if fields != [] {
      var n := |fields| - 1;
      assert AgainFields(env, fields[..n]) == AgainFields(env, fields)[..n];
      assert AgainFields(env, fields)[n] == Field(fields[n].name, Again(env, fields[n].value));
      FieldsAgainGood(env, fields[..n], depth);
      AgainGood(env, fields[n].value, depth);
      assert forall i :: 0 <= i < n ==> fields[..n][i] == fields[i];
    }
  }

  lemma {:induction false} GoodIsCanonical(env: Env, v: Value)
    requires Sound(env) && Regular(env, v) && TagsGood(env, v)
    ensures Canonical(env, v)
  {
    hide PairGood, IsTagged, IsGoodTag, Sound, Distinct;
    match v
    case List(items) =>
      forall i | 0 <= i < |items| ensures Canonical(env, items[i]) {
        GoodIsCanonical(env, items[i]);
      }
    case Document(fields) =>
      if IsTagged(fields) {
        PairGoodIsGood(env, fields);
      } else {
        forall i | 0 <= i < |fields| ensures Canonical(env, fields[i].value) {
          GoodIsCanonical(env, fields[i].value);
        }
      }
    case _ =>
  }

  lemma {:induction false} DecodedIsRegular(env: Env, bytes: seq<Byte>)
    requires Sound(env) && Decode(env, bytes).Some?
    ensures var v := Decode(env, bytes).value.value;
            v.Document? && RegularFields(env, v.fields) && FieldsNestWithin(v.fields, MAX_DEPTH)
  {
    hide Sound, ReadElements, Int32Of, ObjectOf, Distinct, ElementsAreMade, Regular, NestsWithin;
    var inner := bytes[4..Int32Of(bytes[..4]) - 1];
    var elements := ReadElements(env, inner, 0).value;
    ElementsMade(env, inner, 0);
    ObjectMade(elements);
    FieldsMade(env, ObjectOf(elements), elements, 0);
  }

  /**
   A document read from any bytes can be written, unless it is too large, exactly when every object inside
   that passes for a tagged value is one that can be written. It is then read back the same exactly when
   each of them has the form of a tagged value that reading makes.
   */
  lemma {:induction false} ReadThenWrite(env: Env, bytes: seq<Byte>, tail: seq<Byte>)
    requires Sound(env) && Decode(env, bytes).Some?
    ensures var v := Decode(env, bytes).value.value;
            && v.Document?
            && (EncodeFields(env, v.fields, 0).Some? <==> FieldTagsWritable(env, v.fields))
            && (FieldTagsGood(env, v.fields) ==> FieldTagsWritable(env, v.fields))
            && (match Encode(env, v.fields)
                case None => FieldTagsWritable(env, v.fields) ==>
                  |Wrap(EncodeFields(env, v.fields, 0).value)| > MAX_DOCUMENT_BYTES
                case Some(written) =>
                  Decode(env, written + tail) == Some(Parsed(v, tail)) <==> FieldTagsGood(env, v.fields))
  {
    hide Sound, EncodeFields, Decode, Distinct, Wrap, Canonical, Regular, NestsWithin, TagsGood, TagsWritable, AgainFields;
    DecodedIsRegular(env, bytes);
    var fields := Decode(env, bytes).value.value.fields;
    FieldsTaken(env, fields, 0);
    if FieldTagsGood(env, fields) {
      forall i | 0 <= i < |fields| ensures Canonical(env, fields[i].value) && TagsWritable(env, fields[i].value) {
        GoodIsCanonical(env, fields[i].value);
        CanonicalWritable(env, fields[i].value);
      }
    }
    if Encode(env, fields).Some? {
      BodySmaller(EncodeFields(env, fields, 0).value);
      WrittenReads(env, fields, tail);
      if FieldTagsGood(env, fields) {
        FieldsSame(env, fields, 0);
      } else if AgainFields(env, fields) == fields {
        FieldsAgainGood(env, fields, 0);
      }
    }
  }
}
