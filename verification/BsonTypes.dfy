/**
 Whether an element that was read can be written again, and whether it keeps its type: exactly when, for
 every type and any bytes, and the inputs where it does not.
 */
module BsonTypes {
  import opened Bytes
  import opened Numerals
  import opened Texts
  import opened Wrappers
  import opened Bson
  import opened BsonRoundTrip
  import opened BsonTags
  import opened BsonDecoded
  import Decimal128

  // The flags can be told from the pattern and are lower-case letters: those after the last slash.
  predicate FlagsAccepted(flags: string) {
    forall i :: PastLast(flags, '/') <= i < |flags| ==> IsLower(flags[i])
  }

  // The value read from these bytes can be written.
  predicate IsAccepted(env: Env, type_: Byte, bytes: seq<Byte>) {
    type_ != T_DB_POINTER && (type_ == T_REGEX ==> FlagsAccepted(FlagsOf(env, bytes)))
  }

  // The element read from these bytes has its type again when it is written.
  predicate KeepsType(env: Env, type_: Byte, bytes: seq<Byte>, depth: nat)
    requires ReadValue(env, type_, bytes, depth).Some?
  {
    if type_ == T_DOUBLE then env.whole(bytes[..8]) == None
    else if type_ == T_INT64 then !(-TWO_31 <= Int64Of(bytes[..8]) < TWO_31)
    else if type_ == T_DOCUMENT then
      var v := ReadValue(env, type_, bytes, depth).value.value;
      !(v.Document? && IsTagged(v.fields))
    else type_ != T_UNDEFINED && type_ != T_JAVASCRIPT_SCOPE && type_ != T_DB_POINTER
  }

  /* ---------- Regular expressions ---------- */

  lemma {:induction false} LastOfTwo(a: string, b: string, c: char)
    requires a != "" && a[|a| - 1] == c
    ensures PastLast(a + b, c) == |a| + PastLast(b, c)
  {
    if b == "" {
      assert a + b == a;
    } else if b[|b| - 1] != c {
      assert (a + b)[..|a + b| - 1] == a + b[..|b| - 1];
      LastOfTwo(a, b[..|b| - 1], c);
    }
  }

  lemma {:induction false} RegexAccepted(env: Env, pattern: string, flags: string)
    requires '\0' !in pattern && '\0' !in flags
    ensures RegexBody(env, "/" + pattern + "/" + flags).Some? <==> FlagsAccepted(flags)
  {
    hide PastLast, Sorted;
    var front := "/" + pattern + "/";
    var value := front + flags;
    LastOfTwo(front, flags, '/');
    var last := PastLast(value, '/');
    SortedAscends(value[last..]);
    assert forall i :: last <= i < |value| ==> value[i] == flags[i - |front|];
    if !FlagsAccepted(flags) {
      var i :| PastLast(flags, '/') <= i < |flags| && !IsLower(flags[i]);
      assert !IsLower(value[i + |front|]);
    }
    forall i | 0 <= i < |value| ensures value[i] != '\0' {
      assert i < |front| || value[i] == flags[i - |front|];
    }
  }

  lemma {:induction false} RegexElement(env: Env, bytes: seq<Byte>)
    requires Sound(env) && ReadRegex(env, bytes).Some?
    ensures var v := ReadRegex(env, bytes).value.value;
            && v.Document? && IsTagged(v.fields)
            && (TagOf(env, v.fields).Some? <==> FlagsAccepted(FlagsOf(env, bytes)))
            && (TagOf(env, v.fields).Some? ==> TagOf(env, v.fields).value.type_ == T_REGEX)
  {
    hide ReadName, Sound, RegexBody, IsTagged, FlagsAccepted, Lookup;
    var pattern := ReadName(env, bytes).value;
    var flags := ReadName(env, pattern.rest).value;
    NameMade(env, bytes);
    NameMade(env, pattern.rest);
    RegexAccepted(env, pattern.value, flags.value);
    LookupPair("regex", "/" + pattern.value + "/" + flags.value);
  }

  /* ---------- Tagged values ---------- */

  function KindType(k: Kind): Byte {
    match k
    case ObjectId(_) => T_OBJECT_ID
    case Decimal(_) => T_DECIMAL128
    case FarDate(_) => T_DATE
    case Timestamp(_, _) => T_TIMESTAMP
    case Regex(_, _) => T_REGEX
    case Uuid(_) => T_BINARY
    case OtherBinary(_, _) => T_BINARY
    case JavaScript(_) => T_JAVASCRIPT
    case Symbol(_) => T_SYMBOL
    case MinKey => T_MIN_KEY
    case MaxKey => T_MAX_KEY
    case DbPointer(_, _) => T_DB_POINTER
  }

  lemma {:induction false} KindElement(env: Env, k: Kind, depth: nat)
    requires Sound(env) && GoodKind(k) && depth <= MAX_DEPTH
    ensures EncodeValue(env, Tag(env, k), depth).Some? && EncodeValue(env, Tag(env, k), depth).value.type_ == KindType(k)
  {
    hide TagName, TagText, EncodeTag, Sound;
    TagWritten(env, k);
    LookupPair(TagName(k), TagText(env, k));
    KindBytesType(env, k);
  }

  lemma KindBytesType(env: Env, k: Kind)
    requires GoodKind(k)
    ensures KindBytes(env, k).type_ == KindType(k)
  {
  }

  lemma TagIsNoDocument(env: Env, name: string, value: string)
    ensures EncodeTag(env, name, value).Some? ==> EncodeTag(env, name, value).value.type_ != T_DOCUMENT
  {
    hide Decimal128.FromText, RegexBody, TimestampBody, ReadHex, Without, SubtypeOf, StringBytes, BinaryBody, Integer64;
  }

  /* ---------- Elements ---------- */

  // The value is written, as an element of the type, or not.
  predicate IsWritten(env: Env, v: Value, depth: nat, accepted: bool, type_: Byte) {
    && (EncodeValue(env, v, depth).Some? <==> accepted)
    && (accepted ==> EncodeValue(env, v, depth).value.type_ == type_)
  }

  // The type an element without a document is written with.
  function WrittenType(env: Env, type_: Byte, bytes: seq<Byte>): Byte {
    if type_ == T_DOUBLE && |bytes| >= 8 && env.whole(bytes[..8]).Some? then
      if -TWO_31 <= env.whole(bytes[..8]).value < TWO_31 then T_INT32 else T_INT64
    else if type_ == T_INT64 && |bytes| >= 8 && -TWO_31 <= Int64Of(bytes[..8]) < TWO_31 then T_INT32
    else if type_ == T_UNDEFINED then T_NULL
    else type_
  }

  lemma {:induction false} FixedElement(env: Env, type_: Byte, bytes: seq<Byte>, depth: nat)
    requires Sound(env) && FixedWidth(type_) == Some(|bytes|) && depth <= MAX_DEPTH
    ensures IsWritten(env, FixedValue(env, type_, bytes), depth, true, WrittenType(env, type_, bytes))
  {
    hide FromLittleEndian, Int32Of, Int64Of, Tag, IsTagged, Int32Bytes, Int64Bytes;
    NumberRanges(bytes);
    assert |bytes| == 8 ==> bytes[..8] == bytes;
    if type_ == T_DATE && !(-MAX_DATE <= Int64Of(bytes) <= MAX_DATE) {
      KindElement(env, FarDate(Int64Of(bytes)), depth);
    } else if type_ == T_TIMESTAMP {
      NumberRanges(bytes[4..]);
      NumberRanges(bytes[..4]);
      KindElement(env, Timestamp(FromLittleEndian(bytes[4..]), FromLittleEndian(bytes[..4])), depth);
    } else if type_ == T_OBJECT_ID {
      KindElement(env, ObjectId(bytes), depth);
    } else if type_ == T_DECIMAL128 {
      KindElement(env, Decimal(FromLittleEndian(bytes)), depth);
    } else if type_ == T_MIN_KEY {
      KindElement(env, MinKey, depth);
    } else if type_ == T_MAX_KEY {
      KindElement(env, MaxKey, depth);
    }
  }

  lemma {:induction false} BinaryElement(env: Env, bytes: seq<Byte>, depth: nat)
    requires Sound(env) && ReadBinary(env, bytes).Some? && depth <= MAX_DEPTH
    ensures IsWritten(env, ReadBinary(env, bytes).value.value, depth, true, T_BINARY)
  {
    hide Tag, IsTagged, Int32Of, Sound, BinaryBody;
    var length := Int32Of(bytes[..4]);
    var inner := bytes[5..5 + length];
    if bytes[4] == 4 && |inner| == 16 {
      KindElement(env, Uuid(inner), depth);
    } else if bytes[4] != 0 {
      KindElement(env, OtherBinary(bytes[4], inner), depth);
    }
  }

  /** A DBPointer is read, but cannot be written again. */
  lemma {:induction false} DbPointerRefused(env: Env, space: string, id: seq<Byte>, depth: nat)
    ensures EncodeValue(env, Tag(env, DbPointer(space, id)), depth) == None
  {
    var text := space + ":" + Hex(id);
    LookupPair("dbPointer", text);
    assert EncodeTag(env, "dbPointer", text) == None by {
      assert "dbPointer"[0] == 'd' && "dbPointer"[1] == 'b';
    }
  }

  lemma {:induction false} TextElement(env: Env, type_: Byte, text: string, depth: nat)
    requires Sound(env) && depth <= MAX_DEPTH
    ensures IsWritten(env, Text(text), depth, true, T_STRING)
    ensures IsWritten(env, Tag(env, JavaScript(text)), depth, true, T_JAVASCRIPT)
    ensures IsWritten(env, Tag(env, Symbol(text)), depth, true, T_SYMBOL)
  {
    hide Tag, Sound, StringBytes;
    KindElement(env, JavaScript(text), depth);
    KindElement(env, Symbol(text), depth);
    PlainText(env, text, depth);
  }

  lemma PlainText(env: Env, text: string, depth: nat)
    requires depth <= MAX_DEPTH
    ensures EncodeValue(env, Text(text), depth) == Some(Encoded(T_STRING, StringBytes(env, text)))
  {
  }

  lemma {:induction false} ScalarElement(env: Env, type_: Byte, bytes: seq<Byte>, depth: nat)
    requires Sound(env) && ReadScalar(env, type_, bytes).Some? && depth <= MAX_DEPTH
    ensures IsWritten(env, ReadScalar(env, type_, bytes).value.value, depth,
                      IsAccepted(env, type_, bytes), WrittenType(env, type_, bytes))
  {
    hide Sound, FixedValue, ReadBinary, ReadString, ReadRegex, Tag, FlagsAccepted, FlagsOf, EncodeValue, Int64Of;
    if FixedWidth(type_).Some? {
      var taken := bytes[..FixedWidth(type_).value];
      FixedElement(env, type_, taken, depth);
      assert |taken| == 8 ==> taken[..8] == bytes[..8];
    } else if type_ == T_STRING || type_ == T_JAVASCRIPT || type_ == T_SYMBOL {
      TextElement(env, type_, ReadString(env, bytes).value.value, depth);
    } else if type_ == T_BINARY {
      BinaryElement(env, bytes, depth);
    } else if type_ == T_REGEX {
      RegexElement(env, bytes);
      RegexValueWritten(env, ReadRegex(env, bytes).value.value, depth);
    } else {
      DbPointerElement(env, bytes, depth);
    }
  }

  lemma RegexValueWritten(env: Env, v: Value, depth: nat)
    requires v.Document? && IsTagged(v.fields) && depth <= MAX_DEPTH
    ensures EncodeValue(env, v, depth) == TagOf(env, v.fields)
  {
  }

  lemma {:induction false} DbPointerElement(env: Env, bytes: seq<Byte>, depth: nat)
    ensures ReadDbPointer(env, bytes).Some? ==> EncodeValue(env, ReadDbPointer(env, bytes).value.value, depth) == None
  {
    hide ReadString, EncodeValue, Tag;
    if ReadDbPointer(env, bytes).Some? {
      var space := ReadString(env, bytes).value;
      DbPointerRefused(env, space.value, Take(space.rest, 12).value.value, depth);
    }
  }

  /** A value without a document, read from any bytes, can be written exactly when its type and flags allow it. */
  lemma {:induction false} ScalarAccepted(env: Env, type_: Byte, bytes: seq<Byte>, depth: nat)
    requires Sound(env) && ReadScalar(env, type_, bytes).Some? && depth <= MAX_DEPTH
    ensures EncodeValue(env, ReadScalar(env, type_, bytes).value.value, depth).Some? <==> IsAccepted(env, type_, bytes)
  {
    hide Sound, ReadScalar, EncodeValue, IsAccepted, WrittenType;
    ScalarElement(env, type_, bytes, depth);
  }

  /** Any value, read from any bytes, can be written exactly when the objects in it that pass for tagged values can. */
  lemma {:induction false} ValueTaken(env: Env, type_: Byte, bytes: seq<Byte>, depth: nat)
    requires Sound(env) && ReadValue(env, type_, bytes, depth).Some? && depth <= MAX_DEPTH
    ensures var v := ReadValue(env, type_, bytes, depth).value.value;
            EncodeValue(env, v, depth).Some? <==> TagsWritable(env, v)
  {
    hide Sound, ReadValue, EncodeValue, TagsWritable, Regular, NestsWithin;
    ValueMade(env, type_, bytes, depth);
    ValueAccepted(env, ReadValue(env, type_, bytes, depth).value.value, depth);
  }

  /**
   An element of any type, read from any bytes and written again, has the type it had exactly when it is
   not a double that holds a safe integer, a 64-bit integer that fits 32 bits, `undefined`, code with a
   scope, or a document that passes for a tagged value.
   */
  lemma {:induction false} TypeKept(env: Env, type_: Byte, bytes: seq<Byte>, depth: nat)
    requires Sound(env) && ReadValue(env, type_, bytes, depth).Some? && depth <= MAX_DEPTH
    ensures var e := EncodeValue(env, ReadValue(env, type_, bytes, depth).value.value, depth);
            e.Some? ==> (e.value.type_ == type_ <==> KeepsType(env, type_, bytes, depth))
  {
    hide Sound, ReadScalar, ReadString, ReadDocument, Tag, IsTagged, EncodeTag, EncodeScalar;
    var v := ReadValue(env, type_, bytes, depth).value.value;
    if type_ == T_DOCUMENT || type_ == T_ARRAY {
      ContainerKind(env, bytes, type_ == T_ARRAY, depth + 1);
      if type_ == T_DOCUMENT && IsTagged(v.fields) {
        TaggedTexts(v.fields);
        TagIsNoDocument(env, Lookup(v.fields, "$type").value.text, Lookup(v.fields, "$value").value.text);
      }
    } else if type_ == T_JAVASCRIPT_SCOPE {
      TextElement(env, type_, ReadString(env, bytes[4..]).value.value, depth);
    } else {
      ScalarElement(env, type_, bytes, depth);
      ScalarWidth(env, type_, bytes);
    }
  }

  lemma ScalarWidth(env: Env, type_: Byte, bytes: seq<Byte>)
    requires ReadScalar(env, type_, bytes).Some?
    ensures FixedWidth(type_) == Some(8) ==> |bytes| >= 8
  {
  }

  lemma ContainerKind(env: Env, bytes: seq<Byte>, isArray: bool, depth: nat)
    ensures var r := ReadDocument(env, bytes, isArray, depth);
            r.Some? ==> if isArray then r.value.value.List? else r.value.value.Document?
  {
  }

  /* ---------- The inputs that do not keep their type ---------- */

  // What an element is written as, when it is read from its own bytes.
  function Rewritten(env: Env, type_: Byte, body: seq<Byte>): Option<Byte> {
    match ReadValue(env, type_, body, 0)
    case None => None
    case Some(read) =>
      match EncodeValue(env, read.value, 0)
      case None => None
      case Some(e) => Some(e.type_)
  }

  lemma {:induction false} FixedRewritten(env: Env, type_: Byte, body: seq<Byte>)
    requires Sound(env) && FixedWidth(type_) == Some(|body|)
    ensures Rewritten(env, type_, body) == Some(WrittenType(env, type_, body))
  {
    hide Sound, FixedValue, EncodeValue, ReadScalar, WrittenType;
    FixedBack(env, type_, body, []);
    assert body + [] == body;
    NotAContainer(env, type_, body, 0);
    FixedElement(env, type_, body, 0);
  }

  // A double that holds a small whole number becomes a 32-bit integer.
  lemma WholeDoubleNarrowed(env: Env, bits: seq<Byte>)
    requires Sound(env) && |bits| == 8 && env.whole(bits) == Some(5)
    ensures Rewritten(env, T_DOUBLE, bits) == Some(T_INT32)
  {
    FixedRewritten(env, T_DOUBLE, bits);
    assert bits[..8] == bits;
  }

  // A 64-bit integer that fits 32 bits becomes one of 32 bits.
  lemma SmallInt64Narrowed(env: Env, n: int)
    requires Sound(env) && -TWO_31 <= n < TWO_31
    ensures Rewritten(env, T_INT64, Int64Bytes(n)) == Some(T_INT32)
  {
    hide Int64Bytes, Int64Of;
    Int64Back(n);
    FixedRewritten(env, T_INT64, Int64Bytes(n));
    assert Int64Bytes(n)[..8] == Int64Bytes(n);
  }

  lemma UndefinedBecomesNull(env: Env)
    requires Sound(env)
    ensures Rewritten(env, T_UNDEFINED, []) == Some(T_NULL)
  {
    FixedRewritten(env, T_UNDEFINED, []);
  }

  // Code with a scope is written without it.
  lemma {:induction false} ScopeDropped(env: Env, bytes: seq<Byte>)
    requires Sound(env) && ReadValue(env, T_JAVASCRIPT_SCOPE, bytes, 0).Some?
    ensures Rewritten(env, T_JAVASCRIPT_SCOPE, bytes) == Some(T_JAVASCRIPT)
  {
    hide ReadString, ReadDocument, Tag, Sound, EncodeValue;
    TextElement(env, T_STRING, ReadString(env, bytes[4..]).value.value, 0);
  }

  lemma {:induction false} RegexReadAndWritten(env: Env, pattern: string, flags: string)
    requires Sound(env) && '\0' !in pattern && '\0' !in flags
    ensures var body := NameBytes(env, pattern).GetOr([]) + NameBytes(env, flags).GetOr([]);
            && ReadValue(env, T_REGEX, body, 0) == Some(Parsed(Tag(env, Regex(pattern, flags)), []))
            && EncodeValue(env, Tag(env, Regex(pattern, flags)), 0) ==
               OfType(T_REGEX, RegexBody(env, "/" + pattern + "/" + flags))
  {
    hide NameBytes, ReadScalar, Sound, RegexBody;
    var body := NameBytes(env, pattern).GetOr([]) + NameBytes(env, flags).GetOr([]);
    FlagsBack(env, pattern, flags, []);
    assert body + [] == body;
    NotAContainer(env, T_REGEX, body, 0);
    LookupPair("regex", "/" + pattern + "/" + flags);
  }

  // Flags in upper case are read and cannot be written.
  lemma {:induction false} UpperFlagRefused(env: Env)
    requires Sound(env)
    ensures var body := NameBytes(env, "a").GetOr([]) + NameBytes(env, "X").GetOr([]);
            ReadValue(env, T_REGEX, body, 0).Some? && Rewritten(env, T_REGEX, body) == None
  {
    hide NameBytes, ReadValue, EncodeValue, RegexBody, Sound, Tag;
    RegexReadAndWritten(env, "a", "X");
    RegexAccepted(env, "a", "X");
    assert PastLast("X", '/') == 0 by {
      assert "X"[..0] == "";
    }
    assert !IsLower("X"[0]);
  }

  lemma {:induction false} SortedDecides(env: Env, pattern: string, f: string, g: string)
    requires (forall i :: 0 <= i < |f| ==> IsLower(f[i])) && (forall i :: 0 <= i < |g| ==> IsLower(g[i]))
    requires Sorted(f) == Sorted(g)
    ensures RegexBody(env, "/" + pattern + "/" + f) == RegexBody(env, "/" + pattern + "/" + g)
  {
    hide Sorted, PastLast, NameBytes;
    var v, w := "/" + pattern + "/" + f, "/" + pattern + "/" + g;
    assert v == ("/" + pattern) + ['/'] + f && w == ("/" + pattern) + ['/'] + g;
    LastFound("/" + pattern, '/', f);
    LastFound("/" + pattern, '/', g);
    assert v[|pattern| + 2..] == f && w[|pattern| + 2..] == g;
    assert v[1..|pattern| + 1] == pattern && w[1..|pattern| + 1] == pattern;
  }

  lemma {:induction false} FlagsDecide(pattern: string, f: string)
    requires '/' !in f && '\0' !in pattern
    ensures IsRegexForm("/" + pattern + "/" + f) <==> GoodFlags(f)
  {
    hide PastLast;
    var v := "/" + pattern + "/" + f;
    assert v == ("/" + pattern) + ['/'] + f;
    LastFound("/" + pattern, '/', f);
    assert v[|pattern| + 2..] == f && v[1..|pattern| + 1] == pattern;
  }

  lemma SortedPair()
    ensures Sorted("xi") == "ix" && Sorted("ix") == "ix" && GoodFlags("ix") && !GoodFlags("xi")
  {
    assert "xi"[1..] == "i" && "ix"[1..] == "x" && "i"[1..] == "" && "x"[1..] == "";
    assert Sorted("x") == "x" && Sorted("i") == "i";
    assert "xi"[0] > "xi"[1];
  }

  // Flags out of order are put in order: the type is kept, the value is another.
  lemma {:induction false} FlagsReordered(env: Env, pattern: string)
    requires '\0' !in pattern
    ensures EncodeTag(env, "regex", "/" + pattern + "/xi") == EncodeTag(env, "regex", "/" + pattern + "/ix")
    ensures !IsTagForm(env, "regex", "/" + pattern + "/xi") && IsTagForm(env, "regex", "/" + pattern + "/ix")
  {
    hide RegexBody, IsRegexForm, Sorted, GoodFlags;
    SortedPair();
    SortedDecides(env, pattern, "xi", "ix");
    FlagsDecide(pattern, "xi");
    FlagsDecide(pattern, "ix");
    assert "/" + pattern + "/" + "xi" == "/" + pattern + "/xi" && "/" + pattern + "/" + "ix" == "/" + pattern + "/ix";
  }

  // A document that looks like an ObjectId becomes one.
  lemma {:induction false} DocumentBecomesObjectId(env: Env, id: seq<Byte>, depth: nat)
    requires Sound(env) && |id| == 12 && depth <= MAX_DEPTH
    ensures EncodeValue(env, Document([Field("$type", Text("objectId")), Field("$value", Text(Hex(id)))]), depth)
            == Some(Encoded(T_OBJECT_ID, id))
  {
    hide Hex, EncodeTag;
    LookupPair("objectId", Hex(id));
    TagWritten(env, ObjectId(id));
  }

  /* ---------- One level deeper than reading allows ---------- */

  function Nested(levels: nat): seq<Field> {
    if levels == 0 then [] else [Field("a", Document(Nested(levels - 1)))]
  }

  lemma {:induction false} NestedWritten(env: Env, levels: nat, depth: nat)
    requires Sound(env) && depth + levels <= MAX_DEPTH + 1
    ensures EncodeFields(env, Nested(levels), depth).Some?
    decreases levels
  {
    hide Sound;
    if levels > 0 {
      NestedWritten(env, levels - 1, depth + 1);
      assert !IsTagged(Nested(levels - 1));
      assert Nested(levels)[..0] == [];
      assert EncodeValue(env, Document(Nested(levels - 1)), depth).Some?;
      assert NameBytes(env, "a").Some?;
    }
  }

  lemma {:induction false} NestedTooDeep(levels: nat, depth: nat)
    requires levels > depth
    ensures !FieldsNestWithin(Nested(levels), depth)
  {
    assert !IsTagged(Nested(levels - 1));
    if depth > 0 {
      NestedTooDeep(levels - 1, depth - 1);
    }
    assert !NestsWithin(Nested(levels)[0].value, depth);
  }

  lemma {:induction false} NestedRegular(env: Env, levels: nat)
    ensures CanonicalFields(env, Nested(levels))
  {
    if levels > 0 {
      NestedRegular(env, levels - 1);
      assert !IsTagged(Nested(levels - 1));
    }
  }

  /** An empty document one level deeper than reading allows is written all the same, and not read. */
  lemma {:induction false} EmptyOneTooDeep(env: Env, tail: seq<Byte>)
    requires Sound(env)
    ensures var fields := Nested(MAX_DEPTH + 1);
            && EncodeFields(env, fields, 0).Some?
            && (Encode(env, fields).Some? ==> Decode(env, Encode(env, fields).value + tail) == None)
  {
    hide Sound, EncodeFields, Decode, Wrap, Nested, CanonicalFields, FieldsNestWithin;
    var fields := Nested(MAX_DEPTH + 1);
    NestedWritten(env, MAX_DEPTH + 1, 0);
    NestedTooDeep(MAX_DEPTH + 1, MAX_DEPTH);
    NestedRegular(env, MAX_DEPTH + 1);
    if Encode(env, fields).Some? {
      WriteThenRead(env, fields, tail);
    }
  }
}
