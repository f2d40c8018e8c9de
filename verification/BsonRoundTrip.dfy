/**
 Writing a document and reading it back, and reading a document and writing it: for the values that
 reading makes, neither loses anything.
 */
module BsonRoundTrip {
  import opened Bytes
  import opened Numerals
  import opened Texts
  import opened Wrappers
  import opened Bson
  import Decimal128

  /* ---------- The values that reading makes ---------- */

  predicate Ascending(s: string) {
    forall i, j :: 0 <= i < j < |s| ==> s[i] <= s[j]
  }

  predicate GoodFlags(flags: string) {
    Ascending(flags) && forall i :: 0 <= i < |flags| ==> IsLower(flags[i])
  }

  predicate GoodKind(k: Kind) {
    match k
    case ObjectId(id) => |id| == 12
    case Decimal(bits) => bits < Decimal128.TWO_128
    case FarDate(millis) => -TWO_63 <= millis < TWO_63 && !(-MAX_DATE <= millis <= MAX_DATE)
    case Timestamp(seconds, increment) => seconds < TWO_32 && increment < TWO_32
    case Regex(pattern, flags) => '\0' !in pattern && GoodFlags(flags)
    case Uuid(id) => |id| == 16
    case OtherBinary(subtype, bytes) => subtype != 0 && !(subtype == 4 && |bytes| == 16)
    case DbPointer(_, _) => false
    case _ => true
  }

  ghost predicate IsGoodTag(env: Env, v: Value) {
    exists k :: GoodKind(k) && v == Tag(env, k)
  }

  predicate Distinct(fields: seq<Field>) {
    forall i, j :: 0 <= i < j < |fields| ==> fields[i].name != fields[j].name
  }

  // A document that is not taken for a tagged value, or is one; integers as numbers when they are safe.
  ghost predicate Canonical(env: Env, v: Value) {
    match v
    case Int(n) => -MAX_SAFE <= n <= MAX_SAFE
    case Double(bits) => |bits| == 8 && env.whole(bits) == None
    case Big(n) => -TWO_63 <= n < TWO_63 && !(-MAX_SAFE <= n <= MAX_SAFE)
    case Date(millis) => -MAX_DATE <= millis <= MAX_DATE
    case List(items) => forall i :: 0 <= i < |items| ==> Canonical(env, items[i])
    case Document(fields) => if IsTagged(fields) then IsGoodTag(env, v) else CanonicalFields(env, fields)
    case _ => true
  }

  ghost predicate CanonicalFields(env: Env, fields: seq<Field>) {
    && Distinct(fields)
    && forall i :: 0 <= i < |fields| ==> '\0' !in fields[i].name && Canonical(env, fields[i].value)
  }

  // The same of a value that may hold objects that only pass for tagged values.
  predicate Regular(env: Env, v: Value) {
    match v
    case Int(n) => -MAX_SAFE <= n <= MAX_SAFE
    case Double(bits) => |bits| == 8 && env.whole(bits) == None
    case Big(n) => -TWO_63 <= n < TWO_63 && !(-MAX_SAFE <= n <= MAX_SAFE)
    case Date(millis) => -MAX_DATE <= millis <= MAX_DATE
    case List(items) => forall i :: 0 <= i < |items| ==> Regular(env, items[i])
    case Document(fields) => IsTagged(fields) || RegularFields(env, fields)
    case _ => true
  }

  predicate RegularFields(env: Env, fields: seq<Field>) {
    && Distinct(fields)
    && forall i :: 0 <= i < |fields| ==> '\0' !in fields[i].name && Regular(env, fields[i].value)
  }

  // How deep documents and arrays nest; a tagged value is not a document.
  predicate NestsWithin(v: Value, depth: int) {
    match v
    case List(items) => depth > 0 && forall i :: 0 <= i < |items| ==> NestsWithin(items[i], depth - 1)
    case Document(fields) => IsTagged(fields) || (depth > 0 && FieldsNestWithin(fields, depth - 1))
    case _ => true
  }

  predicate FieldsNestWithin(fields: seq<Field>, depth: int) {
    forall i :: 0 <= i < |fields| ==> NestsWithin(fields[i].value, depth)
  }

  /* ---------- Numbers, names and texts ---------- */

  lemma Widths()
    ensures Pow256(4) == TWO_32 && Pow256(8) == TWO_64 && Pow256(16) == Decimal128.TWO_128
  {
    assert Pow256(2) == 65536;
    assert Pow256(4) == TWO_32;
    assert Pow256(6) == 0x1_0000_0000_0000;
    assert Pow256(8) == TWO_64;
    assert Pow256(12) == 0x1_0000_0000_0000_0000_0000_0000;
  }

  lemma Int32Back(n: int)
    requires -TWO_31 <= n < TWO_31
    ensures |Int32Bytes(n)| == 4 && Int32Of(Int32Bytes(n)) == n
  {
    hide LittleEndian, FromLittleEndian;
    Widths();
    LittleEndianRead(n % TWO_32, 4);
  }

  lemma Int64Back(n: int)
    requires -TWO_63 <= n < TWO_63
    ensures |Int64Bytes(n)| == 8 && Int64Of(Int64Bytes(n)) == n
  {
    hide LittleEndian, FromLittleEndian;
    Widths();
    LittleEndianRead(n % TWO_64, 8);
  }

  lemma {:induction false} ZeroAtEnd(bytes: seq<Byte>, tail: seq<Byte>)
    requires 0 !in bytes
    ensures ZeroAt(bytes + [0] + tail) == |bytes|
  {
    if bytes != [] {
      ZeroAtEnd(bytes[1..], tail);
      assert (bytes + [0] + tail)[1..] == bytes[1..] + [0] + tail;
    }
  }

  lemma NameBack(env: Env, name: string, tail: seq<Byte>)
    requires Sound(env) && '\0' !in name
    ensures var bytes := NameBytes(env, name);
            bytes.Some? && ReadName(env, bytes.value + tail) == Some(Parsed(name, tail))
  {
    var bytes := env.utf8(name);
    ZeroAtEnd(bytes, tail);
    assert (bytes + [0] + tail)[..|bytes|] == bytes;
    assert (bytes + [0] + tail)[|bytes| + 1..] == tail;
  }

  lemma StringBack(env: Env, text: string, tail: seq<Byte>)
    requires Sound(env) && |StringBytes(env, text)| <= MAX_DOCUMENT_BYTES
    ensures ReadString(env, StringBytes(env, text) + tail) == Some(Parsed(text, tail))
  {
    hide Int32Of, Int32Bytes;
    var bytes := env.utf8(text);
    var all := StringBytes(env, text) + tail;
    Int32Length(|bytes| + 1);
    Int32Back(|bytes| + 1);
    assert all[..4] == Int32Bytes(|bytes| + 1);
    assert all[4..4 + |bytes|] == bytes;
    assert all[4 + |bytes| + 1..] == tail;
  }

  lemma Int32Length(n: int)
    ensures |Int32Bytes(n)| == 4
  {
    LittleEndianLength(n % TWO_32, 4);
  }

  lemma BinaryBack(env: Env, subtype: Byte, bytes: seq<Byte>, tail: seq<Byte>)
    requires |BinaryBody(subtype, bytes)| <= MAX_DOCUMENT_BYTES
    ensures ReadBinary(env, BinaryBody(subtype, bytes) + tail) == Some(Parsed(BinaryOf(env, subtype, bytes), tail))
  {
    hide Int32Of, Int32Bytes, BinaryOf;
    var all := BinaryBody(subtype, bytes) + tail;
    Int32Length(|bytes|);
    Int32Back(|bytes|);
    assert all[..4] == Int32Bytes(|bytes|);
    assert all[5..5 + |bytes|] == bytes;
    assert all[5 + |bytes|..] == tail;
  }

  /* ---------- Texts of tagged values ---------- */

  lemma HexPairBack(b: Byte)
    ensures |HexPair(b)| == 2 && '-' !in HexPair(b)
    ensures HexValue(HexPair(b)[0]).Some? && HexValue(HexPair(b)[1]).Some? && HexByte(HexPair(b)[0], HexPair(b)[1]) == b
  {
    HexDigitBack(b / 16);
    HexDigitBack(b % 16);
  }

  lemma HexDigitBack(n: nat)
    requires n < 16
    ensures HexValue(HexDigit(n)) == Some(n) && HexDigit(n) != '-'
  {
  }

  lemma {:induction false} HexBack(bytes: seq<Byte>)
    ensures |Hex(bytes)| == 2 * |bytes| && ReadHex(Hex(bytes)) == Some(bytes)
  {
    hide HexPair, HexByte, HexValue;
    if bytes != [] {
      HexBack(bytes[1..]);
      HexPairBack(bytes[0]);
      assert Hex(bytes)[2..] == Hex(bytes[1..]);
      assert bytes == [bytes[0]] + bytes[1..];
    }
  }

  lemma {:induction false} HexWithoutDash(bytes: seq<Byte>, rest: string)
    ensures Without(Hex(bytes) + rest, '-') == Hex(bytes) + Without(rest, '-')
  {
    hide HexPair, Without;
    if bytes == [] {
      assert Hex(bytes) + rest == rest;
      assert Hex(bytes) + Without(rest, '-') == Without(rest, '-');
    } else {
      HexPairBack(bytes[0]);
      HexWithoutDash(bytes[1..], rest);
      var more := Hex(bytes[1..]) + rest;
      assert Hex(bytes) + rest == HexPair(bytes[0]) + more;
      TwoKept(HexPair(bytes[0]), more, '-');
      assert HexPair(bytes[0]) + (Hex(bytes[1..]) + Without(rest, '-')) == Hex(bytes) + Without(rest, '-');
    }
  }

  lemma TwoKept(two: string, rest: string, c: char)
    requires |two| == 2 && c !in two
    ensures Without(two + rest, c) == two + Without(rest, c)
  {
    assert (two + rest)[1..] == [two[1]] + rest;
    assert ([two[1]] + rest)[1..] == rest;
    assert two == [two[0]] + [two[1]];
  }

  lemma {:induction false} HexJoined(a: seq<Byte>, b: seq<Byte>)
    ensures Hex(a) + Hex(b) == Hex(a + b)
  {
    hide HexPair;
    if a == [] {
      assert a + b == b;
    } else {
      HexJoined(a[1..], b);
      assert (a + b)[1..] == a[1..] + b;
      assert HexPair(a[0]) + Hex(a[1..]) + Hex(b) == HexPair(a[0]) + (Hex(a[1..]) + Hex(b));
    }
  }

  lemma DashStripped(bytes: seq<Byte>, rest: string)
    ensures Without(Hex(bytes) + ("-" + rest), '-') == Hex(bytes) + Without(rest, '-')
  {
    HexWithoutDash(bytes, "-" + rest);
    assert ("-" + rest)[1..] == rest;
  }

  lemma {:induction false} DashedHexBack(id: seq<Byte>)
    requires |id| == 16
    ensures Without(DashedHex(id), '-') == Hex(id)
  {
    hide Hex, Without;
    var a, b, c, d, e := id[..4], id[4..6], id[6..8], id[8..10], id[10..];
    var de := Hex(d) + ("-" + Hex(e));
    var cde := Hex(c) + ("-" + de);
    var bcde := Hex(b) + ("-" + cde);
    assert DashedHex(id) == Hex(a) + ("-" + bcde);
    HexWithoutDash(e, "");
    assert Hex(e) + "" == Hex(e);
    assert Without("", '-') == "" by {
      NothingWithout();
    }
    DashStripped(d, Hex(e));
    DashStripped(c, de);
    DashStripped(b, cde);
    DashStripped(a, bcde);
    HexJoined(d, e);
    HexJoined(c, d + e);
    HexJoined(b, c + (d + e));
    HexJoined(a, b + (c + (d + e)));
    assert a + (b + (c + (d + e))) == id;
  }

  lemma NothingWithout()
    ensures Without("", '-') == ""
  {
  }

  lemma {:induction false} LastFound(before: string, c: char, after: string)
    requires c !in after
    ensures PastLast(before + [c] + after, c) == |before| + 1
  {
    if after == "" {
      assert before + [c] + after == before + [c];
    } else {
      var n := |after| - 1;
      var s := before + [c] + after;
      assert s[|s| - 1] == after[n];
      assert s[..|s| - 1] == before + [c] + after[..n];
      LastFound(before, c, after[..n]);
    }
  }

  lemma DigitsPlain(n: nat, c: char)
    requires !IsDigit(c)
    ensures c !in Digits(n)
  {
    DigitsRead(n);
  }

  lemma {:induction false} InsertFirst(c: char, s: string)
    requires s == "" || c <= s[0]
    ensures Insert(c, s) == [c] + s
  {
  }

  lemma {:induction false} SortedAlready(s: string)
    requires Ascending(s)
    ensures Sorted(s) == s
  {
    if s != "" {
      SortedAlready(s[1..]);
      InsertFirst(s[0], s[1..]);
    }
  }

  lemma {:induction false} RegexWritten(env: Env, pattern: string, flags: string)
    requires Sound(env) && '\0' !in pattern && GoodFlags(flags)
    ensures RegexBody(env, "/" + pattern + "/" + flags) == Some(NameBytes(env, pattern).GetOr([]) + NameBytes(env, flags).GetOr([]))
  {
    hide Sorted, PastLast;
    var value := "/" + pattern + "/" + flags;
    var last := PastLast(value, '/');
    assert value == ("/" + pattern) + ['/'] + flags;
    LastFound("/" + pattern, '/', flags);
    assert value[last..] == flags;
    assert value[1..last - 1] == pattern;
    SortedAlready(flags);
  }

  lemma {:induction false} TimestampWritten(env: Env, seconds: nat, increment: nat)
    requires Sound(env) && seconds < TWO_32 && increment < TWO_32
    ensures TimestampBody(env, Digits(seconds) + ":" + Digits(increment)) ==
            Some(LittleEndian(increment, 4) + LittleEndian(seconds, 4))
  {
    hide LittleEndian, Digits;
    var value := Digits(seconds) + ":" + Digits(increment);
    DigitsPlain(seconds, ':');
    DigitsPlain(increment, ':');
    IndexFound(Digits(seconds), ':', Digits(increment));
    IndexFound(Digits(increment), ':', "");
    assert value == Digits(seconds) + [':'] + Digits(increment);
    assert value[..|Digits(seconds)|] == Digits(seconds);
    assert value[|Digits(seconds)| + 1..] == Digits(increment);
    assert Digits(increment)[..|Digits(increment)|] == Digits(increment);
  }

  lemma SubtypeWritten(subtype: Byte)
    ensures SubtypeOf("binary:" + Digits(subtype)) == Some(subtype)
  {
    DigitsRead(subtype);
    var name := "binary:" + Digits(subtype);
    assert name[..7] == "binary:" && name[7..] == Digits(subtype);
  }

  // The bytes of a tagged value.
  function KindBytes(env: Env, k: Kind): Encoded
    requires GoodKind(k)
  {
    match k
    case ObjectId(id) => Encoded(T_OBJECT_ID, id)
    case Decimal(bits) => Encoded(T_DECIMAL128, LittleEndian(Decimal128.Canonical(bits), 16))
    case FarDate(millis) => Encoded(T_DATE, Int64Bytes(millis))
    case Timestamp(seconds, increment) => Encoded(T_TIMESTAMP, LittleEndian(increment, 4) + LittleEndian(seconds, 4))
    case Regex(pattern, flags) => Encoded(T_REGEX, NameBytes(env, pattern).GetOr([]) + NameBytes(env, flags).GetOr([]))
    case Uuid(id) => Encoded(T_BINARY, BinaryBody(4, id))
    case OtherBinary(subtype, bytes) => Encoded(T_BINARY, BinaryBody(subtype, bytes))
    case JavaScript(code) => Encoded(T_JAVASCRIPT, StringBytes(env, code))
    case Symbol(text) => Encoded(T_SYMBOL, StringBytes(env, text))
    case MinKey => Encoded(T_MIN_KEY, [])
    case MaxKey => Encoded(T_MAX_KEY, [])
  }

  lemma {:induction false} TagWritten(env: Env, k: Kind)
    requires Sound(env) && GoodKind(k)
    ensures EncodeTag(env, TagName(k), TagText(env, k)) == Some(KindBytes(env, k))
  {
    hide LittleEndian, Decimal128.FromText, Decimal128.ToText, Decimal128.Canonical, RegexBody, TimestampBody, Hex,
      ReadHex, DashedHex, Without, Signed, SubtypeOf, Digits, NameBytes, StringBytes;
    match k
    case ObjectId(id) => HexBack(id);
    case Decimal(bits) => Decimal128.PatternsReturn(bits);
    case FarDate(millis) =>
    case Timestamp(seconds, increment) => TimestampWritten(env, seconds, increment);
    case Regex(pattern, flags) => RegexWritten(env, pattern, flags);
    case Uuid(id) =>
      DashedHexBack(id);
      HexBack(id);
    case OtherBinary(subtype, bytes) => BinaryWritten(env, subtype, bytes);
    case _ =>
  }

  lemma {:induction false} BinaryWritten(env: Env, subtype: Byte, bytes: seq<Byte>)
    requires Sound(env)
    ensures EncodeTag(env, "binary:" + Digits(subtype), env.base64(bytes)) == Some(Encoded(T_BINARY, BinaryBody(subtype, bytes)))
  {
    hide SubtypeOf, Digits, ReadHex, Decimal128.FromText, RegexBody, TimestampBody, StringBytes, Without, Integer64;
    SubtypeWritten(subtype);
    DigitsRead(subtype);
    assert ("binary:" + Digits(subtype))[6] == ':';
  }

  lemma {:induction false} FixedBack(env: Env, type_: Byte, body: seq<Byte>, tail: seq<Byte>)
    requires FixedWidth(type_) == Some(|body|)
    ensures ReadScalar(env, type_, body + tail) == Some(Parsed(FixedValue(env, type_, body), tail))
  {
    hide FixedValue;
    assert (body + tail)[..|body|] == body && (body + tail)[|body|..] == tail;
  }

  lemma {:induction false} RegexBack(env: Env, pattern: string, flags: string, tail: seq<Byte>)
    requires Sound(env) && '\0' !in pattern && GoodFlags(flags)
    ensures var body := NameBytes(env, pattern).GetOr([]) + NameBytes(env, flags).GetOr([]);
            ReadScalar(env, T_REGEX, body + tail) == Some(Parsed(Tag(env, Regex(pattern, flags)), tail))
  {
    hide NameBytes, ReadName, ReadString, ReadBinary, Sound;
    var p, f := NameBytes(env, pattern).GetOr([]), NameBytes(env, flags).GetOr([]);
    NameBack(env, pattern, f + tail);
    NameBack(env, flags, tail);
    assert p + f + tail == p + (f + tail);
  }

  lemma {:induction false} TimestampBack(env: Env, seconds: nat, increment: nat, tail: seq<Byte>)
    requires seconds < TWO_32 && increment < TWO_32
    ensures var body := LittleEndian(increment, 4) + LittleEndian(seconds, 4);
            ReadScalar(env, T_TIMESTAMP, body + tail) == Some(Parsed(Tag(env, Timestamp(seconds, increment)), tail))
  {
    hide LittleEndian, FromLittleEndian, ReadScalar, Tag;
    var body := LittleEndian(increment, 4) + LittleEndian(seconds, 4);
    Widths();
    LittleEndianRead(seconds, 4);
    LittleEndianRead(increment, 4);
    assert body[..4] == LittleEndian(increment, 4) && body[4..] == LittleEndian(seconds, 4);
    FixedBack(env, T_TIMESTAMP, body, tail);
  }

  lemma {:induction false} DecimalBack(env: Env, bits: nat, tail: seq<Byte>)
    requires bits < Decimal128.TWO_128
    ensures var body := LittleEndian(Decimal128.Canonical(bits), 16);
            |body| == 16 && ReadScalar(env, T_DECIMAL128, body + tail) == Some(Parsed(Tag(env, Decimal(bits)), tail))
  {
    hide LittleEndian, FromLittleEndian, ReadScalar, Decimal128.Canonical, Decimal128.FromText, Decimal128.ToText;
    Decimal128.PatternsReturn(bits);
    Widths();
    LittleEndianRead(Decimal128.Canonical(bits), 16);
    FixedBack(env, T_DECIMAL128, LittleEndian(Decimal128.Canonical(bits), 16), tail);
  }

  lemma {:induction false} TextBack(env: Env, type_: Byte, text: string, tail: seq<Byte>)
    requires Sound(env) && |StringBytes(env, text)| <= MAX_DOCUMENT_BYTES
    requires type_ == T_STRING || type_ == T_JAVASCRIPT || type_ == T_SYMBOL
    ensures ReadScalar(env, type_, StringBytes(env, text) + tail) ==
            Some(Parsed(if type_ == T_STRING then Text(text)
                        else if type_ == T_JAVASCRIPT then Tag(env, JavaScript(text)) else Tag(env, Symbol(text)), tail))
  {
    hide StringBytes, ReadString, Sound, Tag;
    StringBack(env, text, tail);
  }

  lemma {:induction false} KindBack(env: Env, k: Kind, tail: seq<Byte>)
    requires Sound(env) && GoodKind(k) && |KindBytes(env, k).body| <= MAX_DOCUMENT_BYTES
    ensures var e := KindBytes(env, k);
            ReadScalar(env, e.type_, e.body + tail) == Some(Parsed(Tag(env, k), tail))
  {
    hide LittleEndian, FromLittleEndian, ReadScalar, Decimal128.Canonical, Decimal128.ToText, Decimal128.FromText,
      NameBytes, StringBytes, Int64Of, Int64Bytes, TagName, TagText, ReadBinary, BinaryBody;
    match k
    case ObjectId(id) => FixedBack(env, T_OBJECT_ID, id, tail);
    case Decimal(bits) => DecimalBack(env, bits, tail);
    case FarDate(millis) =>
      Int64Back(millis);
      FixedBack(env, T_DATE, Int64Bytes(millis), tail);
    case Timestamp(seconds, increment) => TimestampBack(env, seconds, increment, tail);
    case Regex(pattern, flags) => RegexBack(env, pattern, flags, tail);
    case Uuid(id) => BinaryScalarBack(env, 4, id, tail);
    case OtherBinary(subtype, bytes) => BinaryScalarBack(env, subtype, bytes, tail);
    case JavaScript(code) => TextBack(env, T_JAVASCRIPT, code, tail);
    case Symbol(text) => TextBack(env, T_SYMBOL, text, tail);
    case MinKey => FixedBack(env, T_MIN_KEY, [], tail);
    case MaxKey => FixedBack(env, T_MAX_KEY, [], tail);
  }

  lemma BinaryScalarBack(env: Env, subtype: Byte, bytes: seq<Byte>, tail: seq<Byte>)
    requires |BinaryBody(subtype, bytes)| <= MAX_DOCUMENT_BYTES
    ensures ReadScalar(env, T_BINARY, BinaryBody(subtype, bytes) + tail) ==
            Some(Parsed(BinaryOf(env, subtype, bytes), tail))
  {
    hide BinaryBody, ReadBinary, BinaryOf;
    BinaryBack(env, subtype, bytes, tail);
  }

  /* ---------- What is written for any object that passes for a tagged value ---------- */

  function TagOf(env: Env, fields: seq<Field>): Option<Encoded>
    requires IsTagged(fields)
  {
    TaggedTexts(fields);
    EncodeTag(env, Lookup(fields, "$type").value.text, Lookup(fields, "$value").value.text)
  }

  // The bytes are a value of the type, and nothing that follows is looked at.
  ghost predicate StandsAlone(env: Env, e: Encoded, tail: seq<Byte>) {
    && ReadScalar(env, e.type_, e.body).Some?
    && ReadScalar(env, e.type_, e.body + tail) == Some(Parsed(ReadScalar(env, e.type_, e.body).value.value, tail))
  }

  lemma {:induction false} FixedAlone(env: Env, e: Encoded, tail: seq<Byte>)
    requires FixedWidth(e.type_) == Some(|e.body|)
    ensures StandsAlone(env, e, tail)
  {
    hide ReadScalar, FixedValue;
    FixedBack(env, e.type_, e.body, tail);
    FixedBack(env, e.type_, e.body, []);
    assert e.body + [] == e.body;
  }

  lemma {:induction false} BinaryAlone(env: Env, subtype: Byte, bytes: seq<Byte>, tail: seq<Byte>)
    requires |BinaryBody(subtype, bytes)| <= MAX_DOCUMENT_BYTES
    ensures StandsAlone(env, Encoded(T_BINARY, BinaryBody(subtype, bytes)), tail)
  {
    hide ReadScalar, BinaryBody;
    BinaryScalarBack(env, subtype, bytes, tail);
    BinaryScalarBack(env, subtype, bytes, []);
    assert BinaryBody(subtype, bytes) + [] == BinaryBody(subtype, bytes);
  }

  lemma {:induction false} TextAlone(env: Env, type_: Byte, text: string, tail: seq<Byte>)
    requires Sound(env) && |StringBytes(env, text)| <= MAX_DOCUMENT_BYTES
    requires type_ == T_JAVASCRIPT || type_ == T_SYMBOL
    ensures StandsAlone(env, Encoded(type_, StringBytes(env, text)), tail)
  {
    hide ReadScalar, StringBytes, Sound;
    TextBack(env, type_, text, tail);
    TextBack(env, type_, text, []);
    assert StringBytes(env, text) + [] == StringBytes(env, text);
  }

  // A regular expression with any flags without a zero character.
  lemma {:induction false} FlagsBack(env: Env, pattern: string, flags: string, tail: seq<Byte>)
    requires Sound(env) && '\0' !in pattern && '\0' !in flags
    ensures var body := NameBytes(env, pattern).GetOr([]) + NameBytes(env, flags).GetOr([]);
            ReadScalar(env, T_REGEX, body + tail) == Some(Parsed(Tag(env, Regex(pattern, flags)), tail))
  {
    hide NameBytes, ReadName, ReadString, ReadBinary, Sound;
    var p, f := NameBytes(env, pattern).GetOr([]), NameBytes(env, flags).GetOr([]);
    NameBack(env, pattern, f + tail);
    NameBack(env, flags, tail);
    assert p + f + tail == p + (f + tail);
  }

  lemma {:induction false} RegexAlone(env: Env, value: string, tail: seq<Byte>)
    requires Sound(env) && RegexBody(env, value).Some?
    ensures StandsAlone(env, Encoded(T_REGEX, RegexBody(env, value).value), tail)
  {
    hide ReadScalar, Sorted, PastLast, Sound;
    var last := PastLast(value, '/');
    var pattern, flags := value[1..last - 1], Sorted(value[last..]);
    FlagsBack(env, pattern, flags, tail);
    FlagsBack(env, pattern, flags, []);
    var body := RegexBody(env, value).value;
    assert body + [] == body;
  }

  lemma {:induction false} TimestampLength(env: Env, value: string)
    ensures TimestampBody(env, value).Some? ==> |TimestampBody(env, value).value| == 8
  {
    hide LittleEndian, IndexOf;
    forall n: nat ensures |LittleEndian(n, 4)| == 4 {
      LittleEndianLength(n, 4);
    }
  }

  lemma {:induction false} IntegerLength(n: Option<int>)
    ensures Integer64(n).Some? ==> |Integer64(n).value| == 8
  {
    if n.Some? {
      LittleEndianLength(n.value % TWO_64, 8);
    }
  }

  lemma {:induction false} ReadHexLength(s: string)
    ensures ReadHex(s).Some? ==> 2 * |ReadHex(s).value| == |s|
  {
    hide HexByte, HexValue;
    if |s| >= 2 {
      ReadHexLength(s[2..]);
    }
  }

  // Whatever is written for it is a value of its own.
  lemma {:induction false} TagAlone(env: Env, name: string, value: string, tail: seq<Byte>)
    requires Sound(env) && EncodeTag(env, name, value).Some? && |EncodeTag(env, name, value).value.body| <= MAX_DOCUMENT_BYTES
    ensures StandsAlone(env, EncodeTag(env, name, value).value, tail)
  {
    hide LittleEndian, Decimal128.FromText, RegexBody, TimestampBody, ReadHex, Without, SubtypeOf, StringBytes, BinaryBody,
      Integer64, Int32Bytes, StandsAlone;
    var e := EncodeTag(env, name, value).value;
    ReadHexLength(value);
    TimestampLength(env, value);
    IntegerLength(env.bigInt(value));
    if e.type_ == T_BINARY {
      TagBinary(env, name, value, tail);
    } else if e.type_ == T_REGEX {
      RegexAlone(env, value, tail);
    } else if e.type_ == T_JAVASCRIPT || e.type_ == T_SYMBOL {
      TextAlone(env, e.type_, value, tail);
    } else {
      TagWidth(env, name, value);
      FixedAlone(env, e, tail);
    }
  }

  lemma {:induction false} TagBinary(env: Env, name: string, value: string, tail: seq<Byte>)
    requires EncodeTag(env, name, value).Some? && EncodeTag(env, name, value).value.type_ == T_BINARY
    requires |EncodeTag(env, name, value).value.body| <= MAX_DOCUMENT_BYTES
    ensures StandsAlone(env, EncodeTag(env, name, value).value, tail)
  {
    hide LittleEndian, Decimal128.FromText, RegexBody, TimestampBody, ReadHex, Without, SubtypeOf, StringBytes, BinaryBody,
      Integer64, Int32Bytes, StandsAlone;
    if name == "uuid" {
      BinaryAlone(env, 4, ReadHex(Without(value, '-')).value, tail);
    } else {
      BinaryAlone(env, SubtypeOf(name).value, env.unbase64(value), tail);
    }
  }

  lemma {:induction false} TagWidth(env: Env, name: string, value: string)
    requires Sound(env) && EncodeTag(env, name, value).Some?
    requires var t := EncodeTag(env, name, value).value.type_;
             t != T_BINARY && t != T_REGEX && t != T_JAVASCRIPT && t != T_SYMBOL
    ensures var e := EncodeTag(env, name, value).value;
            FixedWidth(e.type_) == Some(|e.body|)
  {
    hide Decimal128.FromText, RegexBody, TimestampBody, ReadHex, Without, SubtypeOf, StringBytes, BinaryBody, Integer64,
      LittleEndian, Sound;
    ReadHexLength(value);
    TimestampLength(env, value);
    IntegerLength(env.bigInt(value));
    NumberLengths(env, value);
  }

  lemma NumberLengths(env: Env, value: string)
    requires Sound(env)
    ensures |env.double(value)| == 8
    ensures forall n: nat :: |LittleEndian(n, 4)| == 4 && |LittleEndian(n, 16)| == 16
  {
    forall n: nat ensures |LittleEndian(n, 4)| == 4 && |LittleEndian(n, 16)| == 16 {
      LittleEndianLength(n, 4);
      LittleEndianLength(n, 16);
    }
  }

  // What is read from what is written for a value.
  function Again(env: Env, v: Value): Value {
    match v
    case List(items) => List(seq(|items|, i requires 0 <= i < |items| => Again(env, items[i])))
    case Document(fields) =>
      if !IsTagged(fields) then Document(AgainFields(env, fields))
      else if TagOf(env, fields) == None then v
      else
        var read := ReadScalar(env, TagOf(env, fields).value.type_, TagOf(env, fields).value.body);
        if read == None then v else read.value.value
    case _ => v
  }

  function AgainFields(env: Env, fields: seq<Field>): (r: seq<Field>)
    ensures |r| == |fields| && forall i :: 0 <= i < |r| ==> r[i].name == fields[i].name
  {
    seq(|fields|, i requires 0 <= i < |fields| => Field(fields[i].name, Again(env, fields[i].value)))
  }

  /* ---------- Values without a document ---------- */

  lemma {:induction false} ScalarBack(env: Env, v: Value, tail: seq<Byte>)
    requires Sound(env) && !v.List? && !v.Document? && Regular(env, v)
    requires EncodeScalar(env, v).Some? && |EncodeScalar(env, v).value.body| <= MAX_DOCUMENT_BYTES
    ensures var e := EncodeScalar(env, v).value;
            ReadScalar(env, e.type_, e.body + tail) == Some(Parsed(v, tail))
  {
    hide ReadScalar, StringBytes, Int32Bytes, Int64Bytes, Int32Of, Int64Of, BinaryBody, Sound;
    match v
    case Null => FixedBack(env, T_NULL, [], tail);
    case Bool(b) => FixedBack(env, T_BOOL, [if b then 1 else 0], tail);
    case Text(text) => TextBack(env, T_STRING, text, tail);
    case Int(n) =>
      if -TWO_31 <= n < TWO_31 {
        Int32Back(n);
        FixedBack(env, T_INT32, Int32Bytes(n), tail);
      } else {
        Int64Back(n);
        FixedBack(env, T_INT64, Int64Bytes(n), tail);
      }
    case Double(bits) => FixedBack(env, T_DOUBLE, bits, tail);
    case Big(n) =>
      Int64Back(n);
      FixedBack(env, T_INT64, Int64Bytes(n), tail);
    case Date(millis) =>
      Int64Back(millis);
      FixedBack(env, T_DATE, Int64Bytes(millis), tail);
    case Binary(bytes) => BinaryScalarBack(env, 0, bytes, tail);
  }

  lemma NotAContainer(env: Env, type_: Byte, bytes: seq<Byte>, depth: nat)
    requires ReadScalar(env, type_, bytes).Some?
    ensures ReadValue(env, type_, bytes, depth) == ReadScalar(env, type_, bytes)
  {
  }

  lemma {:induction false} TagBack(env: Env, fields: seq<Field>, depth: nat, tail: seq<Byte>)
    requires Sound(env) && IsTagged(fields) && IsGoodTag(env, Document(fields)) && depth <= MAX_DEPTH
    ensures EncodeValue(env, Document(fields), depth).Some?
    ensures var e := EncodeValue(env, Document(fields), depth).value;
            |e.body| <= MAX_DOCUMENT_BYTES ==>
              ReadValue(env, e.type_, e.body + tail, depth) == Some(Parsed(Document(fields), tail))
  {
    hide EncodeTag, TagName, TagText, ReadScalar, ReadValue, Sound, KindBytes;
    var k :| GoodKind(k) && Document(fields) == Tag(env, k);
    TaggedTexts(fields);
    LookupPair(TagName(k), TagText(env, k));
    TagWritten(env, k);
    var e := KindBytes(env, k);
    if |e.body| <= MAX_DOCUMENT_BYTES {
      KindBack(env, k, tail);
      NotAContainer(env, e.type_, e.body + tail, depth);
    }
  }

  lemma LookupPair(name: string, text: string)
    ensures Lookup(Pair(name, text).fields, "$type") == Some(Text(name))
    ensures Lookup(Pair(name, text).fields, "$value") == Some(Text(text))
    ensures IsTagged(Pair(name, text).fields)
  {
    var fields := Pair(name, text).fields;
    assert fields[0].name == "$type" && fields[1].name == "$value";
    assert "$type" != "$value" by {
      assert |"$type"| == 5 && |"$value"| == 6;
    }
    assert fields[1..][0] == fields[1];
  }

  /* ---------- Documents and arrays ---------- */

  // One element, and the ones after it.
  lemma {:induction false} ElementBack(env: Env, name: string, e: Encoded, v: Value, ok: bool, depth: nat, more: seq<Byte>)
    requires Sound(env) && Element(env, name, e).Some?
    requires ReadValue(env, e.type_, e.body + more, depth) == if ok then Some(Parsed(v, more)) else None
    ensures ReadElements(env, Element(env, name, e).value + more, depth) ==
            if !ok || ReadElements(env, more, depth) == None then None
            else Some([Field(name, v)] + ReadElements(env, more, depth).value)
  {
    hide ReadValue, ReadName, NameBytes, Sound;
    NulFree(env, name);
    var bytes := Element(env, name, e).value + more;
    var n := NameBytes(env, name).value;
    assert bytes[1..] == n + (e.body + more);
    NameBack(env, name, e.body + more);
  }

  lemma NulFree(env: Env, name: string)
    requires NameBytes(env, name).Some?
    ensures '\0' !in name
  {
  }

  // How elements are read that end with `more`.
  ghost predicate ReadsBack(env: Env, bytes: seq<Byte>, elements: seq<Field>, ok: bool, depth: nat, more: seq<Byte>) {
    var rest := ReadElements(env, more, depth);
    ReadElements(env, bytes + more, depth) ==
    if !ok || rest == None then None else Some(elements + rest.value)
  }

  lemma {:induction false} OneMoreBack(
      env: Env, bytes: seq<Byte>, elements: seq<Field>, allOk: bool, name: string, e: Encoded, v: Value, ok: bool,
      depth: nat, more: seq<Byte>)
    requires Sound(env) && Element(env, name, e).Some?
    requires ReadValue(env, e.type_, e.body + more, depth) == if ok then Some(Parsed(v, more)) else None
    requires ReadsBack(env, bytes, elements, allOk, depth, Element(env, name, e).value + more)
    ensures ReadsBack(env, bytes + Element(env, name, e).value, elements + [Field(name, v)], allOk && ok, depth, more)
  {
    hide ReadElements, ReadValue, Element, Sound;
    var element := Element(env, name, e).value;
    ElementBack(env, name, e, v, ok, depth, more);
    assert bytes + element + more == bytes + (element + more);
    var rest := ReadElements(env, more, depth);
    if rest.Some? {
      assert elements + [Field(name, v)] + rest.value == elements + ([Field(name, v)] + rest.value);
    }
  }

  function Named(items: seq<Value>): seq<Field> {
    seq(|items|, i requires 0 <= i < |items| => Field(Digits(i), items[i]))
  }

  lemma NothingBack(env: Env, depth: nat, more: seq<Byte>)
    ensures ReadsBack(env, [], [], true, depth, more)
  {
    hide ReadElements;
    assert [] + more == more;
    var rest := ReadElements(env, more, depth);
    if rest.Some? {
      assert [] + rest.value == rest.value;
    }
  }

  // The document around elements that read back.
  lemma {:induction false} WrappedBack(
      env: Env, body: seq<Byte>, elements: seq<Field>, ok: bool, isArray: bool, depth: nat, tail: seq<Byte>)
    requires |Wrap(body)| <= MAX_DOCUMENT_BYTES
    requires depth <= MAX_DEPTH ==> ReadsBack(env, body, elements, ok, depth, [])
    ensures |Wrap(body)| == |body| + 5
    ensures ReadDocument(env, Wrap(body) + tail, isArray, depth) ==
            if depth > MAX_DEPTH || !ok then None
            else Some(Parsed(if isArray then List(ValuesOf(elements)) else Document(ObjectOf(elements)), tail))
  {
    hide ReadElements, ValuesOf, ObjectOf, Int32Bytes, Int32Of;
    Int32Length(|body| + 5);
    Int32Back(|body| + 5);
    var all := Wrap(body) + tail;
    assert all[..4] == Int32Bytes(|body| + 5);
    assert all[4..|body| + 4] == body;
    assert all[|body| + 5..] == tail;
    assert body + [] == body;
    if depth <= MAX_DEPTH {
      NoElements(env, depth);
      assert elements + [] == elements;
    }
  }

  lemma NoElements(env: Env, depth: nat)
    ensures ReadElements(env, [], depth) == Some([])
  {
  }

  lemma {:induction false} PutNew(fields: seq<Field>, f: Field)
    requires forall i :: 0 <= i < |fields| ==> fields[i].name != f.name
    ensures Put(fields, f) == fields + [f]
  {
    if fields != [] {
      PutNew(fields[1..], f);
      assert fields + [f] == [fields[0]] + (fields[1..] + [f]);
    }
  }

  lemma {:induction false} DistinctStay(fields: seq<Field>)
    requires Distinct(fields)
    ensures ObjectOf(fields) == fields
  {
    if fields != [] {
      var n := |fields| - 1;
      DistinctStay(fields[..n]);
      PutNew(fields[..n], fields[n]);
    }
  }

  lemma {:induction false} TagReads(env: Env, fields: seq<Field>, depth: nat, tail: seq<Byte>)
    requires Sound(env) && IsTagged(fields) && EncodeValue(env, Document(fields), depth).Some?
    requires |EncodeValue(env, Document(fields), depth).value.body| <= MAX_DOCUMENT_BYTES
    ensures var e := EncodeValue(env, Document(fields), depth).value;
            ReadValue(env, e.type_, e.body + tail, depth) == Some(Parsed(Again(env, Document(fields)), tail))
  {
    hide EncodeTag, ReadScalar, ReadValue, Sound, IsTagged;
    var e := EncodeValue(env, Document(fields), depth).value;
    TaggedTexts(fields);
    TagAlone(env, Lookup(fields, "$type").value.text, Lookup(fields, "$value").value.text, tail);
    NotAContainer(env, e.type_, e.body + tail, depth);
  }

  // A value that is read again, or is too deep to be read.
  ghost predicate ValueReads(env: Env, e: Encoded, v: Value, depth: nat, tail: seq<Byte>) {
    ReadValue(env, e.type_, e.body + tail, depth) ==
    if NestsWithin(v, MAX_DEPTH - depth) then Some(Parsed(Again(env, v), tail)) else None
  }

  lemma {:induction false} ValueBack(env: Env, v: Value, depth: nat, tail: seq<Byte>)
    requires Sound(env) && Regular(env, v) && EncodeValue(env, v, depth).Some?
    requires |EncodeValue(env, v, depth).value.body| <= MAX_DOCUMENT_BYTES
    ensures ValueReads(env, EncodeValue(env, v, depth).value, v, depth, tail)
    decreases v, 1
  {
    hide Sound, ReadDocument, ReadScalar, IsTagged, Wrap, EncodeTag;
    match v
    case List(items) => ListBack(env, v, depth, tail);
    case Document(fields) =>
      if IsTagged(fields) {
        TagReads(env, fields, depth, tail);
      } else {
        DocumentBack(env, v, depth, tail);
      }
    case _ =>
      ScalarBack(env, v, tail);
      NotAContainer(env, EncodeScalar(env, v).value.type_, EncodeScalar(env, v).value.body + tail, depth);
  }

  function AgainItems(env: Env, items: seq<Value>): seq<Value> {
    seq(|items|, i requires 0 <= i < |items| => Again(env, items[i]))
  }

  lemma {:induction false} ListBack(env: Env, v: Value, depth: nat, tail: seq<Byte>)
    requires Sound(env) && v.List? && Regular(env, v) && EncodeValue(env, v, depth).Some?
    requires |EncodeValue(env, v, depth).value.body| <= MAX_DOCUMENT_BYTES
    ensures ValueReads(env, EncodeValue(env, v, depth).value, v, depth, tail)
    decreases v, 0
  {
    hide Sound, ReadDocument, Wrap, EncodeItems, ReadsBack, ValuesOf, ObjectOf;
    var body := EncodeItems(env, v.items, depth + 1).value;
    var ok := forall i :: 0 <= i < |v.items| ==> NestsWithin(v.items[i], MAX_DEPTH - depth - 1);
    BodySmaller(body);
    ItemsBack(env, v.items, depth + 1, []);
    WrappedBack(env, body, Named(AgainItems(env, v.items)), ok, true, depth + 1, tail);
    NamedValues(AgainItems(env, v.items));
  }

  lemma BodySmaller(body: seq<Byte>)
    ensures |Wrap(body)| == |body| + 5
  {
    Int32Length(|body| + 5);
  }

  lemma NamedValues(items: seq<Value>)
    ensures ValuesOf(Named(items)) == items
  {
  }

  lemma {:induction false} DocumentBack(env: Env, v: Value, depth: nat, tail: seq<Byte>)
    requires Sound(env) && v.Document? && !IsTagged(v.fields) && Regular(env, v) && EncodeValue(env, v, depth).Some?
    requires |EncodeValue(env, v, depth).value.body| <= MAX_DOCUMENT_BYTES
    ensures ValueReads(env, EncodeValue(env, v, depth).value, v, depth, tail)
    decreases v, 0
  {
    hide Sound, ReadDocument, Wrap, EncodeFields, ReadsBack, ValuesOf, ObjectOf, IsTagged, Distinct, FieldsNestWithin, AgainFields;
    var body := EncodeFields(env, v.fields, depth + 1).value;
    BodySmaller(body);
    FieldsBack(env, v.fields, depth + 1, []);
    WrappedBack(env, body, AgainFields(env, v.fields), FieldsNestWithin(v.fields, MAX_DEPTH - (depth + 1)), false, depth + 1, tail);
    AgainDistinct(env, v.fields);
    DistinctStay(AgainFields(env, v.fields));
  }

  lemma AgainDistinct(env: Env, fields: seq<Field>)
    requires Distinct(fields)
    ensures Distinct(AgainFields(env, fields))
  {
  }

  lemma {:induction false} ItemsBack(env: Env, items: seq<Value>, depth: nat, more: seq<Byte>)
    requires Sound(env) && (forall i :: 0 <= i < |items| ==> Regular(env, items[i]))
    requires EncodeItems(env, items, depth).Some? && |EncodeItems(env, items, depth).value| <= MAX_DOCUMENT_BYTES
    ensures ReadsBack(env, EncodeItems(env, items, depth).value, Named(AgainItems(env, items)),
                      forall i :: 0 <= i < |items| ==> NestsWithin(items[i], MAX_DEPTH - depth), depth, more)
    decreases items
  {
    hide Sound, Regular, NestsWithin, EncodeValue, ReadsBack, NameBytes, Digits, Again;
    if items == [] {
      assert Named(AgainItems(env, items)) == [] && EncodeItems(env, items, depth).value == [];
      NothingBack(env, depth, more);
    } else {
      var n := |items| - 1;
      var e := EncodeValue(env, items[n], depth).value;
      var element := Element(env, Digits(n), e).value;
      ItemsBack(env, items[..n], depth, element + more);
      ValueBack(env, items[n], depth, more);
      var before := AgainItems(env, items[..n]);
      OneMoreBack(env, EncodeItems(env, items[..n], depth).value, Named(before),
                  forall i :: 0 <= i < n ==> NestsWithin(items[..n][i], MAX_DEPTH - depth),
                  Digits(n), e, Again(env, items[n]), NestsWithin(items[n], MAX_DEPTH - depth), depth, more);
      assert AgainItems(env, items) == before + [Again(env, items[n])];
      assert Named(before + [Again(env, items[n])]) == Named(before) + [Field(Digits(n), Again(env, items[n]))];
    }
  }

  lemma {:induction false} FieldsBack(env: Env, fields: seq<Field>, depth: nat, more: seq<Byte>)
    requires Sound(env) && (forall i :: 0 <= i < |fields| ==> Regular(env, fields[i].value))
    requires EncodeFields(env, fields, depth).Some? && |EncodeFields(env, fields, depth).value| <= MAX_DOCUMENT_BYTES
    ensures ReadsBack(env, EncodeFields(env, fields, depth).value, AgainFields(env, fields),
                      FieldsNestWithin(fields, MAX_DEPTH - depth), depth, more)
    decreases fields
  {
    hide Sound, Regular, NestsWithin, EncodeValue, ReadsBack, NameBytes, Again;
    if fields == [] {
      NothingBack(env, depth, more);
    } else {
      var n := |fields| - 1;
      var e := EncodeValue(env, fields[n].value, depth).value;
      var element := Element(env, fields[n].name, e).value;
      FieldsBack(env, fields[..n], depth, element + more);
      ValueBack(env, fields[n].value, depth, more);
      var before := AgainFields(env, fields[..n]);
      OneMoreBack(env, EncodeFields(env, fields[..n], depth).value, before,
                  FieldsNestWithin(fields[..n], MAX_DEPTH - depth),
                  fields[n].name, e, Again(env, fields[n].value), NestsWithin(fields[n].value, MAX_DEPTH - depth), depth, more);
      assert AgainFields(env, fields) == before + [Field(fields[n].name, Again(env, fields[n].value))];
    }
  }

  /**
   Whatever is written for a document, objects that only pass for tagged values included, is read as the
   document of what each value is read as, with nothing left over, if and only if it nests at most 100
   deep.
   */
  lemma {:induction false} WrittenReads(env: Env, fields: seq<Field>, tail: seq<Byte>)
    requires Sound(env) && RegularFields(env, fields) && Encode(env, fields).Some?
    ensures Decode(env, Encode(env, fields).value + tail) ==
            if FieldsNestWithin(fields, MAX_DEPTH) then Some(Parsed(Document(AgainFields(env, fields)), tail)) else None
  {
    hide Sound, ReadDocument, Wrap, EncodeFields, ReadsBack, ValuesOf, ObjectOf, Distinct, FieldsNestWithin, AgainFields;
    var body := EncodeFields(env, fields, 0).value;
    BodySmaller(body);
    FieldsBack(env, fields, 0, []);
    WrappedBack(env, body, AgainFields(env, fields), FieldsNestWithin(fields, MAX_DEPTH), false, 0, tail);
    AgainDistinct(env, fields);
    DistinctStay(AgainFields(env, fields));
  }

  /* ---------- Canonical values come back as themselves ---------- */

  lemma CanonicalIsRegular(env: Env, v: Value)
    requires Canonical(env, v)
    ensures Regular(env, v)
  {
    match v
    case List(items) =>
      forall i | 0 <= i < |items| ensures Regular(env, items[i]) {
        CanonicalIsRegular(env, items[i]);
      }
    case Document(fields) =>
      if !IsTagged(fields) {
        FieldsAreRegular(env, fields);
      }
    case _ =>
  }

  lemma FieldsAreRegular(env: Env, fields: seq<Field>)
    requires CanonicalFields(env, fields)
    ensures RegularFields(env, fields)
  {
    forall i | 0 <= i < |fields| ensures Regular(env, fields[i].value) {
      CanonicalIsRegular(env, fields[i].value);
    }
  }

  lemma {:induction false} AgainSame(env: Env, v: Value, depth: nat)
    requires Sound(env) && Canonical(env, v) && EncodeValue(env, v, depth).Some?
    requires |EncodeValue(env, v, depth).value.body| <= MAX_DOCUMENT_BYTES
    ensures Again(env, v) == v
    decreases v, 1
  {
    hide Sound, IsTagged, IsGoodTag, Wrap, EncodeTag, ReadScalar;
    match v
    case List(items) =>
      BodySmaller(EncodeItems(env, items, depth + 1).value);
      ItemsSame(env, items, depth + 1);
      assert AgainItems(env, items) == items;
    case Document(fields) =>
      if IsTagged(fields) {
        TagSame(env, fields, depth);
      } else {
        BodySmaller(EncodeFields(env, fields, depth + 1).value);
        FieldsSame(env, fields, depth + 1);
      }
    case _ =>
  }

  lemma {:induction false} TagSame(env: Env, fields: seq<Field>, depth: nat)
    requires Sound(env) && IsTagged(fields) && IsGoodTag(env, Document(fields)) && EncodeValue(env, Document(fields), depth).Some?
    requires |EncodeValue(env, Document(fields), depth).value.body| <= MAX_DOCUMENT_BYTES
    ensures Again(env, Document(fields)) == Document(fields)
  {
    hide EncodeValue, ReadValue, Again, Sound, IsGoodTag, IsTagged;
    DepthEnough(env, Document(fields), depth);
    TagBack(env, fields, depth, []);
    TagReads(env, fields, depth, []);
  }

  lemma DepthEnough(env: Env, v: Value, depth: nat)
    requires EncodeValue(env, v, depth).Some?
    ensures depth <= MAX_DEPTH
  {
  }

  lemma {:induction false} ItemsSame(env: Env, items: seq<Value>, depth: nat)
    requires Sound(env) && (forall i :: 0 <= i < |items| ==> Canonical(env, items[i]))
    requires EncodeItems(env, items, depth).Some? && |EncodeItems(env, items, depth).value| <= MAX_DOCUMENT_BYTES
    ensures AgainItems(env, items) == items
    decreases items, 0
  {
    hide Sound, Canonical, EncodeValue, NameBytes, Again, Digits;
    if items != [] {
      var n := |items| - 1;
      ItemsSame(env, items[..n], depth);
      AgainSame(env, items[n], depth);
      assert items == items[..n] + [items[n]];
      assert AgainItems(env, items) == AgainItems(env, items[..n]) + [Again(env, items[n])];
    }
  }

  lemma {:induction false} FieldsSame(env: Env, fields: seq<Field>, depth: nat)
    requires Sound(env) && (forall i :: 0 <= i < |fields| ==> Canonical(env, fields[i].value))
    requires EncodeFields(env, fields, depth).Some? && |EncodeFields(env, fields, depth).value| <= MAX_DOCUMENT_BYTES
    ensures AgainFields(env, fields) == fields
    decreases fields, 0
  {
    hide Sound, Canonical, EncodeValue, NameBytes, Again;
    if fields != [] {
      var n := |fields| - 1;
      FieldsSame(env, fields[..n], depth);
      AgainSame(env, fields[n].value, depth);
      assert fields == fields[..n] + [Field(fields[n].name, fields[n].value)];
      assert AgainFields(env, fields) == AgainFields(env, fields[..n]) + [Field(fields[n].name, Again(env, fields[n].value))];
    }
  }

  /**
   A document of canonical values that can be written is read back with nothing left over, if and only
   if its documents and arrays nest at most 100 deep.
   */
  lemma {:induction false} WriteThenRead(env: Env, fields: seq<Field>, tail: seq<Byte>)
    requires Sound(env) && CanonicalFields(env, fields) && Encode(env, fields).Some?
    ensures Decode(env, Encode(env, fields).value + tail) ==
            if FieldsNestWithin(fields, MAX_DEPTH) then Some(Parsed(Document(fields), tail)) else None
  {
    hide Sound, EncodeFields, Wrap, Decode, FieldsNestWithin, Distinct, Canonical, Regular, AgainFields;
    BodySmaller(EncodeFields(env, fields, 0).value);
    FieldsAreRegular(env, fields);
    FieldsSame(env, fields, 0);
    WrittenReads(env, fields, tail);
  }

  /* ---------- What can be written ---------- */

  // Every object inside that passes for a tagged value is of a type that can be written.
  predicate TagsWritable(env: Env, v: Value) {
    match v
    case List(items) => forall i :: 0 <= i < |items| ==> TagsWritable(env, items[i])
    case Document(fields) => if IsTagged(fields) then TagOf(env, fields).Some? else FieldTagsWritable(env, fields)
    case _ => true
  }

  predicate FieldTagsWritable(env: Env, fields: seq<Field>) {
    forall i :: 0 <= i < |fields| ==> TagsWritable(env, fields[i].value)
  }

  lemma {:induction false} ValueAccepted(env: Env, v: Value, depth: nat)
    requires Sound(env) && Regular(env, v) && depth <= MAX_DEPTH && NestsWithin(v, MAX_DEPTH - depth)
    ensures EncodeValue(env, v, depth).Some? <==> TagsWritable(env, v)
    decreases v, 0
  {
    hide Sound, IsTagged, EncodeTag, Wrap, Distinct;
    match v
    case List(items) => ItemsAccepted(env, items, depth + 1);
    case Document(fields) =>
      if !IsTagged(fields) {
        FieldsTaken(env, fields, depth + 1);
      }
    case _ =>
  }

  lemma NumbersAreNames(env: Env, n: nat)
    ensures NameBytes(env, Digits(n)).Some?
  {
    DigitsPlain(n, '\0');
  }

  lemma {:induction false} ItemsAccepted(env: Env, items: seq<Value>, depth: nat)
    requires Sound(env) && depth <= MAX_DEPTH
    requires forall i :: 0 <= i < |items| ==> Regular(env, items[i]) && NestsWithin(items[i], MAX_DEPTH - depth)
    ensures EncodeItems(env, items, depth).Some? <==> forall i :: 0 <= i < |items| ==> TagsWritable(env, items[i])
    decreases items, 1
  {
    hide Sound, Regular, NestsWithin, EncodeValue, NameBytes, TagsWritable;
    if items != [] {
      var n := |items| - 1;
      ItemsAccepted(env, items[..n], depth);
      ValueAccepted(env, items[n], depth);
      NumbersAreNames(env, n);
      assert forall i :: 0 <= i < n ==> items[..n][i] == items[i];
    }
  }

  // Regular values nested at most 100 deep are refused only for a tag.
  lemma {:induction false} FieldsTaken(env: Env, fields: seq<Field>, depth: nat)
    requires Sound(env) && depth <= MAX_DEPTH && FieldsNestWithin(fields, MAX_DEPTH - depth)
    requires forall i :: 0 <= i < |fields| ==> '\0' !in fields[i].name && Regular(env, fields[i].value)
    ensures EncodeFields(env, fields, depth).Some? <==> FieldTagsWritable(env, fields)
    decreases fields, 1
  {
    hide Sound, Regular, NestsWithin, EncodeValue, TagsWritable;
    if fields != [] {
      var n := |fields| - 1;
      FieldsTaken(env, fields[..n], depth);
      ValueAccepted(env, fields[n].value, depth);
      assert forall i :: 0 <= i < n ==> fields[..n][i] == fields[i];
    }
  }

  lemma {:induction false} CanonicalWritable(env: Env, v: Value)
    requires Sound(env) && Canonical(env, v)
    ensures TagsWritable(env, v)
  {
    hide IsGoodTag, IsTagged, EncodeTag, Sound;
    match v
    case List(items) =>
      forall i | 0 <= i < |items| ensures TagsWritable(env, items[i]) {
        CanonicalWritable(env, items[i]);
      }
    case Document(fields) =>
      if IsTagged(fields) {
        TagBack(env, fields, 0, []);
      } else {
        forall i | 0 <= i < |fields| ensures TagsWritable(env, fields[i].value) {
          CanonicalWritable(env, fields[i].value);
        }
      }
    case _ =>
  }

  lemma {:induction false} FieldsAccepted(env: Env, fields: seq<Field>, depth: nat)
    requires Sound(env) && depth <= MAX_DEPTH && FieldsNestWithin(fields, MAX_DEPTH - depth)
    requires forall i :: 0 <= i < |fields| ==> '\0' !in fields[i].name && Canonical(env, fields[i].value)
    ensures EncodeFields(env, fields, depth).Some?
  {
    hide Sound, Canonical, Regular, EncodeFields, FieldsNestWithin, TagsWritable;
    forall i | 0 <= i < |fields| ensures Regular(env, fields[i].value) && TagsWritable(env, fields[i].value) {
      CanonicalIsRegular(env, fields[i].value);
      CanonicalWritable(env, fields[i].value);
    }
    FieldsTaken(env, fields, depth);
  }
}
