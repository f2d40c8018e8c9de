/**
 BSON (version 1.1), after packages/db-protocol-mongo/src/bson.ts: documents to bytes and back. A
 reader is a function from the bytes still to be read to a value and the bytes after it.
 */
module Bson {
  import opened Bytes
  import opened Letters
  import opened Numerals
  import opened Texts
  import opened Wrappers
  import Decimal128

  const MAX_DEPTH := 100
  const MAX_DOCUMENT_BYTES := 50_331_648
  const MAX_SAFE := 9_007_199_254_740_991
  const MAX_DATE := 8_640_000_000_000_000
  const TWO_31 := 0x8000_0000
  const TWO_32: nat := 0x1_0000_0000
  const TWO_63 := 0x8000_0000_0000_0000
  const TWO_64: nat := 0x1_0000_0000_0000_0000

  const T_DOUBLE: Byte := 0x01
  const T_STRING: Byte := 0x02
  const T_DOCUMENT: Byte := 0x03
  const T_ARRAY: Byte := 0x04
  const T_BINARY: Byte := 0x05
  const T_UNDEFINED: Byte := 0x06
  const T_OBJECT_ID: Byte := 0x07
  const T_BOOL: Byte := 0x08
  const T_DATE: Byte := 0x09
  const T_NULL: Byte := 0x0a
  const T_REGEX: Byte := 0x0b
  const T_DB_POINTER: Byte := 0x0c
  const T_JAVASCRIPT: Byte := 0x0d
  const T_SYMBOL: Byte := 0x0e
  const T_JAVASCRIPT_SCOPE: Byte := 0x0f
  const T_INT32: Byte := 0x10
  const T_TIMESTAMP: Byte := 0x11
  const T_INT64: Byte := 0x12
  const T_DECIMAL128: Byte := 0x13
  const T_MIN_KEY: Byte := 0xff
  const T_MAX_KEY: Byte := 0x7f

  // A JavaScript value. A number is `Int` when it is a safe integer and not -0, and otherwise
  // `Double`, with its eight bytes; `Big` is a bigint.
  datatype Value =
    | Null
    | Bool(b: bool)
    | Text(text: string)
    | Int(n: int)
    | Double(bits: seq<Byte>)
    | Big(n: int)
    | Date(millis: int)
    | Binary(bytes: seq<Byte>)
    | List(items: seq<Value>)
    | Document(fields: seq<Field>)

  datatype Field = Field(name: string, value: Value)

  // What the platform does: text and base64 as bytes, which doubles are safe integers (and not -0), and
  // how the text of a number is read.
  datatype Env = Env(
    utf8: string -> seq<Byte>, text: seq<Byte> -> string,
    base64: seq<Byte> -> string, unbase64: string -> seq<Byte>,
    whole: seq<Byte> -> Option<int>,
    bigInt: string -> Option<int>, uint32: string -> Option<nat>, int32: string -> Option<int>,
    double: string -> seq<Byte>)

  function Signed(n: int): string {
    if n < 0 then "-" + Digits(-n) else Digits(n)
  }

  // What is relied on of the platform.
  ghost predicate Sound(env: Env) {
    && (forall s :: env.text(env.utf8(s)) == s)
    && (forall s :: 0 in env.utf8(s) <==> '\0' in s)
    && (forall b :: '\0' in env.text(b) ==> 0 in b)
    && (forall b :: env.unbase64(env.base64(b)) == b)
    && (forall s :: |env.double(s)| == 8)
    && (forall b :: env.whole(b).Some? ==> -MAX_SAFE <= env.whole(b).value <= MAX_SAFE)
    && (forall n :: env.bigInt(Signed(n)) == Some(n))
    && (forall n: nat :: n < TWO_32 ==> env.uint32(Digits(n)) == Some(n))
    && (forall s :: env.uint32(s).Some? ==> env.uint32(s).value < TWO_32)
    && (forall s :: env.int32(s).Some? ==> -TWO_31 <= env.int32(s).value < TWO_31)
  }

  /* ---------- Tagged values ---------- */

  // The values JavaScript has no type for.
  datatype Kind =
    | ObjectId(id: seq<Byte>)
    | Decimal(bits: nat)
    | FarDate(millis: int)
    | Timestamp(seconds: nat, increment: nat)
    | Regex(pattern: string, flags: string)
    | Uuid(id: seq<Byte>)
    | OtherBinary(subtype: Byte, bytes: seq<Byte>)
    | JavaScript(code: string)
    | Symbol(text: string)
    | MinKey
    | MaxKey
    | DbPointer(space: string, id: seq<Byte>)

  function HexDigit(n: nat): char
    requires n < 16
  {
    "0123456789abcdef"[n]
  }

  function HexPair(b: Byte): string {
    [HexDigit(b / 16), HexDigit(b % 16)]
  }

  function Hex(bytes: seq<Byte>): string {
    if bytes == [] then "" else HexPair(bytes[0]) + Hex(bytes[1..])
  }

  function DashedHex(id: seq<Byte>): string
    requires |id| == 16
  {
    Hex(id[..4]) + "-" + Hex(id[4..6]) + "-" + Hex(id[6..8]) + "-" + Hex(id[8..10]) + "-" + Hex(id[10..])
  }

  function TagName(k: Kind): string {
    match k
    case ObjectId(_) => "objectId"
    case Decimal(_) => "decimal128"
    case FarDate(_) => "date"
    case Timestamp(_, _) => "timestamp"
    case Regex(_, _) => "regex"
    case Uuid(_) => "uuid"
    case OtherBinary(subtype, _) => "binary:" + Digits(subtype)
    case JavaScript(_) => "javascript"
    case Symbol(_) => "symbol"
    case MinKey => "minKey"
    case MaxKey => "maxKey"
    case DbPointer(_, _) => "dbPointer"
  }

  function TagText(env: Env, k: Kind): string
    requires k.Uuid? ==> |k.id| == 16
  {
    match k
    case ObjectId(id) => Hex(id)
    case Decimal(bits) => Decimal128.ToText(bits)
    case FarDate(millis) => Signed(millis)
    case Timestamp(seconds, increment) => Digits(seconds) + ":" + Digits(increment)
    case Regex(pattern, flags) => "/" + pattern + "/" + flags
    case Uuid(id) => DashedHex(id)
    case OtherBinary(_, bytes) => env.base64(bytes)
    case JavaScript(code) => code
    case Symbol(text) => text
    case MinKey => ""
    case MaxKey => ""
    case DbPointer(space, id) => space + ":" + Hex(id)
  }

  // A tagged value is an object with two fields.
  function Pair(name: string, text: string): Value {
    Document([Field("$type", Text(name)), Field("$value", Text(text))])
  }

  function Tag(env: Env, k: Kind): Value
    requires k.Uuid? ==> |k.id| == 16
  {
    Pair(TagName(k), TagText(env, k))
  }

  function Lookup(fields: seq<Field>, name: string): Option<Value> {
    if fields == [] then None
    else if fields[0].name == name then Some(fields[0].value)
    else Lookup(fields[1..], name)
  }

  // Whether an object is taken for a tagged value when it is written.
  predicate IsTagged(fields: seq<Field>) {
    var name, text := Lookup(fields, "$type"), Lookup(fields, "$value");
    |fields| == 2 && name.Some? && name.value.Text? && text.Some? && text.value.Text?
  }

  /* ---------- Reading ---------- */

  datatype Parsed<+T> = Parsed(value: T, rest: seq<Byte>)

  function Take(bytes: seq<Byte>, n: nat): (r: Option<Parsed<seq<Byte>>>)
    ensures r.Some? ==> |r.value.value| == n && |r.value.rest| == |bytes| - n
  {
    if n <= |bytes| then Some(Parsed(bytes[..n], bytes[n..])) else None
  }

  function Int32Of(bytes: seq<Byte>): int
    requires |bytes| == 4
  {
    var n := FromLittleEndian(bytes);
    if n >= TWO_31 then n - TWO_32 else n
  }

  function Int64Of(bytes: seq<Byte>): int
    requires |bytes| == 8
  {
    var n := FromLittleEndian(bytes);
    if n >= TWO_63 then n - TWO_64 else n
  }

  // The first zero byte, or the length.
  function ZeroAt(bytes: seq<Byte>): (i: nat)
    ensures i <= |bytes| && 0 !in bytes[..i] && (i < |bytes| ==> bytes[i] == 0)
  {
    if bytes == [] || bytes[0] == 0 then 0 else 1 + ZeroAt(bytes[1..])
  }

  // A text up to a zero byte.
  function ReadName(env: Env, bytes: seq<Byte>): (r: Option<Parsed<string>>)
    ensures r.Some? ==> |r.value.rest| < |bytes|
  {
    var i := ZeroAt(bytes);
    if i == |bytes| then None else Some(Parsed(env.text(bytes[..i]), bytes[i + 1..]))
  }

  // A text after its length.
  function ReadString(env: Env, bytes: seq<Byte>): (r: Option<Parsed<string>>)
    ensures r.Some? ==> |r.value.rest| < |bytes|
  {
    if |bytes| < 4 then None else
    var length := Int32Of(bytes[..4]);
    if length < 1 || 4 + length > |bytes| || bytes[4 + length - 1] != 0 then None
    else Some(Parsed(env.text(bytes[4..4 + length - 1]), bytes[4 + length..]))
  }

  function NumberOf(env: Env, bits: seq<Byte>): Value {
    match env.whole(bits)
    case Some(n) => Int(n)
    case None => Double(bits)
  }

  function IntegerOf(n: int): Value {
    if -MAX_SAFE <= n <= MAX_SAFE then Int(n) else Big(n)
  }

  function DateOf(env: Env, millis: int): Value {
    if -MAX_DATE <= millis <= MAX_DATE then Date(millis) else Tag(env, FarDate(millis))
  }

  function BinaryOf(env: Env, subtype: Byte, bytes: seq<Byte>): Value {
    if subtype == 0 then Binary(bytes)
    else if subtype == 4 && |bytes| == 16 then Tag(env, Uuid(bytes))
    else Tag(env, OtherBinary(subtype, bytes))
  }

  function ReadBinary(env: Env, bytes: seq<Byte>): (r: Option<Parsed<Value>>)
    ensures r.Some? ==> |r.value.rest| <= |bytes|
  {
    if |bytes| < 5 then None else
    var length := Int32Of(bytes[..4]);
    if length < 0 || 5 + length > |bytes| then None
    else Some(Parsed(BinaryOf(env, bytes[4], bytes[5..5 + length]), bytes[5 + length..]))
  }

  function ReadRegex(env: Env, bytes: seq<Byte>): (r: Option<Parsed<Value>>)
    ensures r.Some? ==> |r.value.rest| <= |bytes|
  {
    match ReadName(env, bytes)
    case None => None
    case Some(pattern) =>
      match ReadName(env, pattern.rest)
      case None => None
      case Some(flags) => Some(Parsed(Tag(env, Regex(pattern.value, flags.value)), flags.rest))
  }

  function ReadDbPointer(env: Env, bytes: seq<Byte>): (r: Option<Parsed<Value>>)
    ensures r.Some? ==> |r.value.rest| <= |bytes|
  {
    match ReadString(env, bytes)
    case None => None
    case Some(space) =>
      match Take(space.rest, 12)
      case None => None
      case Some(id) => Some(Parsed(Tag(env, DbPointer(space.value, id.value)), id.rest))
  }

  // The number of bytes of a value that always has the same.
  function FixedWidth(type_: Byte): Option<nat> {
    if type_ == T_DOUBLE || type_ == T_DATE || type_ == T_TIMESTAMP || type_ == T_INT64 then Some(8)
    else if type_ == T_OBJECT_ID then Some(12)
    else if type_ == T_BOOL then Some(1)
    else if type_ == T_INT32 then Some(4)
    else if type_ == T_DECIMAL128 then Some(16)
    else if type_ == T_NULL || type_ == T_UNDEFINED || type_ == T_MIN_KEY || type_ == T_MAX_KEY then Some(0)
    else None
  }

  function FixedValue(env: Env, type_: Byte, bytes: seq<Byte>): Value
    requires FixedWidth(type_) == Some(|bytes|)
  {
    if type_ == T_DOUBLE then NumberOf(env, bytes)
    else if type_ == T_DATE then DateOf(env, Int64Of(bytes))
    else if type_ == T_TIMESTAMP then Tag(env, Timestamp(FromLittleEndian(bytes[4..]), FromLittleEndian(bytes[..4])))
    else if type_ == T_INT64 then IntegerOf(Int64Of(bytes))
    else if type_ == T_OBJECT_ID then Tag(env, ObjectId(bytes))
    else if type_ == T_BOOL then Bool(bytes[0] == 1)
    else if type_ == T_INT32 then Int(Int32Of(bytes))
    else if type_ == T_DECIMAL128 then Tag(env, Decimal(FromLittleEndian(bytes)))
    else if type_ == T_MIN_KEY then Tag(env, MinKey)
    else if type_ == T_MAX_KEY then Tag(env, MaxKey)
    else Null
  }

  // A value that holds no document.
  function ReadScalar(env: Env, type_: Byte, bytes: seq<Byte>): (r: Option<Parsed<Value>>)
    ensures r.Some? ==> |r.value.rest| <= |bytes|
  {
    if FixedWidth(type_).Some? then
      match Take(bytes, FixedWidth(type_).value)
      case None => None
      case Some(taken) => Some(Parsed(FixedValue(env, type_, taken.value), taken.rest))
    else if type_ == T_STRING || type_ == T_JAVASCRIPT || type_ == T_SYMBOL then
      match ReadString(env, bytes)
      case None => None
      case Some(s) =>
        Some(Parsed(
          if type_ == T_STRING then Text(s.value)
          else if type_ == T_JAVASCRIPT then Tag(env, JavaScript(s.value))
          else Tag(env, Symbol(s.value)), s.rest))
    else if type_ == T_BINARY then ReadBinary(env, bytes)
    else if type_ == T_REGEX then ReadRegex(env, bytes)
    else if type_ == T_DB_POINTER then ReadDbPointer(env, bytes)
    else None
  }

  // A field set on an object: a later value of the same name takes the place of the earlier one.
  function Put(fields: seq<Field>, f: Field): seq<Field> {
    if fields == [] then [f]
    else if fields[0].name == f.name then [f] + fields[1..]
    else [fields[0]] + Put(fields[1..], f)
  }

  function ObjectOf(elements: seq<Field>): seq<Field> {
    if elements == [] then [] else Put(ObjectOf(elements[..|elements| - 1]), elements[|elements| - 1])
  }

  function ValuesOf(elements: seq<Field>): seq<Value> {
    seq(|elements|, i requires 0 <= i < |elements| => elements[i].value)
  }

  function ReadValue(env: Env, type_: Byte, bytes: seq<Byte>, depth: nat): (r: Option<Parsed<Value>>)
    ensures r.Some? ==> |r.value.rest| <= |bytes|
    decreases |bytes|, 1
  {
    if type_ == T_DOCUMENT || type_ == T_ARRAY then ReadDocument(env, bytes, type_ == T_ARRAY, depth + 1)
    else if type_ == T_JAVASCRIPT_SCOPE then
      if |bytes| < 4 then None else
      match ReadString(env, bytes[4..])
      case None => None
      case Some(code) =>
        match ReadDocument(env, code.rest, false, depth + 1)
        case None => None
        case Some(scope) => Some(Parsed(Tag(env, JavaScript(code.value)), scope.rest))
    else ReadScalar(env, type_, bytes)
  }

  function ReadDocument(env: Env, bytes: seq<Byte>, isArray: bool, depth: nat): (r: Option<Parsed<Value>>)
    ensures r.Some? ==> |r.value.rest| <= |bytes|
    decreases |bytes|, 0
  {
    if depth > MAX_DEPTH || |bytes| < 5 then None else
    var size := Int32Of(bytes[..4]);
    if size < 5 || size > MAX_DOCUMENT_BYTES || size > |bytes| || bytes[size - 1] != 0 then None else
    match ReadElements(env, bytes[4..size - 1], depth)
    case None => None
    case Some(elements) =>
      Some(Parsed(if isArray then List(ValuesOf(elements)) else Document(ObjectOf(elements)), bytes[size..]))
  }

  function ReadElements(env: Env, bytes: seq<Byte>, depth: nat): Option<seq<Field>>
    decreases |bytes|, 0
  {
    if bytes == [] then Some([]) else
    match ReadName(env, bytes[1..])
    case None => None
    case Some(name) =>
      match ReadValue(env, bytes[0], name.rest, depth)
      case None => None
      case Some(v) =>
        match ReadElements(env, v.rest, depth)
        case None => None
        case Some(more) => Some([Field(name.value, v.value)] + more)
  }

  /** Reads one document at the front; the value and the bytes just past it. */
  function Decode(env: Env, bytes: seq<Byte>): Option<Parsed<Value>> {
    ReadDocument(env, bytes, false, 0)
  }

  /* ---------- Writing ---------- */

  datatype Encoded = Encoded(type_: Byte, body: seq<Byte>)

  function Int32Bytes(n: int): seq<Byte> {
    LittleEndian(n % TWO_32, 4)
  }

  function Int64Bytes(n: int): seq<Byte> {
    LittleEndian(n % TWO_64, 8)
  }

  function NameBytes(env: Env, name: string): Option<seq<Byte>> {
    if '\0' in name then None else Some(env.utf8(name) + [0])
  }

  function StringBytes(env: Env, text: string): seq<Byte> {
    Int32Bytes(|env.utf8(text)| + 1) + env.utf8(text) + [0]
  }

  function Wrap(body: seq<Byte>): seq<Byte> {
    Int32Bytes(|body| + 5) + body + [0]
  }

  function HexValue(c: char): Option<nat> {
    if '0' <= c <= '9' then Some(c as int - '0' as int)
    else if 'a' <= c <= 'f' then Some(c as int - 'a' as int + 10)
    else if 'A' <= c <= 'F' then Some(c as int - 'A' as int + 10)
    else None
  }

  function ReadHex(s: string): Option<seq<Byte>> {
    if s == "" then Some([])
    else if |s| < 2 || HexValue(s[0]) == None || HexValue(s[1]) == None then None
    else match ReadHex(s[2..])
      case None => None
      case Some(more) => Some([HexByte(s[0], s[1])] + more)
  }

  function HexByte(high: char, low: char): (b: Byte)
    requires HexValue(high).Some? && HexValue(low).Some?
  {
    HexValueBound(high);
    HexValueBound(low);
    16 * HexValue(high).value + HexValue(low).value
  }

  lemma HexValueBound(c: char)
    ensures HexValue(c).Some? ==> HexValue(c).value < 16
  {
  }

  function Without(s: string, c: char): string {
    if s == "" then "" else (if s[0] == c then "" else [s[0]]) + Without(s[1..], c)
  }

  // One past the last place of a character, or 0.
  function PastLast(s: string, c: char): (i: nat)
    ensures i <= |s| && (i > 0 ==> s[i - 1] == c) && c !in s[i..]
  {
    if s == "" || s[|s| - 1] == c then |s| else PastLast(s[..|s| - 1], c)
  }

  predicate IsLower(c: char) {
    'a' <= c <= 'z'
  }

  function Insert(c: char, s: string): string {
    if s == "" || c <= s[0] then [c] + s else [s[0]] + Insert(c, s[1..])
  }

  function Sorted(s: string): string {
    if s == "" then "" else Insert(s[0], Sorted(s[1..]))
  }

  function RegexBody(env: Env, value: string): Option<seq<Byte>> {
    var last := PastLast(value, '/');
    if last < 2 || value[0] != '/' || exists i :: last <= i < |value| && !IsLower(value[i]) then None else
    match NameBytes(env, value[1..last - 1])
    case None => None
    case Some(pattern) =>
      match NameBytes(env, Sorted(value[last..]))
      case None => None
      case Some(flags) => Some(pattern + flags)
  }

  function TimestampBody(env: Env, value: string): Option<seq<Byte>> {
    var i := IndexOf(value, ':');
    var seconds := env.uint32(value[..i]);
    var after := if i < |value| then value[i + 1..] else "";
    var increment := if i < |value| then env.uint32(after[..IndexOf(after, ':')]) else Some(0);
    if seconds == None || increment == None then None
    else Some(LittleEndian(increment.value, 4) + LittleEndian(seconds.value, 4))
  }

  function BinaryBody(subtype: Byte, bytes: seq<Byte>): seq<Byte> {
    Int32Bytes(|bytes|) + [subtype] + bytes
  }

  // What `binary:` is followed by, as a byte.
  function SubtypeOf(name: string): Option<Byte> {
    if |name| > 7 && name[..7] == "binary:" && AllDigits(name[7..]) then Some(ToNat(name[7..]) % 256) else None
  }

  function OfType(type_: Byte, body: Option<seq<Byte>>): Option<Encoded> {
    match body
    case None => None
    case Some(b) => Some(Encoded(type_, b))
  }

  function Integer64(n: Option<int>): Option<seq<Byte>> {
    if n.Some? && -TWO_63 <= n.value < TWO_63 then Some(Int64Bytes(n.value)) else None
  }

  function EncodeTag(env: Env, name: string, value: string): Option<Encoded> {
    if name == "objectId" then
      OfType(T_OBJECT_ID, if |value| == 24 then ReadHex(value) else None)
    else if name == "decimal128" then
      match Decimal128.FromText(value)
      case Err(_) => None
      case Ok(bits) => Some(Encoded(T_DECIMAL128, LittleEndian(bits, 16)))
    else if name == "double" then Some(Encoded(T_DOUBLE, env.double(value)))
    else if name == "int32" then
      match env.int32(value)
      case None => None
      case Some(n) => Some(Encoded(T_INT32, Int32Bytes(n)))
    else if name == "int64" then OfType(T_INT64, Integer64(env.bigInt(value)))
    else if name == "date" then OfType(T_DATE, Integer64(env.bigInt(value)))
    else if name == "timestamp" then OfType(T_TIMESTAMP, TimestampBody(env, value))
    else if name == "regex" then OfType(T_REGEX, RegexBody(env, value))
    else if name == "uuid" then
      var id := if |Without(value, '-')| == 32 then ReadHex(Without(value, '-')) else None;
      if id == None then None else Some(Encoded(T_BINARY, BinaryBody(4, id.value)))
    else if name == "javascript" then Some(Encoded(T_JAVASCRIPT, StringBytes(env, value)))
    else if name == "symbol" then Some(Encoded(T_SYMBOL, StringBytes(env, value)))
    else if name == "minKey" then Some(Encoded(T_MIN_KEY, []))
    else if name == "maxKey" then Some(Encoded(T_MAX_KEY, []))
    else match SubtypeOf(name)
      case None => None
      case Some(subtype) => Some(Encoded(T_BINARY, BinaryBody(subtype, env.unbase64(value))))
  }

  function EncodeScalar(env: Env, v: Value): Option<Encoded>
    requires !v.List? && !v.Document?
  {
    match v
    case Null => Some(Encoded(T_NULL, []))
    case Bool(b) => Some(Encoded(T_BOOL, [if b then 1 else 0]))
    case Text(text) => Some(Encoded(T_STRING, StringBytes(env, text)))
    case Int(n) =>
      Some(if -TWO_31 <= n < TWO_31 then Encoded(T_INT32, Int32Bytes(n)) else Encoded(T_INT64, Int64Bytes(n)))
    case Double(bits) => Some(Encoded(T_DOUBLE, bits))
    case Big(n) => OfType(T_INT64, Integer64(Some(n)))
    case Date(millis) => Some(Encoded(T_DATE, Int64Bytes(millis)))
    case Binary(bytes) => Some(Encoded(T_BINARY, BinaryBody(0, bytes)))
  }

  function EncodeValue(env: Env, v: Value, depth: nat): Option<Encoded>
    decreases v, 0
  {
    if depth > MAX_DEPTH then None else
    match v
    case List(items) =>
      (match EncodeItems(env, items, depth + 1)
       case None => None
       case Some(body) => Some(Encoded(T_ARRAY, Wrap(body))))
    case Document(fields) =>
      if IsTagged(fields) then
        TaggedTexts(fields);
        EncodeTag(env, Lookup(fields, "$type").value.text, Lookup(fields, "$value").value.text)
      else
        (match EncodeFields(env, fields, depth + 1)
         case None => None
         case Some(body) => Some(Encoded(T_DOCUMENT, Wrap(body))))
    case _ => EncodeScalar(env, v)
  }

  lemma TaggedTexts(fields: seq<Field>)
    requires IsTagged(fields)
    ensures Lookup(fields, "$type").Some? && Lookup(fields, "$type").value.Text?
    ensures Lookup(fields, "$value").Some? && Lookup(fields, "$value").value.Text?
  {
  }

  function Element(env: Env, name: string, e: Encoded): Option<seq<Byte>> {
    match NameBytes(env, name)
    case None => None
    case Some(bytes) => Some([e.type_] + bytes + e.body)
  }

  // Elements named by their places.
  function EncodeItems(env: Env, items: seq<Value>, depth: nat): Option<seq<Byte>>
    decreases items, 1
  {
    if items == [] then Some([]) else
    var n := |items| - 1;
    var before, last := EncodeItems(env, items[..n], depth), EncodeValue(env, items[n], depth);
    if before == None || last == None then None else
    match Element(env, Digits(n), last.value)
    case None => None
    case Some(bytes) => Some(before.value + bytes)
  }

  function EncodeFields(env: Env, fields: seq<Field>, depth: nat): Option<seq<Byte>>
    decreases fields, 1
  {
    if fields == [] then Some([]) else
    var n := |fields| - 1;
    var before, last := EncodeFields(env, fields[..n], depth), EncodeValue(env, fields[n].value, depth);
    if before == None || last == None then None else
    match Element(env, fields[n].name, last.value)
    case None => None
    case Some(bytes) => Some(before.value + bytes)
  }

  /** Writes a document, its fields in their order. */
  function Encode(env: Env, fields: seq<Field>): Option<seq<Byte>> {
    match EncodeFields(env, fields, 0)
    case None => None
    case Some(body) => if |Wrap(body)| > MAX_DOCUMENT_BYTES then None else Some(Wrap(body))
  }
}
