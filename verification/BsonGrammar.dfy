/**
 What bytes are BSON ("BSON specification", version 1.1) and what value they stand for, as a relation
 between bytes and values with the numbers of the specification; and that reading finds exactly that.
 */
module BsonGrammar {
  import opened Bytes
  import opened Numerals
  import opened Wrappers
  import opened Bson
  import opened BsonRoundTrip
  import opened BsonMeaning
  import Decimal128

  /* ---------- Numbers and texts ---------- */

  function Four(b: seq<Byte>): int
    requires |b| == 4
  {
    Wide(b[0], b[1], b[2], b[3])
  }

  function Signed4(b: seq<Byte>): int
    requires |b| == 4
  {
    if b[3] >= 0x80 then Four(b) - 0x1_0000_0000 else Four(b)
  }

  function Signed8(b: seq<Byte>): int
    requires |b| == 8
  {
    var n := Four(b[..4]) + 0x1_0000_0000 * Four(b[4..]);
    if b[7] >= 0x80 then n - 0x1_0000_0000_0000_0000 else n
  }

  // A text and its zero byte.
  predicate IsCString(env: Env, bytes: seq<Byte>, text: string) {
    var n := |bytes| - 1;
    n >= 0 && bytes[n] == 0 && 0 !in bytes[..n] && text == env.text(bytes[..n])
  }

  // A text with its length in front and a zero byte behind it.
  predicate IsString(env: Env, bytes: seq<Byte>, text: string) {
    var n := |bytes| - 1;
    n >= 4 && Signed4(bytes[..4]) == |bytes| - 4 && bytes[n] == 0 && text == env.text(bytes[4..n])
  }

  /* ---------- Values ---------- */

  ghost predicate IsRegex(env: Env, body: seq<Byte>, i: nat, pattern: string, flags: string) {
    i <= |body| && IsCString(env, body[..i], pattern) && IsCString(env, body[i..], flags)
  }

  ghost predicate IsScalar(env: Env, type_: Byte, body: seq<Byte>, v: Value) {
    match type_
    case 0x01 => |body| == 8 && v == DoubleNamed(env, body)
    case 0x02 => v.Text? && IsString(env, body, v.text)
    case 0x05 => |body| >= 5 && Signed4(body[..4]) == |body| - 5 && v == BinaryNamed(env, body[4], body[5..])
    case 0x06 => body == [] && v == Null
    case 0x07 => |body| == 12 && v == Pair("objectId", HexText(body))
    case 0x08 => |body| == 1 && v == Bool(body[0] == 1)
    case 0x09 => |body| == 8 && v == DateNamed(Signed8(body))
    case 0x0a => body == [] && v == Null
    case 0x0b => exists i: nat, p, f :: IsRegex(env, body, i, p, f) && v == Pair("regex", "/" + p + "/" + f)
    case 0x0c =>
      |body| >= 12 && exists s ::
        IsString(env, body[..|body| - 12], s) && v == Pair("dbPointer", s + ":" + HexText(body[|body| - 12..]))
    case 0x0d => exists s :: IsString(env, body, s) && v == Pair("javascript", s)
    case 0x0e => exists s :: IsString(env, body, s) && v == Pair("symbol", s)
    case 0x10 => |body| == 4 && v == Int(Signed4(body))
    case 0x11 =>
      && |body| == 8 && Four(body[..4]) >= 0 && Four(body[4..]) >= 0
      && v == Pair("timestamp", Digits(Four(body[4..])) + ":" + Digits(Four(body[..4])))
    case 0x12 => |body| == 8 && v == IntegerNamed(Signed8(body))
    case 0x13 => |body| == 16 && v == Pair("decimal128", Decimal128.ToText(FromLittleEndian(body)))
    case 0xff => body == [] && v == Pair("minKey", "")
    case 0x7f => body == [] && v == Pair("maxKey", "")
    case _ => false
  }

  // The last value of a name.
  function LastOf(elements: seq<Field>, name: string): Option<Value> {
    var n := |elements| - 1;
    if n < 0 then None else if elements[n].name == name then Some(elements[n].value) else LastOf(elements[..n], name)
  }

  function WithoutName(elements: seq<Field>, name: string): (r: seq<Field>)
    ensures |r| <= |elements|
  {
    if elements == [] then []
    else if elements[0].name == name then WithoutName(elements[1..], name)
    else [elements[0]] + WithoutName(elements[1..], name)
  }

  // Each name once, where it comes first, with the value it has last.
  function LastWins(elements: seq<Field>): seq<Field>
    decreases |elements|
  {
    if elements == [] then []
    else
      var name := elements[0].name;
      [Field(name, LastOf(elements, name).GetOr(Null))] + LastWins(WithoutName(elements[1..], name))
  }

  ghost predicate IsValue(env: Env, type_: Byte, body: seq<Byte>, v: Value, depth: nat)
    decreases |body|, 1
  {
    if type_ == 0x03 then IsDocument(env, body, v, false, depth + 1)
    else if type_ == 0x04 then IsDocument(env, body, v, true, depth + 1)
    else if type_ == 0x0f then
      exists i: nat, code, scope :: 4 <= i <= |body| && IsScope(env, body, i, code, scope, depth) && v == Pair("javascript", code)
    else IsScalar(env, type_, body, v)
  }

  // Code and its scope, behind a length that is not looked at.
  ghost predicate IsScope(env: Env, body: seq<Byte>, i: nat, code: string, scope: Value, depth: nat)
    requires 4 <= i <= |body|
    decreases |body|, 0
  {
    IsString(env, body[4..i], code) && IsDocument(env, body[i..], scope, false, depth + 1)
  }

  // At most 100 deep and 48 MiB long; its own length in front, a zero byte behind.
  ghost predicate IsDocument(env: Env, bytes: seq<Byte>, v: Value, isArray: bool, depth: nat)
    decreases |bytes|, 0
  {
    var n := |bytes|;
    && depth <= 100 && 5 <= n <= 50_331_648 && Signed4(bytes[..4]) == n && bytes[n - 1] == 0
    && exists elements :: IsElements(env, bytes[4..n - 1], elements, depth) && v == Whole(elements, isArray)
  }

  function Whole(elements: seq<Field>, isArray: bool): Value {
    if isArray then List(ItemsOf(elements)) else Document(LastWins(elements))
  }

  // An array takes the values in their order; their names are not looked at.
  function ItemsOf(elements: seq<Field>): seq<Value> {
    if elements == [] then [] else [elements[0].value] + ItemsOf(elements[1..])
  }

  ghost predicate IsElements(env: Env, bytes: seq<Byte>, elements: seq<Field>, depth: nat)
    decreases |bytes|, 0
  {
    if elements == [] then bytes == []
    else exists i: nat, j: nat :: 2 <= i <= j <= |bytes| && IsElement(env, bytes, i, j, elements, depth)
  }

  // The type, the name up to `i`, the value up to `j`, and the other elements.
  ghost predicate IsElement(env: Env, bytes: seq<Byte>, i: nat, j: nat, elements: seq<Field>, depth: nat)
    requires 2 <= i <= j <= |bytes| && elements != []
    decreases |bytes| - 1, 2
  {
    && IsCString(env, bytes[1..i], elements[0].name) && IsValue(env, bytes[0], bytes[i..j], elements[0].value, depth)
    && IsElements(env, bytes[j..], elements[1..], depth)
  }

  /* ---------- Numbers as they are read ---------- */

  lemma FourIs(b: seq<Byte>)
    requires |b| == 4
    ensures FromLittleEndian(b) == Four(b) && 0 <= Four(b) && (b[3] >= 0x80 <==> Four(b) >= 0x8000_0000)
    ensures Int32Of(b) == Signed4(b)
  {
    hide FromLittleEndian;
    FewBytes(b);
  }

  lemma EightIs(b: seq<Byte>)
    requires |b| == 8
    ensures Int64Of(b) == Signed8(b)
  {
    hide FromLittleEndian, Four;
    EightBytes(b);
    FourIs(b[..4]);
    FourIs(b[4..]);
    assert b[4..][3] == b[7];
    FourBound(b[..4]);
    FourBound(b[4..]);
  }

  lemma FourBound(b: seq<Byte>)
    requires |b| == 4
    ensures Four(b) < 0x1_0000_0000
  {
  }

  /* ---------- What is read has the form ---------- */

  predicate IsRest(bytes: seq<Byte>, rest: seq<Byte>) {
    |rest| <= |bytes| && bytes[|bytes| - |rest|..] == rest
  }

  // What stands before the rest.
  function Consumed(bytes: seq<Byte>, rest: seq<Byte>): seq<Byte>
    requires |rest| <= |bytes|
  {
    bytes[..|bytes| - |rest|]
  }

  lemma NameFound(env: Env, bytes: seq<Byte>)
    requires ReadName(env, bytes).Some?
    ensures var p := ReadName(env, bytes).value; IsRest(bytes, p.rest) && IsCString(env, Consumed(bytes, p.rest), p.value)
  {
    hide ZeroAt;
    var i := ZeroAt(bytes);
    assert bytes[..i + 1][..i] == bytes[..i];
  }

  lemma StringFound(env: Env, bytes: seq<Byte>)
    requires ReadString(env, bytes).Some?
    ensures var p := ReadString(env, bytes).value; IsRest(bytes, p.rest) && IsString(env, Consumed(bytes, p.rest), p.value)
  {
    hide Int32Of, Signed4;
    FourIs(bytes[..4]);
    var n := 4 + Int32Of(bytes[..4]);
    var body := bytes[..n];
    assert body[..4] == bytes[..4] && body[4..n - 1] == bytes[4..n - 1];
  }

  lemma FixedFound(env: Env, type_: Byte, body: seq<Byte>)
    requires FixedWidth(type_) == Some(|body|)
    ensures IsScalar(env, type_, body, FixedValue(env, type_, body))
  {
    hide FromLittleEndian, Int32Of, Int64Of, Signed4, Signed8, Four, Digits, Decimal128.ToText, Hex;
    if |body| == 4 {
      FourIs(body);
    } else if |body| == 8 {
      EightIs(body);
      FourIs(body[..4]);
      FourIs(body[4..]);
    }
  }

  lemma TextFound(env: Env, type_: Byte, bytes: seq<Byte>)
    requires (type_ == T_STRING || type_ == T_JAVASCRIPT || type_ == T_SYMBOL) && ReadScalar(env, type_, bytes).Some?
    ensures var p := ReadScalar(env, type_, bytes).value;
            IsRest(bytes, p.rest) && IsScalar(env, type_, Consumed(bytes, p.rest), p.value)
  {
    hide ReadString, IsString;
    StringFound(env, bytes);
  }

  lemma BinaryFound(env: Env, bytes: seq<Byte>)
    requires ReadBinary(env, bytes).Some?
    ensures var p := ReadBinary(env, bytes).value;
            IsRest(bytes, p.rest) && IsScalar(env, 0x05, Consumed(bytes, p.rest), p.value)
  {
    hide Int32Of, Signed4, BinaryOf, BinaryNamed;
    FourIs(bytes[..4]);
    var n := 5 + Int32Of(bytes[..4]);
    BinaryNamedIs(env, bytes[4], bytes[5..n]);
    assert bytes[..n][..4] == bytes[..4] && bytes[..n][5..] == bytes[5..n];
  }

  lemma RegexFound(env: Env, bytes: seq<Byte>)
    requires ReadRegex(env, bytes).Some?
    ensures var p := ReadRegex(env, bytes).value;
            IsRest(bytes, p.rest) && IsScalar(env, 0x0b, Consumed(bytes, p.rest), p.value)
  {
    hide ReadName, IsCString;
    var pattern := ReadName(env, bytes).value;
    var flags := ReadName(env, pattern.rest).value;
    NameFound(env, bytes);
    NameFound(env, pattern.rest);
    var i, n := |bytes| - |pattern.rest|, |bytes| - |flags.rest|;
    assert bytes[..n][..i] == bytes[..i] && bytes[..n][i..] == pattern.rest[..n - i];
    assert IsRegex(env, bytes[..n], i, pattern.value, flags.value);
  }

  lemma PointerFound(env: Env, bytes: seq<Byte>)
    requires ReadDbPointer(env, bytes).Some?
    ensures var p := ReadDbPointer(env, bytes).value;
            IsRest(bytes, p.rest) && IsScalar(env, 0x0c, Consumed(bytes, p.rest), p.value)
  {
    hide ReadString, IsString, Hex;
    var space := ReadString(env, bytes).value;
    StringFound(env, bytes);
    var id := Take(space.rest, 12).value;
    var i, n := |bytes| - |space.rest|, |bytes| - |id.rest|;
    assert bytes[..n][..i] == bytes[..i] && bytes[..n][i..] == id.value;
  }

  lemma {:induction false} ScalarFound(env: Env, type_: Byte, bytes: seq<Byte>)
    requires ReadScalar(env, type_, bytes).Some?
    ensures var p := ReadScalar(env, type_, bytes).value;
            IsRest(bytes, p.rest) && IsScalar(env, type_, Consumed(bytes, p.rest), p.value)
  {
    hide IsScalar, FixedValue, ReadString, ReadBinary, ReadRegex, ReadDbPointer;
    if FixedWidth(type_).Some? {
      FixedFound(env, type_, bytes[..FixedWidth(type_).value]);
    } else if type_ == T_BINARY {
      BinaryFound(env, bytes);
    } else if type_ == T_REGEX {
      RegexFound(env, bytes);
    } else if type_ == T_DB_POINTER {
      PointerFound(env, bytes);
    } else {
      TextFound(env, type_, bytes);
    }
  }

  /* ---------- What has the form is read ---------- */

  lemma {:induction false} ZeroIs(bytes: seq<Byte>, n: nat)
    requires n < |bytes| && bytes[n] == 0 && 0 !in bytes[..n]
    ensures ZeroAt(bytes) == n
  {
    if n > 0 {
      assert bytes[0] in bytes[..n];
      assert bytes[1..][..n - 1] == bytes[..n][1..];
      ZeroIs(bytes[1..], n - 1);
    }
  }

  lemma NameRead(env: Env, body: seq<Byte>, text: string, tail: seq<Byte>)
    requires IsCString(env, body, text)
    ensures ReadName(env, body + tail) == Some(Parsed(text, tail))
  {
    hide ZeroAt;
    var n, all := |body| - 1, body + tail;
    assert all[..n] == body[..n] && all[n + 1..] == tail;
    ZeroIs(all, n);
  }

  lemma StringRead(env: Env, body: seq<Byte>, text: string, tail: seq<Byte>)
    requires IsString(env, body, text)
    ensures ReadString(env, body + tail) == Some(Parsed(text, tail))
  {
    hide Int32Of, Signed4;
    var n, all := |body| - 1, body + tail;
    assert all[..4] == body[..4] && all[4..n] == body[4..n] && all[n + 1..] == tail;
    FourIs(body[..4]);
  }

  lemma FixedRead(env: Env, type_: Byte, body: seq<Byte>, v: Value, tail: seq<Byte>)
    requires IsScalar(env, type_, body, v) && FixedWidth(type_).Some?
    ensures ReadScalar(env, type_, body + tail) == Some(Parsed(v, tail))
  {
    hide ReadScalar, FromLittleEndian, Int32Of, Int64Of, Signed4, Signed8, Four, Digits, Decimal128.ToText, Hex;
    FixedBack(env, type_, body, tail);
    if |body| == 4 {
      FourIs(body);
    } else if |body| == 8 {
      EightIs(body);
      FourIs(body[..4]);
      FourIs(body[4..]);
    }
  }

  lemma BinaryIsRead(env: Env, body: seq<Byte>, v: Value, tail: seq<Byte>)
    requires IsScalar(env, 0x05, body, v)
    ensures ReadBinary(env, body + tail) == Some(Parsed(v, tail))
  {
    hide Int32Of, Signed4, BinaryOf, BinaryNamed;
    var n, all := |body|, body + tail;
    FourIs(body[..4]);
    BinaryNamedIs(env, body[4], body[5..]);
    assert all[..4] == body[..4] && all[5..n] == body[5..] && all[n..] == tail;
  }

  lemma RegexIsRead(env: Env, body: seq<Byte>, v: Value, tail: seq<Byte>)
    requires IsScalar(env, 0x0b, body, v)
    ensures ReadRegex(env, body + tail) == Some(Parsed(v, tail))
  {
    hide ReadName, IsCString;
    var i: nat, p, f :| IsRegex(env, body, i, p, f) && v == Pair("regex", "/" + p + "/" + f);
    assert body + tail == body[..i] + (body[i..] + tail);
    NameRead(env, body[..i], p, body[i..] + tail);
    NameRead(env, body[i..], f, tail);
  }

  lemma PointerIsRead(env: Env, body: seq<Byte>, v: Value, tail: seq<Byte>)
    requires IsScalar(env, 0x0c, body, v)
    ensures ReadDbPointer(env, body + tail) == Some(Parsed(v, tail))
  {
    hide ReadString, IsString, Hex;
    var i := |body| - 12;
    var s :| IsString(env, body[..i], s) && v == Pair("dbPointer", s + ":" + HexText(body[i..]));
    assert body + tail == body[..i] + (body[i..] + tail);
    StringRead(env, body[..i], s, body[i..] + tail);
    assert (body[i..] + tail)[..12] == body[i..] && (body[i..] + tail)[12..] == tail;
  }

  lemma TextIsRead(env: Env, type_: Byte, body: seq<Byte>, v: Value, tail: seq<Byte>)
    requires IsScalar(env, type_, body, v) && (type_ == T_STRING || type_ == T_JAVASCRIPT || type_ == T_SYMBOL)
    ensures ReadScalar(env, type_, body + tail) == Some(Parsed(v, tail))
  {
    hide ReadString, IsString;
    var s :| IsString(env, body, s) && v == (if type_ == T_STRING then Text(s)
                                             else if type_ == T_JAVASCRIPT then Pair("javascript", s) else Pair("symbol", s));
    StringRead(env, body, s, tail);
  }

  lemma {:induction false} ScalarIsRead(env: Env, type_: Byte, body: seq<Byte>, v: Value, tail: seq<Byte>)
    requires IsScalar(env, type_, body, v)
    ensures ReadScalar(env, type_, body + tail) == Some(Parsed(v, tail))
  {
    hide FixedValue, ReadString, ReadBinary, ReadRegex, ReadDbPointer, IsString, IsRegex, Signed4, Signed8, Hex, BinaryNamed;
    if FixedWidth(type_).Some? {
      FixedRead(env, type_, body, v, tail);
    } else if type_ == T_BINARY {
      BinaryIsRead(env, body, v, tail);
    } else if type_ == T_REGEX {
      RegexIsRead(env, body, v, tail);
    } else if type_ == T_DB_POINTER {
      PointerIsRead(env, body, v, tail);
    } else {
      TextIsRead(env, type_, body, v, tail);
    }
  }

  /* ---------- Fields of one name ---------- */

  lemma {:induction false} WithoutNameOfTwo(elements: seq<Field>, f: Field, name: string)
    ensures WithoutName(elements + [f], name) == WithoutName(elements, name) + if f.name == name then [] else [f]
  {
    if elements == [] {
      assert [] + [f] == [f] && [f][1..] == [];
    } else {
      var rest, more := WithoutName(elements[1..], name), if f.name == name then [] else [f];
      WithoutNameOfTwo(elements[1..], f, name);
      assert (elements + [f])[1..] == elements[1..] + [f];
      assert [elements[0]] + (rest + more) == ([elements[0]] + rest) + more;
    }
  }

  lemma LastOfMore(elements: seq<Field>, f: Field, name: string)
    ensures LastOf(elements + [f], name) == if f.name == name then Some(f.value) else LastOf(elements, name)
  {
    assert (elements + [f])[..|elements|] == elements;
  }

  lemma {:induction false} LastPut(elements: seq<Field>, f: Field)
    ensures LastWins(elements + [f]) == Put(LastWins(elements), f)
    decreases |elements|
  {
    hide LastOf, WithoutName;
    var all := elements + [f];
    if elements == [] {
      assert all == [f];
      LastOfMore([], f, f.name);
      assert [] + [f] == [f];
      NothingWithoutName(f);
      assert [f][1..] == [];
    } else {
      var name, rest := elements[0].name, elements[1..];
      assert all[1..] == rest + [f] && all[0] == elements[0];
      LastOfMore(elements, f, name);
      WithoutNameOfTwo(rest, f, name);
      if f.name == name {
        assert WithoutName(rest, name) + [] == WithoutName(rest, name);
      } else {
        LastPut(WithoutName(rest, name), f);
      }
    }
  }

  lemma NothingWithoutName(f: Field)
    ensures WithoutName([], f.name) == [] && LastWins([]) == []
  {
  }

  lemma {:induction false} ObjectIs(elements: seq<Field>)
    ensures ObjectOf(elements) == LastWins(elements)
  {
    if elements != [] {
      var n := |elements| - 1;
      ObjectIs(elements[..n]);
      LastPut(elements[..n], elements[n]);
      assert elements == elements[..n] + [elements[n]];
    }
  }

  lemma {:induction false} ItemsAre(elements: seq<Field>)
    ensures ValuesOf(elements) == ItemsOf(elements)
  {
    if elements != [] {
      ItemsAre(elements[1..]);
      assert ValuesOf(elements) == [elements[0].value] + ValuesOf(elements[1..]);
    }
  }

  /* ---------- Documents ---------- */

  lemma {:induction false} ValueFound(env: Env, type_: Byte, bytes: seq<Byte>, depth: nat)
    requires ReadValue(env, type_, bytes, depth).Some?
    ensures var p := ReadValue(env, type_, bytes, depth).value;
            IsRest(bytes, p.rest) && IsValue(env, type_, Consumed(bytes, p.rest), p.value, depth)
    decreases |bytes|, 1
  {
    hide IsScalar, ReadScalar, ReadString, IsString, ReadDocument, IsDocument;
    if type_ == T_DOCUMENT || type_ == T_ARRAY {
      DocumentFound(env, bytes, type_ == T_ARRAY, depth + 1);
    } else if type_ == T_JAVASCRIPT_SCOPE {
      var code := ReadString(env, bytes[4..]).value;
      var scope := ReadDocument(env, code.rest, false, depth + 1).value;
      StringFound(env, bytes[4..]);
      DocumentFound(env, code.rest, false, depth + 1);
      var i, n := |bytes| - |code.rest|, |bytes| - |scope.rest|;
      var body := bytes[..n];
      assert body[4..i] == bytes[4..][..i - 4] && body[i..] == code.rest[..n - i];
      assert IsScope(env, body, i, code.value, scope.value, depth);
    } else {
      ScalarFound(env, type_, bytes);
    }
  }

  lemma {:induction false} DocumentFound(env: Env, bytes: seq<Byte>, isArray: bool, depth: nat)
    requires ReadDocument(env, bytes, isArray, depth).Some?
    ensures var p := ReadDocument(env, bytes, isArray, depth).value;
            IsRest(bytes, p.rest) && IsDocument(env, Consumed(bytes, p.rest), p.value, isArray, depth)
    decreases |bytes|, 0
  {
    hide Int32Of, Signed4, ReadElements, IsElements, ObjectOf, LastWins;
    FourIs(bytes[..4]);
    var n := Int32Of(bytes[..4]);
    var body := bytes[..n];
    assert body[..4] == bytes[..4] && body[4..n - 1] == bytes[4..n - 1];
    var elements := ReadElements(env, bytes[4..n - 1], depth).value;
    ElementsFound(env, bytes[4..n - 1], depth);
    ObjectIs(elements);
    ItemsAre(elements);
    var p := ReadDocument(env, bytes, isArray, depth).value;
    assert p.rest == bytes[n..] && Consumed(bytes, p.rest) == body;
    assert p.value == Whole(elements, isArray);
    assert IsElements(env, body[4..n - 1], elements, depth);
  }

  lemma {:induction false} ElementsFound(env: Env, bytes: seq<Byte>, depth: nat)
    requires ReadElements(env, bytes, depth).Some?
    ensures IsElements(env, bytes, ReadElements(env, bytes, depth).value, depth)
    decreases |bytes|, 0
  {
    hide ReadName, ReadValue, IsCString, IsValue;
    if bytes != [] {
      var name := ReadName(env, bytes[1..]).value;
      var v := ReadValue(env, bytes[0], name.rest, depth).value;
      NameFound(env, bytes[1..]);
      ValueFound(env, bytes[0], name.rest, depth);
      ElementsFound(env, v.rest, depth);
      var i, j := |bytes| - |name.rest|, |bytes| - |v.rest|;
      var elements := ReadElements(env, bytes, depth).value;
      assert bytes[1..i] == bytes[1..][..i - 1] && bytes[i..j] == name.rest[..j - i] && bytes[j..] == v.rest;
      NameNotEmpty(env, bytes[1..i], name.value);
      assert elements[1..] == ReadElements(env, v.rest, depth).value;
      assert IsElement(env, bytes, i, j, elements, depth);
    }
  }

  lemma NameNotEmpty(env: Env, bytes: seq<Byte>, text: string)
    requires IsCString(env, bytes, text)
    ensures |bytes| >= 1
  {
  }

  lemma {:induction false} ValueIsRead(env: Env, type_: Byte, body: seq<Byte>, v: Value, depth: nat, tail: seq<Byte>)
    requires IsValue(env, type_, body, v, depth)
    ensures ReadValue(env, type_, body + tail, depth) == Some(Parsed(v, tail))
    decreases |body|, 1
  {
    hide IsScalar, ReadScalar, ReadString, IsString, ReadDocument, IsDocument;
    if type_ == T_DOCUMENT || type_ == T_ARRAY {
      DocumentIsRead(env, body, v, type_ == T_ARRAY, depth + 1, tail);
    } else if type_ == T_JAVASCRIPT_SCOPE {
      var i: nat, code, scope :|
        4 <= i <= |body| && IsScope(env, body, i, code, scope, depth) && v == Pair("javascript", code);
      var all := body + tail;
      assert all[4..] == body[4..i] + (body[i..] + tail);
      StringRead(env, body[4..i], code, body[i..] + tail);
      DocumentIsRead(env, body[i..], scope, false, depth + 1, tail);
    } else {
      ScalarIsRead(env, type_, body, v, tail);
    }
  }

  lemma {:induction false} DocumentIsRead(env: Env, body: seq<Byte>, v: Value, isArray: bool, depth: nat, tail: seq<Byte>)
    requires IsDocument(env, body, v, isArray, depth)
    ensures ReadDocument(env, body + tail, isArray, depth) == Some(Parsed(v, tail))
    decreases |body|, 0
  {
    hide Int32Of, Signed4, ReadElements, IsElements, ObjectOf, LastWins;
    var n, all := |body|, body + tail;
    FourIs(body[..4]);
    assert all[..4] == body[..4] && all[4..n - 1] == body[4..n - 1] && all[n..] == tail;
    var elements :| IsElements(env, body[4..n - 1], elements, depth) && v == Whole(elements, isArray);
    ElementsAreRead(env, body[4..n - 1], elements, depth);
    ObjectIs(elements);
    ItemsAre(elements);
  }

  lemma {:induction false} ElementsAreRead(env: Env, bytes: seq<Byte>, elements: seq<Field>, depth: nat)
    requires IsElements(env, bytes, elements, depth)
    ensures ReadElements(env, bytes, depth) == Some(elements)
    decreases |bytes|, 0
  {
    hide ReadName, ReadValue, IsCString, IsValue;
    if elements != [] {
      var i: nat, j: nat :| 2 <= i <= j <= |bytes| && IsElement(env, bytes, i, j, elements, depth);
      assert bytes[1..] == bytes[1..i] + bytes[i..] && bytes[i..] == bytes[i..j] + bytes[j..];
      NameRead(env, bytes[1..i], elements[0].name, bytes[i..]);
      ValueIsRead(env, bytes[0], bytes[i..j], elements[0].value, depth, bytes[j..]);
      ElementsAreRead(env, bytes[j..], elements[1..], depth);
      assert elements == [Field(elements[0].name, elements[0].value)] + elements[1..];
    }
  }

  /**
   Reading finds a document at the front of any bytes exactly when one stands there, and then its value
   and the bytes behind it.
   */
  lemma {:induction false} DecodeIsExact(env: Env, bytes: seq<Byte>, v: Value, rest: seq<Byte>)
    ensures Decode(env, bytes) == Some(Parsed(v, rest)) <==>
            IsRest(bytes, rest) && IsDocument(env, Consumed(bytes, rest), v, false, 0)
  {
    hide ReadDocument, IsDocument;
    if Decode(env, bytes) == Some(Parsed(v, rest)) {
      DocumentFound(env, bytes, false, 0);
    }
    if IsRest(bytes, rest) && IsDocument(env, Consumed(bytes, rest), v, false, 0) {
      DocumentIsRead(env, Consumed(bytes, rest), v, false, 0, rest);
      assert Consumed(bytes, rest) + rest == bytes;
    }
  }

  /** No bytes stand for two values, and none with more bytes behind them for another. */
  lemma {:induction false} OneMeaning(env: Env, a: seq<Byte>, b: seq<Byte>, v: Value, w: Value)
    requires IsDocument(env, a, v, false, 0) && IsDocument(env, b, w, false, 0) && a <= b
    ensures a == b && v == w
  {
    hide IsDocument, ReadDocument;
    DocumentIsRead(env, a, v, false, 0, b[|a|..]);
    DocumentIsRead(env, b, w, false, 0, []);
    assert a + b[|a|..] == b && b + [] == b;
  }

  /**
   What is written for a document nested at most 100 deep is BSON that stands for the document in which each
   pair stands for the value it names.
   */
  lemma {:induction false} WrittenIsBson(env: Env, fields: seq<Field>)
    requires Sound(env) && RegularFields(env, fields) && FieldsNestWithin(fields, 100) && Encode(env, fields).Some?
    ensures IsDocument(env, Encode(env, fields).value, Document(MeantFields(env, fields)), false, 0)
  {
    hide IsDocument, Decode, Encode, Sound, RegularFields, FieldsNestWithin, MeantFields;
    var bytes := Encode(env, fields).value;
    WrittenMeans(env, fields, []);
    assert bytes + [] == bytes;
    DecodeIsExact(env, bytes, Document(MeantFields(env, fields)), []);
    assert Consumed(bytes, []) == bytes;
  }
}
