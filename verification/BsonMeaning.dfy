/**
 What the pairs `{ $type, $value }` stand for, written down from their two texts: the type an element is
 written with and the value a reader finds in it. This covers the types that reading never makes, such as
 "double". From it, what any document that is written is read as.
 */
module BsonMeaning {
  import opened Bytes
  import opened Numerals
  import opened Texts
  import opened Wrappers
  import opened Bson
  import opened BsonRoundTrip
  import opened BsonTags
  import opened BsonDecoded
  import Decimal128

  /* ---------- Texts ---------- */

  predicate IsHexText(s: string) {
    forall i :: 0 <= i < |s| ==> '0' <= s[i] <= '9' || 'a' <= s[i] <= 'f' || 'A' <= s[i] <= 'F'
  }

  function LowerHexChar(c: char): char {
    if c == 'A' then 'a' else if c == 'B' then 'b' else if c == 'C' then 'c'
    else if c == 'D' then 'd' else if c == 'E' then 'e' else if c == 'F' then 'f' else c
  }

  function LowerHexOf(s: string): string {
    seq(|s|, i requires 0 <= i < |s| => LowerHexChar(s[i]))
  }

  // The text without its dashes.
  function Undashed(s: string): string {
    var n := |s| - 1;
    if n < 0 then "" else Undashed(s[..n]) + if s[n] == '-' then "" else [s[n]]
  }

  function Dashed(h: string): string
    requires |h| == 32
  {
    h[..8] + "-" + h[8..12] + "-" + h[12..16] + "-" + h[16..20] + "-" + h[20..]
  }

  // How many lower-case letters a text ends with.
  function LowerTail(s: string): (n: nat)
    ensures n <= |s|
  {
    var n := |s| - 1;
    if n >= 0 && 'a' <= s[n] <= 'z' then 1 + LowerTail(s[..n]) else 0
  }

  // A pattern between slashes, and flags; the pattern has no zero character.
  predicate IsRegexText(s: string) {
    var n := |s| - LowerTail(s);
    n >= 2 && s[0] == '/' && s[n - 1] == '/' && '\0' !in s[1..n - 1]
  }

  // The same characters in ascending order.
  ghost function InOrder(s: string): (r: string)
    ensures Ascending(r) && multiset(r) == multiset(s)
  {
    SortedAscends(s);
    SortedSame(s);
    var r :| Ascending(r) && multiset(r) == multiset(s);
    r
  }

  /* ---------- What a pair of texts names ---------- */

  function DateNamed(n: int): Value {
    if -8_640_000_000_000_000 <= n <= 8_640_000_000_000_000 then Date(n) else Pair("date", Signed(n))
  }

  function IntegerNamed(n: int): Value {
    if -9_007_199_254_740_991 <= n <= 9_007_199_254_740_991 then Int(n) else Big(n)
  }

  function DoubleNamed(env: Env, bits: seq<Byte>): Value {
    if env.whole(bits).Some? then Int(env.whole(bits).value) else Double(bits)
  }

  function BinaryNamed(env: Env, subtype: nat, bytes: seq<Byte>): Value {
    if subtype == 0 then Binary(bytes)
    else if subtype == 4 && |bytes| == 16 then Pair("uuid", Dashed(HexText(bytes)))
    else Pair("binary:" + Digits(subtype), env.base64(bytes))
  }

  function HexText(bytes: seq<Byte>): (h: string)
    ensures |h| == 2 * |bytes|
  {
    HexLength(bytes);
    Hex(bytes)
  }

  lemma {:induction false} HexLength(bytes: seq<Byte>)
    ensures |Hex(bytes)| == 2 * |bytes|
  {
    if bytes != [] {
      HexLength(bytes[1..]);
    }
  }

  predicate FitsInt64(n: Option<int>) {
    n.Some? && -0x8000_0000_0000_0000 <= n.value <= 0x7fff_ffff_ffff_ffff
  }

  // Seconds, and behind a colon the increment; what is behind a second colon is not looked at.
  function TimestampNamed(env: Env, text: string): Option<Value> {
    var parts := Split(':', text);
    var seconds := env.uint32(parts[0]);
    var increment := if |parts| == 1 then Some(0) else env.uint32(parts[1]);
    if seconds.Some? && increment.Some? then Some(Pair("timestamp", Digits(seconds.value) + ":" + Digits(increment.value)))
    else None
  }

  // The subtype in `binary:` and its number.
  predicate IsBinaryName(name: string) {
    var parts := Split(':', name);
    |parts| == 2 && parts[0] == "binary" && parts[1] != "" && AllDigits(parts[1])
  }

  function Typed(type_: Byte, v: Value): Option<(Byte, Value)> {
    Some((type_, v))
  }

  // The type of the element and the value in it; nothing where writing throws.
  ghost function TagMeaning(env: Env, name: string, text: string): Option<(Byte, Value)> {
    if name == "double" then Typed(0x01, DoubleNamed(env, env.double(text)))
    else if name == "int32" then
      if env.int32(text).Some? then Typed(0x10, Int(env.int32(text).value)) else None
    else if name == "int64" then
      if FitsInt64(env.bigInt(text)) then Typed(0x12, IntegerNamed(env.bigInt(text).value)) else None
    else if name == "date" then
      if FitsInt64(env.bigInt(text)) then Typed(0x09, DateNamed(env.bigInt(text).value)) else None
    else if name == "objectId" then
      if |text| == 24 && IsHexText(text) then Typed(0x07, Pair("objectId", LowerHexOf(text))) else None
    else if name == "uuid" then
      if |Undashed(text)| == 32 && IsHexText(Undashed(text))
      then Typed(0x05, Pair("uuid", Dashed(LowerHexOf(Undashed(text))))) else None
    else if name == "decimal128" then
      (match Decimal128.FromText(text)
       case Ok(bits) => Typed(0x13, Pair("decimal128", Decimal128.ToText(bits)))
       case Err(_) => None)
    else if name == "timestamp" then
      if TimestampNamed(env, text).Some? then Typed(0x11, TimestampNamed(env, text).value) else None
    else if name == "regex" then
      if IsRegexText(text) then
        var n := |text| - LowerTail(text);
        Typed(0x0b, Pair("regex", text[..n] + InOrder(text[n..])))
      else None
    else if name == "javascript" then Typed(0x0d, Pair("javascript", text))
    else if name == "symbol" then Typed(0x0e, Pair("symbol", text))
    else if name == "minKey" then Typed(0xff, Pair("minKey", ""))
    else if name == "maxKey" then Typed(0x7f, Pair("maxKey", ""))
    else if IsBinaryName(name) then Typed(0x05, BinaryNamed(env, ToNat(Split(':', name)[1]) % 256, env.unbase64(text)))
    else None
  }

  /* ---------- Flags ---------- */

  lemma {:induction false} SortedSame(s: string)
    ensures multiset(Sorted(s)) == multiset(s)
  {
    if s != "" {
      SortedSame(s[1..]);
      InsertSame(s[0], Sorted(s[1..]));
      assert s == [s[0]] + s[1..];
    }
  }

  lemma {:induction false} InsertSame(c: char, s: string)
    ensures multiset(Insert(c, s)) == multiset(s) + multiset{c}
  {
    if s != "" && c > s[0] {
      InsertSame(c, s[1..]);
      assert s == [s[0]] + s[1..];
    }
  }

  lemma {:induction false} AscendingUnique(a: string, b: string)
    requires Ascending(a) && Ascending(b) && multiset(a) == multiset(b)
    ensures a == b
  {
    SameSize(a, b);
    if a != "" {
      FirstLeast(a, b);
      FirstLeast(b, a);
      TailSame(a, b);
      AscendingTail(a);
      AscendingTail(b);
      AscendingUnique(a[1..], b[1..]);
      assert a == [a[0]] + a[1..] && b == [b[0]] + b[1..];
    }
  }

  lemma FirstLeast(a: string, b: string)
    requires a != "" && b != "" && Ascending(a) && multiset(a) == multiset(b)
    ensures a[0] <= b[0]
  {
    assert b[0] in multiset(b);
    assert b[0] in a;
  }

  lemma TailSame(a: string, b: string)
    requires a != "" && b != "" && a[0] == b[0] && multiset(a) == multiset(b)
    ensures multiset(a[1..]) == multiset(b[1..])
  {
    assert a == [a[0]] + a[1..] && b == [b[0]] + b[1..];
    assert multiset(a[1..]) == multiset(a) - multiset{a[0]};
    assert multiset(b[1..]) == multiset(b) - multiset{b[0]};
  }

  lemma AscendingTail(a: string)
    requires a != "" && Ascending(a)
    ensures Ascending(a[1..])
  {
  }

  lemma SameSize(a: string, b: string)
    requires multiset(a) == multiset(b)
    ensures |a| == |b|
  {
    assert |multiset(a)| == |a| && |multiset(b)| == |b|;
  }

  lemma SortedInOrder(s: string)
    ensures Sorted(s) == InOrder(s)
  {
    SortedAscends(s);
    SortedSame(s);
    AscendingUnique(Sorted(s), InOrder(s));
  }

  /* ---------- Hexadecimal digits ---------- */

  predicate IsHexChar(c: char) {
    '0' <= c <= '9' || 'a' <= c <= 'f' || 'A' <= c <= 'F'
  }

  lemma DigitRead(c: char)
    ensures HexValue(c).Some? <==> IsHexChar(c)
    ensures HexValue(c).Some? ==> HexValue(c).value < 16 && HexDigit(HexValue(c).value) == LowerHexChar(c)
  {
  }

  lemma PairRead(high: char, low: char)
    requires HexValue(high).Some? && HexValue(low).Some?
    ensures HexPair(HexByte(high, low)) == [LowerHexChar(high), LowerHexChar(low)]
  {
    hide HexValue, HexDigit, LowerHexChar;
    DigitRead(high);
    DigitRead(low);
    var h, l := HexValue(high).value, HexValue(low).value;
    assert HexByte(high, low) == 16 * h + l;
    assert (16 * h + l) / 16 == h && (16 * h + l) % 16 == l;
  }

  lemma HexTextFirst(s: string)
    requires |s| >= 2
    ensures IsHexText(s) <==> IsHexChar(s[0]) && IsHexChar(s[1]) && IsHexText(s[2..])
    ensures LowerHexOf(s) == [LowerHexChar(s[0]), LowerHexChar(s[1])] + LowerHexOf(s[2..])
  {
    hide LowerHexChar;
    if IsHexChar(s[0]) && IsHexChar(s[1]) && IsHexText(s[2..]) {
      forall i | 0 <= i < |s| ensures IsHexChar(s[i]) {
        if i >= 2 {
          assert s[i] == s[2..][i - 2];
        }
      }
    }
  }

  lemma {:induction false} HexRead(s: string)
    ensures ReadHex(s).Some? <==> |s| % 2 == 0 && IsHexText(s)
    ensures ReadHex(s).Some? ==> Hex(ReadHex(s).value) == LowerHexOf(s) && 2 * |ReadHex(s).value| == |s|
  {
    hide HexPair, HexByte, HexValue, LowerHexChar, IsHexChar, IsHexText, LowerHexOf;
    if |s| >= 2 {
      HexRead(s[2..]);
      HexTextFirst(s);
      DigitRead(s[0]);
      DigitRead(s[1]);
      if HexValue(s[0]).Some? && HexValue(s[1]).Some? {
        PairRead(s[0], s[1]);
      }
    } else {
      ShortHex(s);
    }
  }

  lemma ShortHex(s: string)
    requires |s| < 2
    ensures s == "" ==> IsHexText(s) && LowerHexOf(s) == ""
  {
  }

  lemma {:induction false} UndashedIs(s: string)
    ensures Undashed(s) == Without(s, '-')
  {
    if s != "" {
      var n := |s| - 1;
      UndashedIs(s[..n]);
      WithoutOfTwo(s[..n], [s[n]]);
      assert s == s[..n] + [s[n]] && [s[n]][1..] == "";
    }
  }

  lemma {:induction false} WithoutOfTwo(a: string, b: string)
    ensures Without(a + b, '-') == Without(a, '-') + Without(b, '-')
  {
    if a == "" {
      assert a + b == b;
    } else {
      WithoutOfTwo(a[1..], b);
      assert (a + b)[1..] == a[1..] + b;
    }
  }

  /* ---------- Each type ---------- */

  // What is written for a pair of texts is of the type, and is read as the value, that the pair names.
  ghost predicate Agrees(env: Env, name: string, text: string) {
    var e, m := EncodeTag(env, name, text), TagMeaning(env, name, text);
    && (e.Some? <==> m.Some?)
    && (e.Some? && |e.value.body| <= MAX_DOCUMENT_BYTES ==>
          && e.value.type_ == m.value.0
          && ReadScalar(env, m.value.0, e.value.body) == Some(Parsed(m.value.1, [])))
  }

  lemma FixedRead(env: Env, type_: Byte, body: seq<Byte>)
    requires FixedWidth(type_) == Some(|body|)
    ensures ReadScalar(env, type_, body) == Some(Parsed(FixedValue(env, type_, body), []))
  {
    hide ReadScalar, FixedValue;
    FixedBack(env, type_, body, []);
    assert body + [] == body;
  }

  lemma NumbersAgree(env: Env, name: string, text: string)
    requires Sound(env) && (name == "double" || name == "int32" || name == "int64" || name == "date")
    ensures Agrees(env, name, text)
  {
    hide ReadScalar, Int32Bytes, Int64Bytes, Int32Of, Int64Of, Signed, Decimal128.FromText, Decimal128.ToText;
    if name == "double" {
      FixedRead(env, T_DOUBLE, env.double(text));
    } else if name == "int32" {
      if env.int32(text).Some? {
        Int32Back(env.int32(text).value);
        FixedRead(env, T_INT32, Int32Bytes(env.int32(text).value));
      }
    } else if FitsInt64(env.bigInt(text)) {
      Int64Back(env.bigInt(text).value);
      FixedRead(env, if name == "date" then T_DATE else T_INT64, Int64Bytes(env.bigInt(text).value));
    }
  }

  lemma ObjectIdsAgree(env: Env, text: string)
    ensures Agrees(env, "objectId", text)
  {
    hide ReadScalar, ReadHex, Hex, LowerHexOf, IsHexText, Decimal128.FromText, Decimal128.ToText;
    HexRead(text);
    if |text| == 24 && ReadHex(text).Some? {
      FixedRead(env, T_OBJECT_ID, ReadHex(text).value);
    }
  }

  lemma DashesAt(id: seq<Byte>)
    requires |id| == 16
    ensures |Hex(id)| == 32 && DashedHex(id) == Dashed(Hex(id))
  {
    hide Hex;
    var a, b, c, d, e := id[..4], id[4..6], id[6..8], id[8..10], id[10..];
    HexLength(a);
    HexLength(b);
    HexLength(c);
    HexLength(d);
    HexLength(e);
    HexJoined(a, b);
    HexJoined(a + b, c);
    HexJoined(a + b + c, d);
    HexJoined(a + b + c + d, e);
    assert id == a + b + c + d + e;
    var h := Hex(id);
    assert h == Hex(a) + Hex(b) + Hex(c) + Hex(d) + Hex(e);
    assert h[..8] == Hex(a) && h[8..12] == Hex(b) && h[12..16] == Hex(c) && h[16..20] == Hex(d) && h[20..] == Hex(e);
  }

  lemma BinaryNamedIs(env: Env, subtype: Byte, bytes: seq<Byte>)
    ensures BinaryOf(env, subtype, bytes) == BinaryNamed(env, subtype, bytes)
  {
    hide Hex, DashedHex, Dashed;
    if subtype == 4 && |bytes| == 16 {
      DashesAt(bytes);
    }
  }

  lemma BinaryRead(env: Env, subtype: Byte, bytes: seq<Byte>)
    requires |BinaryBody(subtype, bytes)| <= MAX_DOCUMENT_BYTES
    ensures ReadScalar(env, 0x05, BinaryBody(subtype, bytes)) == Some(Parsed(BinaryNamed(env, subtype, bytes), []))
  {
    hide ReadScalar, BinaryBody, BinaryOf, BinaryNamed;
    BinaryScalarBack(env, subtype, bytes, []);
    BinaryNamedIs(env, subtype, bytes);
    assert BinaryBody(subtype, bytes) + [] == BinaryBody(subtype, bytes);
  }

  lemma UuidsAgree(env: Env, text: string)
    ensures Agrees(env, "uuid", text)
  {
    hide ReadScalar, ReadHex, Hex, LowerHexOf, IsHexText, Undashed, Without, BinaryBody, Dashed, DashedHex,
      Decimal128.FromText, Decimal128.ToText;
    UndashedIs(text);
    var h := Undashed(text);
    HexRead(h);
    if |h| == 32 && ReadHex(h).Some? && |BinaryBody(4, ReadHex(h).value)| <= MAX_DOCUMENT_BYTES {
      BinaryRead(env, 4, ReadHex(h).value);
    }
  }

  lemma BitsFit(text: string)
    ensures Decimal128.FromText(text).Ok? ==> Decimal128.FromText(text).value < Decimal128.TWO_128
  {
    hide Decimal128.MatchNumber, Decimal128.Encode, Decimal128.IsNegative, Decimal128.Body;
    var n := Decimal128.MatchNumber(Decimal128.Body(text));
    if n.Some? && Decimal128.Encode(Decimal128.IsNegative(text), n.value).Ok? {
      Decimal128.ValueKept(Decimal128.IsNegative(text), n.value);
    }
  }

  lemma DecimalsAgree(env: Env, text: string)
    ensures Agrees(env, "decimal128", text)
  {
    hide ReadScalar, LittleEndian, FromLittleEndian, Decimal128.FromText, Decimal128.ToText;
    if Decimal128.FromText(text).Ok? {
      var bits := Decimal128.FromText(text).value;
      BitsFit(text);
      Widths();
      LittleEndianRead(bits, 16);
      FixedRead(env, T_DECIMAL128, LittleEndian(bits, 16));
    }
  }

  lemma TimestampsAgree(env: Env, text: string)
    requires Sound(env)
    ensures Agrees(env, "timestamp", text)
  {
    hide ReadScalar, LittleEndian, FromLittleEndian, IndexOf, Split, Digits, Decimal128.FromText, Decimal128.ToText;
    PartsAt(text);
    if TimestampBody(env, text).Some? {
      var i := IndexOf(text, ':');
      var seconds := env.uint32(text[..i]).value;
      var after := if i < |text| then text[i + 1..] else "";
      var increment := if i < |text| then env.uint32(after[..IndexOf(after, ':')]).value else 0;
      TimestampBack(env, seconds, increment, []);
      var body := LittleEndian(increment, 4) + LittleEndian(seconds, 4);
      assert body + [] == body;
    }
  }

  // The parts between colons.
  lemma PartsAt(text: string)
    ensures var i, parts := IndexOf(text, ':'), Split(':', text);
            && text[..i] == parts[0] && (i == |text| <==> |parts| == 1)
            && (i < |text| ==> text[i + 1..][..IndexOf(text[i + 1..], ':')] == parts[1])
  {
    FirstPart(text);
    var i := IndexOf(text, ':');
    if i < |text| {
      FirstPart(text[i + 1..]);
    }
  }

  lemma PartBefore(text: string, i: nat)
    requires i < |text| && text[i] == ':' && ':' !in text[..i]
    ensures var parts := Split(':', text); parts[0] == text[..i] && parts[1..] == Split(':', text[i + 1..])
  {
    hide Split;
    CutAt(text, i);
    SplitWhole(':', text[..i]);
    SplitOfTwo(':', text[..i], text[i + 1..]);
    FirstAndRest(text[..i], Split(':', text[i + 1..]));
  }

  lemma CutAt(text: string, i: nat)
    requires i < |text|
    ensures text == text[..i] + [text[i]] + text[i + 1..]
  {
  }

  lemma FirstAndRest(first: string, rest: seq<string>)
    ensures var all := [first] + rest; all[0] == first && all[1..] == rest
  {
  }

  lemma FirstPart(text: string)
    ensures var i, parts := IndexOf(text, ':'), Split(':', text);
            && text[..i] == parts[0]
            && (if i == |text| then parts == [text] else parts[1..] == Split(':', text[i + 1..]))
  {
    hide Split, IndexOf;
    var i := IndexOf(text, ':');
    if i < |text| {
      PartBefore(text, i);
    } else {
      WholePart(text, i);
    }
  }

  lemma WholePart(text: string, i: nat)
    requires i == |text| && ':' !in text[..i]
    ensures Split(':', text) == [text] && text[..i] == text
  {
    hide Split;
    assert text[..i] == text;
    SplitWhole(':', text);
  }

  // The lower-case letters at the end, and the last slash.
  lemma {:induction false} TailIs(s: string, n: nat)
    requires n <= |s| && (forall i :: n <= i < |s| ==> 'a' <= s[i] <= 'z') && (n > 0 ==> !('a' <= s[n - 1] <= 'z'))
    ensures LowerTail(s) == |s| - n
  {
    if n < |s| {
      TailIs(s[..|s| - 1], n);
    }
  }

  lemma {:induction false} TailIsLower(s: string)
    ensures var n := |s| - LowerTail(s);
            && (forall i :: n <= i < |s| ==> 'a' <= s[i] <= 'z') && (n > 0 ==> !('a' <= s[n - 1] <= 'z'))
  {
    var n := |s| - 1;
    if n >= 0 && 'a' <= s[n] <= 'z' {
      TailIsLower(s[..n]);
    }
  }

  lemma {:induction false} SlashAt(s: string)
    ensures var n, last := |s| - LowerTail(s), PastLast(s, '/');
            (n > 0 && s[n - 1] == '/') <==> (last > 0 && forall i :: last <= i < |s| ==> IsLower(s[i]))
    ensures var n := |s| - LowerTail(s); n > 0 && s[n - 1] == '/' ==> PastLast(s, '/') == n
  {
    TailIsLower(s);
    var n, last := |s| - LowerTail(s), PastLast(s, '/');
    if last > 0 && forall i :: last <= i < |s| ==> IsLower(s[i]) {
      TailIs(s, last);
    }
    if n > 0 && s[n - 1] == '/' {
      assert s == s[..n - 1] + ['/'] + s[n..];
      LastFound(s[..n - 1], '/', s[n..]);
    }
  }

  lemma RegexTextIs(env: Env, text: string)
    ensures RegexBody(env, text).Some? <==> IsRegexText(text)
    ensures RegexBody(env, text).Some? ==>
              var n := |text| - LowerTail(text);
              && PastLast(text, '/') == n && '\0' !in text[1..n - 1] && '\0' !in Sorted(text[n..])
              && RegexBody(env, text).value == NameBytes(env, text[1..n - 1]).GetOr([]) + NameBytes(env, Sorted(text[n..])).GetOr([])
  {
    hide Sorted, PastLast, LowerTail;
    SlashAt(text);
    TailIsLower(text);
    var n := |text| - LowerTail(text);
    SortedAscends(text[n..]);
    assert forall i :: n <= i < |text| ==> text[i] == text[n..][i - n];
    assert '\0' !in Sorted(text[n..]);
  }

  lemma RegexesAgree(env: Env, text: string)
    requires Sound(env)
    ensures Agrees(env, "regex", text)
  {
    hide ReadScalar, NameBytes, PastLast, Sorted, InOrder, LowerTail, RegexBody, Sound, Decimal128.FromText, Decimal128.ToText;
    RegexTextIs(env, text);
    if RegexBody(env, text).Some? {
      var n := |text| - LowerTail(text);
      var pattern, flags := text[1..n - 1], Sorted(text[n..]);
      SortedInOrder(text[n..]);
      FlagsBack(env, pattern, flags, []);
      var body := RegexBody(env, text).value;
      assert body + [] == body;
      assert text[..n] == "/" + pattern + "/";
      assert text[..n] + flags == "/" + pattern + "/" + flags;
    }
  }

  lemma TextsAgree(env: Env, name: string, text: string)
    requires Sound(env) && (name == "javascript" || name == "symbol")
    ensures Agrees(env, name, text)
  {
    hide ReadScalar, StringBytes, Sound, Decimal128.FromText, Decimal128.ToText;
    if |StringBytes(env, text)| <= MAX_DOCUMENT_BYTES {
      TextBack(env, if name == "symbol" then T_SYMBOL else T_JAVASCRIPT, text, []);
      assert StringBytes(env, text) + [] == StringBytes(env, text);
    }
  }

  lemma KeysAgree(env: Env, name: string, text: string)
    requires name == "minKey" || name == "maxKey"
    ensures Agrees(env, name, text)
  {
    hide ReadScalar, Decimal128.FromText, Decimal128.ToText;
    FixedRead(env, if name == "minKey" then T_MIN_KEY else T_MAX_KEY, []);
  }

  lemma BinaryParts(digits: string)
    requires AllDigits(digits)
    ensures Split(':', "binary:" + digits) == ["binary", digits]
  {
    hide Split;
    assert "binary:" + digits == "binary" + [':'] + digits;
    SplitOfTwo(':', "binary", digits);
    SplitWhole(':', "binary");
    SplitWhole(':', digits);
  }

  lemma BinaryJoined(name: string)
    requires IsBinaryName(name)
    ensures |name| > 7 && name[..7] == "binary:" && name[7..] == Split(':', name)[1]
  {
    hide Split;
    JoinSplit(':', name);
    var parts := Split(':', name);
    assert parts[1..] == [parts[1]];
    assert name == "binary" + [':'] + parts[1];
    assert "binary:" == "binary" + [':'];
  }

  lemma BinaryNameIs(name: string)
    ensures SubtypeOf(name).Some? <==> IsBinaryName(name)
    ensures IsBinaryName(name) ==> SubtypeOf(name) == Some(ToNat(Split(':', name)[1]) % 256)
  {
    hide Split, ToNat;
    if SubtypeOf(name).Some? {
      assert name == "binary:" + name[7..];
      BinaryParts(name[7..]);
    }
    if IsBinaryName(name) {
      BinaryJoined(name);
    }
  }

  predicate IsNamed(name: string) {
    || name == "double" || name == "int32" || name == "int64" || name == "date" || name == "objectId" || name == "uuid"
    || name == "decimal128" || name == "timestamp" || name == "regex" || name == "javascript" || name == "symbol"
    || name == "minKey" || name == "maxKey"
  }

  lemma OthersAgree(env: Env, name: string, text: string)
    requires !IsNamed(name)
    ensures Agrees(env, name, text)
  {
    hide ReadScalar, SubtypeOf, BinaryBody, IsBinaryName, Split, Digits, ToNat, BinaryNamed, Decimal128.FromText, Decimal128.ToText;
    BinaryNameIs(name);
    if SubtypeOf(name).Some? && |BinaryBody(SubtypeOf(name).value, env.unbase64(text))| <= MAX_DOCUMENT_BYTES {
      BinaryRead(env, SubtypeOf(name).value, env.unbase64(text));
    }
  }

  /**
   A pair of texts is written exactly when it names a value; then it is written with the type it names, and
   read as the value it names.
   */
  lemma {:induction false} TagIsMeant(env: Env, name: string, text: string)
    requires Sound(env)
    ensures Agrees(env, name, text)
  {
    hide Agrees, Sound;
    if !IsNamed(name) {
      OthersAgree(env, name, text);
    } else if name == "double" || name == "int32" || name == "int64" || name == "date" {
      NumbersAgree(env, name, text);
    } else if name == "objectId" {
      ObjectIdsAgree(env, text);
    } else if name == "uuid" {
      UuidsAgree(env, text);
    } else if name == "decimal128" {
      DecimalsAgree(env, text);
    } else if name == "timestamp" {
      TimestampsAgree(env, text);
    } else if name == "regex" {
      RegexesAgree(env, text);
    } else if name == "javascript" || name == "symbol" {
      TextsAgree(env, name, text);
    } else {
      KeysAgree(env, name, text);
    }
  }

  /* ---------- Documents ---------- */

  // A pair: an object of two fields, in either order, both texts.
  predicate IsPair(fields: seq<Field>, name: string, text: string) {
    || fields == [Field("$type", Text(name)), Field("$value", Text(text))]
    || fields == [Field("$value", Text(text)), Field("$type", Text(name))]
  }

  lemma NamesDiffer()
    ensures "$type" != "$value"
  {
    assert |"$type"| == 5 && |"$value"| == 6;
  }

  lemma LookupOfTwo(a: Field, b: Field, name: string)
    ensures Lookup([a, b], name) == if a.name == name then Some(a.value) else if b.name == name then Some(b.value) else None
  {
    assert [a, b][1..] == [b] && [b][1..] == [];
    assert Lookup([b], name) == if b.name == name then Some(b.value) else None;
  }

  /** An object passes for a tagged value exactly when it is a pair. */
  lemma PairsAreTagged(fields: seq<Field>, name: string, text: string)
    ensures IsTagged(fields) && Lookup(fields, "$type") == Some(Text(name)) && Lookup(fields, "$value") == Some(Text(text))
            <==> IsPair(fields, name, text)
  {
    hide Lookup;
    NamesDiffer();
    if |fields| == 2 {
      assert fields == [fields[0], fields[1]];
      LookupOfTwo(fields[0], fields[1], "$type");
      LookupOfTwo(fields[0], fields[1], "$value");
    }
  }

  ghost predicate IsAnyPair(fields: seq<Field>) {
    exists name, text :: IsPair(fields, name, text)
  }

  // The two texts of a pair.
  ghost function PairTexts(fields: seq<Field>): (p: (string, string))
    requires IsAnyPair(fields)
    ensures IsPair(fields, p.0, p.1)
  {
    var name, text :| IsPair(fields, name, text);
    (name, text)
  }

  lemma TaggedTextsAre(fields: seq<Field>)
    ensures IsTagged(fields) <==> IsAnyPair(fields)
    ensures IsTagged(fields) ==>
              && Lookup(fields, "$type") == Some(Text(PairTexts(fields).0))
              && Lookup(fields, "$value") == Some(Text(PairTexts(fields).1))
  {
    hide Lookup, IsPair;
    if IsTagged(fields) {
      TaggedTexts(fields);
      PairsAreTagged(fields, Lookup(fields, "$type").value.text, Lookup(fields, "$value").value.text);
    }
    if IsAnyPair(fields) {
      PairsAreTagged(fields, PairTexts(fields).0, PairTexts(fields).1);
    }
  }

  ghost function PairMeaning(env: Env, fields: seq<Field>): Option<(Byte, Value)>
    requires IsAnyPair(fields)
  {
    TagMeaning(env, PairTexts(fields).0, PairTexts(fields).1)
  }

  // The value that a reader finds in what is written: pairs stand for what they name.
  ghost function Meant(env: Env, v: Value): Value {
    match v
    case List(items) => List(seq(|items|, i requires 0 <= i < |items| => Meant(env, items[i])))
    case Document(fields) =>
      if !IsAnyPair(fields) then Document(MeantFields(env, fields))
      else if PairMeaning(env, fields).Some? then PairMeaning(env, fields).value.1 else v
    case _ => v
  }

  ghost function MeantFields(env: Env, fields: seq<Field>): seq<Field> {
    seq(|fields|, i requires 0 <= i < |fields| => Field(fields[i].name, Meant(env, fields[i].value)))
  }

  ghost function MeantItems(env: Env, items: seq<Value>): seq<Value> {
    seq(|items|, i requires 0 <= i < |items| => Meant(env, items[i]))
  }

  // Every pair inside names a value.
  ghost predicate NamesValues(env: Env, v: Value) {
    match v
    case List(items) => forall i :: 0 <= i < |items| ==> NamesValues(env, items[i])
    case Document(fields) => if IsAnyPair(fields) then PairMeaning(env, fields).Some? else FieldsNameValues(env, fields)
    case _ => true
  }

  ghost predicate FieldsNameValues(env: Env, fields: seq<Field>) {
    forall i :: 0 <= i < |fields| ==> NamesValues(env, fields[i].value)
  }

  lemma PairWritten(env: Env, fields: seq<Field>)
    requires Sound(env) && IsTagged(fields)
    ensures IsAnyPair(fields)
    ensures var e, m := TagOf(env, fields), PairMeaning(env, fields);
            && (e.Some? <==> m.Some?)
            && (e.Some? && |e.value.body| <= MAX_DOCUMENT_BYTES ==>
                  && e.value.type_ == m.value.0
                  && ReadScalar(env, e.value.type_, e.value.body) == Some(Parsed(m.value.1, [])))
  {
    hide EncodeTag, TagMeaning, ReadScalar, Sound, Lookup;
    TaggedTextsAre(fields);
    TagIsMeant(env, PairTexts(fields).0, PairTexts(fields).1);
  }

  lemma {:induction false} AgainIsMeant(env: Env, v: Value, depth: nat)
    requires Sound(env) && EncodeValue(env, v, depth).Some? && |EncodeValue(env, v, depth).value.body| <= MAX_DOCUMENT_BYTES
    ensures Again(env, v) == Meant(env, v)
    decreases v, 1
  {
    hide Sound, IsTagged, Wrap, EncodeTag, ReadScalar, IsAnyPair, PairMeaning;
    match v
    case List(items) =>
      BodySmaller(EncodeItems(env, items, depth + 1).value);
      ItemsMeant(env, items, depth + 1);
      assert AgainItems(env, items) == MeantItems(env, items);
    case Document(fields) =>
      TaggedTextsAre(fields);
      if IsTagged(fields) {
        PairWritten(env, fields);
      } else {
        BodySmaller(EncodeFields(env, fields, depth + 1).value);
        FieldsMeant(env, fields, depth + 1);
      }
    case _ =>
  }

  lemma {:induction false} ItemsMeant(env: Env, items: seq<Value>, depth: nat)
    requires Sound(env) && EncodeItems(env, items, depth).Some? && |EncodeItems(env, items, depth).value| <= MAX_DOCUMENT_BYTES
    ensures AgainItems(env, items) == MeantItems(env, items)
    decreases items, 0
  {
    hide Sound, EncodeValue, NameBytes, Again, Meant, Digits;
    if items != [] {
      var n := |items| - 1;
      ItemsMeant(env, items[..n], depth);
      AgainIsMeant(env, items[n], depth);
      assert AgainItems(env, items) == AgainItems(env, items[..n]) + [Again(env, items[n])];
      assert MeantItems(env, items) == MeantItems(env, items[..n]) + [Meant(env, items[n])];
    }
  }

  lemma {:induction false} FieldsMeant(env: Env, fields: seq<Field>, depth: nat)
    requires Sound(env) && EncodeFields(env, fields, depth).Some? && |EncodeFields(env, fields, depth).value| <= MAX_DOCUMENT_BYTES
    ensures AgainFields(env, fields) == MeantFields(env, fields)
    decreases fields, 0
  {
    hide Sound, EncodeValue, NameBytes, Again, Meant;
    if fields != [] {
      var n := |fields| - 1;
      FieldsMeant(env, fields[..n], depth);
      AgainIsMeant(env, fields[n].value, depth);
      assert AgainFields(env, fields) == AgainFields(env, fields[..n]) + [Field(fields[n].name, Again(env, fields[n].value))];
      assert MeantFields(env, fields) == MeantFields(env, fields[..n]) + [Field(fields[n].name, Meant(env, fields[n].value))];
    }
  }

  lemma {:induction false} WritableIsNamed(env: Env, v: Value)
    requires Sound(env)
    ensures TagsWritable(env, v) <==> NamesValues(env, v)
  {
    hide Sound, IsTagged, EncodeTag, IsAnyPair, PairMeaning, TagOf;
    match v
    case List(items) =>
      forall i | 0 <= i < |items| ensures TagsWritable(env, items[i]) <==> NamesValues(env, items[i]) {
        WritableIsNamed(env, items[i]);
      }
    case Document(fields) =>
      TaggedTextsAre(fields);
      if IsTagged(fields) {
        PairWritten(env, fields);
      } else {
        forall i | 0 <= i < |fields| ensures TagsWritable(env, fields[i].value) <==> NamesValues(env, fields[i].value) {
          WritableIsNamed(env, fields[i].value);
        }
      }
    case _ =>
  }

  /**
   Whatever is written for a document is read, with nothing left over, as the document in which each pair
   stands for the value it names, if and only if it nests at most 100 deep.
   */
  lemma {:induction false} WrittenMeans(env: Env, fields: seq<Field>, tail: seq<Byte>)
    requires Sound(env) && RegularFields(env, fields) && Encode(env, fields).Some?
    ensures Decode(env, Encode(env, fields).value + tail) ==
            if FieldsNestWithin(fields, 100) then Some(Parsed(Document(MeantFields(env, fields)), tail)) else None
  {
    hide Sound, Decode, EncodeFields, Wrap, FieldsNestWithin, RegularFields, AgainFields, MeantFields;
    BodySmaller(EncodeFields(env, fields, 0).value);
    FieldsMeant(env, fields, 0);
    WrittenReads(env, fields, tail);
  }

  /** A document nested at most 100 deep is refused exactly when a pair in it names nothing, or it is too large. */
  lemma {:induction false} RefusedWhenUnnamed(env: Env, fields: seq<Field>)
    requires Sound(env) && RegularFields(env, fields) && FieldsNestWithin(fields, 100)
    ensures EncodeFields(env, fields, 0).Some? <==> FieldsNameValues(env, fields)
    ensures Encode(env, fields).Some? <==>
              FieldsNameValues(env, fields) && |EncodeFields(env, fields, 0).value| + 5 <= 50_331_648
  {
    hide Sound, EncodeFields, Wrap, FieldsNestWithin, Regular, TagsWritable, NamesValues;
    FieldsTaken(env, fields, 0);
    forall i | 0 <= i < |fields| ensures TagsWritable(env, fields[i].value) <==> NamesValues(env, fields[i].value) {
      WritableIsNamed(env, fields[i].value);
    }
    if EncodeFields(env, fields, 0).Some? {
      BodySmaller(EncodeFields(env, fields, 0).value);
    }
  }

  /** A pair inside a document is an element of the type that it names. */
  lemma PairType(env: Env, fields: seq<Field>, depth: nat)
    requires Sound(env) && IsAnyPair(fields) && depth <= 100
    ensures var e, m := EncodeValue(env, Document(fields), depth), PairMeaning(env, fields);
            (e.Some? <==> m.Some?) && (e.Some? && |e.value.body| <= 50_331_648 ==> e.value.type_ == m.value.0)
  {
    hide EncodeTag, PairMeaning, Sound, Lookup, IsAnyPair;
    TaggedTextsAre(fields);
    PairWritten(env, fields);
  }
}
