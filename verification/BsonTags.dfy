/**
 Which pairs of texts `{ $type, $value }` are tagged values as reading makes them: a form that can be
 checked on the two texts, for each of the types.
 */
module BsonTags {
  import opened Numerals
  import opened Texts
  import opened Wrappers
  import opened Bson
  import opened BsonRoundTrip
  import Bytes
  import Decimal128

  predicate IsLowerHex(s: string) {
    forall i :: 0 <= i < |s| ==> '0' <= s[i] <= '9' || 'a' <= s[i] <= 'f'
  }

  // A natural number as it is printed, below a limit.
  predicate IsNumeral(s: string, limit: nat) {
    |s| > 0 && AllDigits(s) && (s[0] == '0' ==> |s| == 1) && ToNat(s) < limit
  }

  predicate IsDecimalForm(text: string) {
    match Decimal128.FromText(text)
    case Ok(bits) => bits < Decimal128.TWO_128 && Decimal128.ToText(bits) == text
    case Err(_) => false
  }

  // A date beyond what JavaScript's dates reach.
  predicate IsFarDateForm(env: Env, text: string) {
    var n := env.bigInt(text);
    n.Some? && Signed(n.value) == text && -TWO_63 <= n.value < TWO_63 && !(-MAX_DATE <= n.value <= MAX_DATE)
  }

  predicate IsTimestampForm(text: string) {
    var i := IndexOf(text, ':');
    i < |text| && IsNumeral(text[..i], TWO_32) && IsNumeral(text[i + 1..], TWO_32)
  }

  predicate IsRegexForm(text: string) {
    var last := PastLast(text, '/');
    last >= 2 && text[0] == '/' && '\0' !in text[1..last - 1] && GoodFlags(text[last..])
  }

  predicate IsUuidForm(text: string) {
    && |text| == 36 && text[8] == '-' && text[13] == '-' && text[18] == '-' && text[23] == '-'
    && IsLowerHex(text[..8]) && IsLowerHex(text[9..13]) && IsLowerHex(text[14..18]) && IsLowerHex(text[19..23])
    && IsLowerHex(text[24..])
  }

  predicate IsBinaryForm(env: Env, name: string, text: string) {
    && |name| > 7 && name[..7] == "binary:" && IsNumeral(name[7..], 256) && name[7..] != "0"
    && env.base64(env.unbase64(text)) == text
    && !(name[7..] == "4" && |env.unbase64(text)| == 16)
  }

  // The type and the text of a tagged value that reading makes and writing gives back.
  predicate IsTagForm(env: Env, name: string, text: string) {
    if name == "objectId" then |text| == 24 && IsLowerHex(text)
    else if name == "decimal128" then IsDecimalForm(text)
    else if name == "date" then IsFarDateForm(env, text)
    else if name == "timestamp" then IsTimestampForm(text)
    else if name == "regex" then IsRegexForm(text)
    else if name == "uuid" then IsUuidForm(text)
    else if name == "javascript" || name == "symbol" then true
    else if name == "minKey" || name == "maxKey" then text == ""
    else IsBinaryForm(env, name, text)
  }

  /* ---------- Texts of tagged values have the form ---------- */

  lemma HexPairIsLower(b: Bytes.Byte)
    ensures IsLowerHex(HexPair(b))
  {
    HexDigitIsLower(b / 16);
    HexDigitIsLower(b % 16);
  }

  lemma HexDigitIsLower(n: nat)
    requires n < 16
    ensures '0' <= HexDigit(n) <= '9' || 'a' <= HexDigit(n) <= 'f'
  {
  }

  lemma {:induction false} HexIsLower(bytes: seq<Bytes.Byte>)
    ensures |Hex(bytes)| == 2 * |bytes| && IsLowerHex(Hex(bytes))
  {
    hide HexPair;
    HexBack(bytes);
    if bytes != [] {
      HexIsLower(bytes[1..]);
      HexPairIsLower(bytes[0]);
      HexPairBack(bytes[0]);
    }
  }

  lemma NumeralPrinted(n: nat, limit: nat)
    requires n < limit
    ensures IsNumeral(Digits(n), limit)
  {
    hide Digits;
    DigitsRead(n);
    if n == 0 {
      DigitsLength(0, 1);
    }
  }

  lemma TimestampHasForm(seconds: nat, increment: nat)
    requires seconds < TWO_32 && increment < TWO_32
    ensures IsTimestampForm(Digits(seconds) + ":" + Digits(increment))
  {
    hide Digits, ToNat;
    NumeralPrinted(seconds, TWO_32);
    NumeralPrinted(increment, TWO_32);
    DigitsPlain(seconds, ':');
    IndexFound(Digits(seconds), ':', Digits(increment));
    var text := Digits(seconds) + ":" + Digits(increment);
    assert text == Digits(seconds) + [':'] + Digits(increment);
    assert text[..|Digits(seconds)|] == Digits(seconds) && text[|Digits(seconds)| + 1..] == Digits(increment);
  }

  lemma RegexHasForm(pattern: string, flags: string)
    requires '\0' !in pattern && GoodFlags(flags)
    ensures IsRegexForm("/" + pattern + "/" + flags)
  {
    hide PastLast;
    var text := "/" + pattern + "/" + flags;
    assert text == ("/" + pattern) + ['/'] + flags;
    LastFound("/" + pattern, '/', flags);
    assert text[|pattern| + 2..] == flags && text[1..|pattern| + 1] == pattern;
  }

  lemma UuidHasForm(id: seq<Bytes.Byte>)
    requires |id| == 16
    ensures IsUuidForm(DashedHex(id))
  {
    hide Hex;
    HexIsLower(id[..4]);
    HexIsLower(id[4..6]);
    HexIsLower(id[6..8]);
    HexIsLower(id[8..10]);
    HexIsLower(id[10..]);
    var text := DashedHex(id);
    assert text[..8] == Hex(id[..4]) && text[9..13] == Hex(id[4..6]) && text[14..18] == Hex(id[6..8]);
    assert text[19..23] == Hex(id[8..10]) && text[24..] == Hex(id[10..]);
  }

  lemma BinaryHasForm(env: Env, subtype: Bytes.Byte, bytes: seq<Bytes.Byte>)
    requires Sound(env) && subtype != 0 && !(subtype == 4 && |bytes| == 16)
    ensures IsBinaryForm(env, "binary:" + Digits(subtype), env.base64(bytes))
  {
    hide Digits;
    NumeralPrinted(subtype, 256);
    DigitsRead(subtype);
    var name := "binary:" + Digits(subtype);
    assert name[..7] == "binary:" && name[7..] == Digits(subtype);
    OneDigit();
  }

  lemma OneDigit()
    ensures ToNat("0") == 0 && ToNat("4") == 4 && Digits(0) == "0" && Digits(4) == "4"
  {
    assert "0"[..0] == "" && "4"[..0] == "";
  }

  lemma BinaryName(subtype: Bytes.Byte)
    ensures var name := "binary:" + Digits(subtype);
            && name != "objectId" && name != "decimal128" && name != "date" && name != "timestamp" && name != "regex"
            && name != "uuid" && name != "javascript" && name != "symbol" && name != "minKey" && name != "maxKey"
  {
    assert ("binary:" + Digits(subtype))[6] == ':';
  }

  lemma {:induction false} TagsHaveForm(env: Env, k: Kind)
    requires Sound(env) && GoodKind(k)
    ensures IsTagForm(env, TagName(k), TagText(env, k))
  {
    hide Hex, DashedHex, Digits, Decimal128.ToText, Decimal128.FromText, IsTimestampForm, IsRegexForm, IsUuidForm, IsBinaryForm,
      Signed;
    match k
    case ObjectId(id) => HexIsLower(id);
    case Decimal(bits) => Decimal128.PatternsReturn(bits);
    case FarDate(millis) =>
    case Timestamp(seconds, increment) => TimestampHasForm(seconds, increment);
    case Regex(pattern, flags) => RegexHasForm(pattern, flags);
    case Uuid(id) => UuidHasForm(id);
    case OtherBinary(subtype, bytes) =>
      BinaryName(subtype);
      BinaryHasForm(env, subtype, bytes);
    case _ =>
  }

  /* ---------- Texts of the form are tagged values ---------- */

  lemma {:induction false} LowerHexIsHex(s: string)
    requires IsLowerHex(s) && |s| % 2 == 0
    ensures ReadHex(s).Some? && Hex(ReadHex(s).value) == s && 2 * |ReadHex(s).value| == |s|
  {
    hide HexPair, HexByte;
    if s != "" {
      LowerHexIsHex(s[2..]);
      LowerPairIsHex(s[0], s[1]);
      assert s == [s[0], s[1]] + s[2..];
    }
  }

  lemma LowerPairIsHex(high: char, low: char)
    requires IsLowerHex([high, low])
    ensures HexValue(high).Some? && HexValue(low).Some? && HexPair(HexByte(high, low)) == [high, low]
  {
    hide HexValue, HexDigit;
    assert [high, low][0] == high && [high, low][1] == low;
    LowerDigitIsHex(high);
    LowerDigitIsHex(low);
    var h, l := HexValue(high).value, HexValue(low).value;
    assert HexByte(high, low) == 16 * h + l;
    assert (16 * h + l) / 16 == h && (16 * h + l) % 16 == l;
  }

  lemma LowerDigitIsHex(c: char)
    requires '0' <= c <= '9' || 'a' <= c <= 'f'
    ensures HexValue(c).Some? && HexValue(c).value < 16 && HexDigit(HexValue(c).value) == c
  {
  }

  lemma {:induction false} UuidFromForm(text: string)
    requires IsUuidForm(text)
    ensures exists id :: |id| == 16 && DashedHex(id) == text
  {
    hide Hex, ReadHex, IsLowerHex;
    var a, b, c, d, e := text[..8], text[9..13], text[14..18], text[19..23], text[24..];
    LowerHexIsHex(a);
    LowerHexIsHex(b);
    LowerHexIsHex(c);
    LowerHexIsHex(d);
    LowerHexIsHex(e);
    var id := ReadHex(a).value + ReadHex(b).value + ReadHex(c).value + ReadHex(d).value + ReadHex(e).value;
    assert id[..4] == ReadHex(a).value && id[4..6] == ReadHex(b).value && id[6..8] == ReadHex(c).value;
    assert id[8..10] == ReadHex(d).value && id[10..] == ReadHex(e).value;
    assert DashedHex(id) == a + "-" + b + "-" + c + "-" + d + "-" + e;
    assert text == a + "-" + b + "-" + c + "-" + d + "-" + e;
  }

  lemma TimestampFromForm(text: string)
    requires IsTimestampForm(text)
    ensures exists a: nat, b: nat :: a < TWO_32 && b < TWO_32 && text == Digits(a) + ":" + Digits(b)
  {
    hide Digits, ToNat;
    var i := IndexOf(text, ':');
    ReadDigits(text[..i]);
    ReadDigits(text[i + 1..]);
    var a, b := ToNat(text[..i]), ToNat(text[i + 1..]);
    assert text == text[..i] + ":" + text[i + 1..];
    assert text == Digits(a) + ":" + Digits(b);
  }

  lemma RegexFromForm(text: string)
    requires IsRegexForm(text)
    ensures exists p, f :: '\0' !in p && GoodFlags(f) && text == "/" + p + "/" + f
  {
    hide PastLast, GoodFlags;
    var last := PastLast(text, '/');
    var p, f := text[1..last - 1], text[last..];
    assert text == "/" + p + "/" + f;
  }

  lemma BinaryFromForm(env: Env, name: string, text: string)
    requires IsBinaryForm(env, name, text)
    ensures exists subtype: Bytes.Byte, bytes ::
              subtype != 0 && !(subtype == 4 && |bytes| == 16)
              && name == "binary:" + Digits(subtype) && text == env.base64(bytes)
  {
    hide Digits, ToNat;
    var digits := name[7..];
    ReadDigits(digits);
    OneDigit();
    var subtype: Bytes.Byte := ToNat(digits);
    var bytes := env.unbase64(text);
    assert name == "binary:" + digits;
    assert name == "binary:" + Digits(subtype) && text == env.base64(bytes);
  }

  // The kind of a tagged value, from its two texts.
  lemma {:induction false} KindFromForm(env: Env, name: string, text: string) returns (k: Kind)
    requires IsTagForm(env, name, text)
    ensures GoodKind(k) && TagName(k) == name && TagText(env, k) == text
  {
    hide Hex, DashedHex, Digits, Decimal128.ToText, Decimal128.FromText, IsTimestampForm, IsRegexForm, IsUuidForm, IsBinaryForm,
      Signed, ReadHex, IsLowerHex, GoodFlags;
    if name == "objectId" {
      LowerHexIsHex(text);
      k := ObjectId(ReadHex(text).value);
    } else if name == "decimal128" {
      k := Decimal(Decimal128.FromText(text).value);
    } else if name == "date" {
      k := FarDate(env.bigInt(text).value);
    } else if name == "timestamp" {
      TimestampFromForm(text);
      var a: nat, b: nat :| a < TWO_32 && b < TWO_32 && text == Digits(a) + ":" + Digits(b);
      k := Timestamp(a, b);
    } else if name == "regex" {
      RegexFromForm(text);
      var p, f :| '\0' !in p && GoodFlags(f) && text == "/" + p + "/" + f;
      k := Regex(p, f);
    } else if name == "uuid" {
      UuidFromForm(text);
      var id :| |id| == 16 && DashedHex(id) == text;
      k := Uuid(id);
    } else if name == "javascript" {
      k := JavaScript(text);
    } else if name == "symbol" {
      k := Symbol(text);
    } else if name == "minKey" {
      k := MinKey;
    } else if name == "maxKey" {
      k := MaxKey;
    } else {
      BinaryFromForm(env, name, text);
      var subtype: Bytes.Byte, bytes :|
        subtype != 0 && !(subtype == 4 && |bytes| == 16) && name == "binary:" + Digits(subtype) && text == env.base64(bytes);
      k := OtherBinary(subtype, bytes);
    }
  }

  /** An object is a tagged value that reading makes exactly when its two texts have the form. */
  lemma {:induction false} TagFormIsGood(env: Env, name: string, text: string)
    requires Sound(env)
    ensures IsGoodTag(env, Pair(name, text)) <==> IsTagForm(env, name, text)
  {
    hide TagName, TagText, IsTagForm, Sound;
    if IsTagForm(env, name, text) {
      var k := KindFromForm(env, name, text);
      assert Pair(name, text) == Tag(env, k);
    }
    if IsGoodTag(env, Pair(name, text)) {
      var k :| GoodKind(k) && Pair(name, text) == Tag(env, k);
      TagsHaveForm(env, k);
      LookupPair(name, text);
      LookupPair(TagName(k), TagText(env, k));
    }
  }
}
