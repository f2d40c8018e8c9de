/**
 Decimal128 values (section 3.5.2 of IEEE 754-2008, decimal encoding in binary) and their text, after
 packages/db-protocol-mongo/src/bson.ts. A value is its 128 bits, taken as a number.
 */
module Decimal128 {
  import opened Bytes
  import opened Wrappers
  import opened Letters
  import opened Numerals

  const BIAS := 6176
  const MAX_BIASED := 12287
  const MAX_DIGITS: nat := 34
  const MAX_COEFFICIENT: nat := 9_999_999_999_999_999_999_999_999_999_999_999

  const TWO_111: nat := 0x8000_0000_0000_0000_0000_0000_0000
  const TWO_113: nat := 0x2_0000_0000_0000_0000_0000_0000_0000
  const TWO_122: nat := 0x400_0000_0000_0000_0000_0000_0000_0000
  const TWO_127: nat := 0x8000_0000_0000_0000_0000_0000_0000_0000
  const TWO_128: nat := 0x1_0000_0000_0000_0000_0000_0000_0000_0000

  const NAN: nat := 0x7c00_0000_0000_0000_0000_0000_0000_0000
  const INFINITY: nat := 0x7800_0000_0000_0000_0000_0000_0000_0000

  datatype DecimalError = NotANumber | TooManyDigits | ExponentOutOfRange

  /* ---------- Bits ---------- */

  function Combination(bits: nat): (r: nat)
    ensures r < 32
  {
    bits / TWO_122 % 32
  }

  function Negative(bits: nat): bool {
    bits / TWO_127 == 1
  }

  // The coefficient as read; one that is out of range counts as zero.
  function Coefficient(bits: nat): nat {
    if Combination(bits) / 8 == 3 || bits % TWO_113 > MAX_COEFFICIENT then 0 else bits % TWO_113
  }

  function Biased(bits: nat): nat {
    (if Combination(bits) / 8 == 3 then bits / TWO_111 else bits / TWO_113) % 16384
  }

  function Packed(negative: bool, biased: nat, coefficient: nat): nat {
    (if negative then TWO_127 else 0) + biased * TWO_113 + coefficient
  }

  /* ---------- To text ---------- */

  function Zeros(n: nat): string {
    if n == 0 then "" else Zeros(n - 1) + "0"
  }

  function ExponentText(adjusted: int): string {
    "E" + if adjusted >= 0 then "+" + Digits(adjusted) else "-" + Digits(-adjusted)
  }

  function Unsigned(coefficient: nat, exponent: int): string {
    var digits := Digits(coefficient);
    var adjusted := exponent + |digits| - 1;
    if exponent == 0 then digits
    else if exponent > 0 || adjusted < -6 then
      (if |digits| > 1 then [digits[0]] + "." + digits[1..] else digits) + ExponentText(adjusted)
    else if |digits| > -exponent then
      var point := |digits| + exponent;
      digits[..point] + "." + digits[point..]
    else "0." + Zeros(-exponent - |digits|) + digits
  }

  function ToText(bits: nat): string {
    var sign := if Negative(bits) then "-" else "";
    if Combination(bits) == 0x1f then "NaN"
    else if Combination(bits) == 0x1e then sign + "Infinity"
    else sign + Unsigned(Coefficient(bits), Biased(bits) - BIAS)
  }

  /* ---------- From text ---------- */

  function TrimStart(s: string): string {
    if |s| > 0 && IsSpace(s[0]) then TrimStart(s[1..]) else s
  }

  function TrimEnd(s: string): string {
    if |s| > 0 && IsSpace(s[|s| - 1]) then TrimEnd(s[..|s| - 1]) else s
  }

  function Trim(s: string): string {
    TrimEnd(TrimStart(s))
  }

  // How many digits a text begins with.
  function DigitRun(s: string): (n: nat)
    ensures n <= |s| && AllDigits(s[..n]) && (n < |s| ==> !IsDigit(s[n]))
  {
    if |s| > 0 && IsDigit(s[0]) then 1 + DigitRun(s[1..]) else 0
  }

  // The parts of a number: digits before the point, digits after it, and the exponent.
  datatype Number = Number(whole: string, fraction: string, exponent: int)

  function MatchExponent(s: string): Option<int> {
    if s == "" then Some(0)
    else if s[0] != 'e' && s[0] != 'E' then None
    else
      var signed := |s| > 1 && (s[1] == '+' || s[1] == '-');
      var digits := if signed then s[2..] else s[1..];
      if digits == "" || !AllDigits(digits) then None
      else Some(if signed && s[1] == '-' then -(ToNat(digits) as int) else ToNat(digits))
  }

  function MatchNumber(body: string): (r: Option<Number>)
    ensures r.Some? ==> AllDigits(r.value.whole + r.value.fraction)
  {
    var whole := body[..DigitRun(body)];
    var rest := body[|whole|..];
    var fraction := if rest != "" && rest[0] == '.' then rest[1..][..DigitRun(rest[1..])] else "";
    var tail := if rest != "" && rest[0] == '.' then rest[1 + |fraction|..] else rest;
    match MatchExponent(tail)
    case None => None
    case Some(exponent) => if whole == "" && fraction == "" then None else Some(Number(whole, fraction, exponent))
  }

  // Without leading zeros, but for one digit.
  function StripZeros(digits: string): string {
    if |digits| > 1 && digits[0] == '0' then StripZeros(digits[1..]) else digits
  }

  // How many trailing zeros go into the exponent.
  function Folds(digits: string): (k: nat)
    ensures k < |digits| || k == 0
  {
    if |digits| > MAX_DIGITS && digits[|digits| - 1] == '0' then 1 + Folds(digits[..|digits| - 1]) else 0
  }

  function IsNegative(text: string): bool {
    var trimmed := Trim(text);
    trimmed != "" && trimmed[0] == '-'
  }

  function Body(text: string): string {
    var trimmed := Trim(text);
    if trimmed != "" && (trimmed[0] == '-' || trimmed[0] == '+') then trimmed[1..] else trimmed
  }

  function Encode(negative: bool, n: Number): Result<nat, DecimalError>
    requires AllDigits(n.whole + n.fraction)
  {
    var digits := StripZeros(n.whole + n.fraction);
    var folds := Folds(digits);
    StripZerosValue(n.whole + n.fraction);
    var kept := digits[..|digits| - folds];
    var biased := n.exponent - |n.fraction| + folds + BIAS;
    if |kept| > MAX_DIGITS then Err(TooManyDigits)
    else if biased < 0 || biased > MAX_BIASED then Err(ExponentOutOfRange)
    else Ok(Packed(negative, biased, ToNat(kept)))
  }

  function FromText(text: string): Result<nat, DecimalError> {
    var negative := IsNegative(text);
    var body := Body(text);
    if Lower(body) == "nan" then Ok(NAN)
    else if Lower(body) == "inf" || Lower(body) == "infinity" then Ok((if negative then TWO_127 else 0) + INFINITY)
    else match MatchNumber(body)
      case None => Err(NotANumber)
      case Some(n) => Encode(negative, n)
  }

  lemma {:induction false} StripZerosValue(digits: string)
    requires AllDigits(digits)
    ensures AllDigits(StripZeros(digits)) && ToNat(StripZeros(digits)) == ToNat(digits)
    ensures |digits| > 0 ==> |StripZeros(digits)| > 0
    decreases |digits|
  {
    if |digits| > 1 && digits[0] == '0' {
      StripZerosValue(digits[1..]);
      assert digits == ['0'] + digits[1..];
      ToNatAppend(['0'], digits[1..]);
      assert ['0'][..0] == [];
      assert ToNat(['0']) == 0;
    }
  }

  /* ---------- The text of a number is read back ---------- */

  lemma {:induction false} DigitRunOf(a: string, b: string)
    requires AllDigits(a) && (b == "" || !IsDigit(b[0]))
    ensures DigitRun(a + b) == |a|
  {
    if a == "" {
      assert a + b == b;
    } else {
      assert (a + b)[1..] == a[1..] + b;
      DigitRunOf(a[1..], b);
    }
  }

  lemma {:induction false} ExponentRead(adjusted: int)
    ensures MatchExponent(ExponentText(adjusted)) == Some(adjusted)
  {
    DigitsRead(if adjusted >= 0 then adjusted else -adjusted);
    var s := ExponentText(adjusted);
    assert s[2..] == Digits(if adjusted >= 0 then adjusted else -adjusted);
  }

  // A number written with or without a point and an exponent.
  lemma {:induction false} NumberRead(whole: string, fraction: string, point: bool, tail: string, exponent: int)
    requires whole != "" && AllDigits(whole) && AllDigits(fraction) && (!point ==> fraction == "")
    requires MatchExponent(tail) == Some(exponent)
    ensures MatchNumber(whole + (if point then "." + fraction else "") + tail) == Some(Number(whole, fraction, exponent))
  {
    hide DigitRun, MatchExponent, AllDigits, IsDigit;
    var rest := (if point then "." + fraction else "") + tail;
    var body := whole + rest;
    assert body == whole + (if point then "." + fraction else "") + tail;
    ExponentBegins(tail);
    PointBegins();
    DigitRunOf(whole, rest);
    assert body[..|whole|] == whole && body[|whole|..] == rest;
    if point {
      assert rest[1..] == fraction + tail;
      DigitRunOf(fraction, tail);
      assert rest[1..][..|fraction|] == fraction && rest[1 + |fraction|..] == tail;
    } else {
      assert rest == tail;
    }
  }

  lemma ExponentBegins(tail: string)
    requires MatchExponent(tail).Some?
    ensures tail == "" || (!IsDigit(tail[0]) && tail[0] != '.')
  {
  }

  lemma PointBegins()
    ensures !IsDigit('.')
  {
  }

  lemma {:induction false} ZerosDigits(n: nat)
    ensures |Zeros(n)| == n && forall i :: 0 <= i < n ==> Zeros(n)[i] == '0'
  {
    if n > 0 {
      ZerosDigits(n - 1);
    }
  }

  lemma {:induction false} StripAllZeros(zeros: string, digits: string)
    requires digits != "" && forall i :: 0 <= i < |zeros| ==> zeros[i] == '0'
    ensures StripZeros(zeros + digits) == StripZeros(digits)
  {
    if zeros == "" {
      assert zeros + digits == digits;
    } else {
      assert (zeros + digits)[1..] == zeros[1..] + digits;
      StripAllZeros(zeros[1..], digits);
    }
  }

  // What `Unsigned` writes: the parts of the number it stands for.
  ghost predicate Writes(n: Number, coefficient: nat, exponent: int) {
    && n.whole != "" && AllDigits(n.whole + n.fraction)
    && n.exponent - |n.fraction| == exponent
    && StripZeros(n.whole + n.fraction) == Digits(coefficient)
  }

  lemma {:induction false} PlainRead(coefficient: nat)
    ensures var m := MatchNumber(Unsigned(coefficient, 0));
            m.Some? && Writes(m.value, coefficient, 0)
  {
    hide MatchNumber, MatchExponent;
    var digits := Digits(coefficient);
    DigitsRead(coefficient);
    NoExponent();
    NumberRead(digits, "", false, "", 0);
    assert digits + "" == digits;
    Stripped(coefficient);
  }

  lemma {:induction false} ScientificRead(coefficient: nat, exponent: int)
    requires exponent > 0 || exponent + |Digits(coefficient)| - 1 < -6
    ensures var m := MatchNumber(Unsigned(coefficient, exponent));
            m.Some? && Writes(m.value, coefficient, exponent)
  {
    hide MatchNumber, MatchExponent, Digits, StripZeros, ExponentText;
    var digits := Digits(coefficient);
    DigitsRead(coefficient);
    var adjusted := exponent + |digits| - 1;
    var point := |digits| > 1;
    ExponentRead(adjusted);
    NumberRead([digits[0]], digits[1..], point, ExponentText(adjusted), adjusted);
    assert [digits[0]] + digits[1..] == digits;
    var mantissa := [digits[0]] + (if point then "." + digits[1..] else "");
    assert mantissa == if point then [digits[0]] + "." + digits[1..] else digits;
    assert Unsigned(coefficient, exponent) == mantissa + ExponentText(adjusted);
    Stripped(coefficient);
  }

  lemma {:induction false} PointRead(coefficient: nat, exponent: int)
    requires exponent < 0 && |Digits(coefficient)| > -exponent
    ensures exponent + |Digits(coefficient)| - 1 >= -6
    ensures var m := MatchNumber(Unsigned(coefficient, exponent));
            m.Some? && Writes(m.value, coefficient, exponent)
  {
    hide MatchNumber, MatchExponent, Digits, StripZeros;
    var digits := Digits(coefficient);
    DigitsRead(coefficient);
    NoExponent();
    var point := |digits| + exponent;
    NumberRead(digits[..point], digits[point..], true, "", 0);
    assert digits[..point] + digits[point..] == digits;
    assert digits[..point] + ("." + digits[point..]) + "" == digits[..point] + "." + digits[point..];
    Stripped(coefficient);
  }

  lemma {:induction false} FractionRead(coefficient: nat, exponent: int)
    requires exponent < 0 && |Digits(coefficient)| <= -exponent && exponent + |Digits(coefficient)| - 1 >= -6
    ensures var m := MatchNumber(Unsigned(coefficient, exponent));
            m.Some? && Writes(m.value, coefficient, exponent)
  {
    hide MatchNumber, MatchExponent, Digits, StripZeros, Zeros;
    var digits := Digits(coefficient);
    DigitsRead(coefficient);
    NoExponent();
    var n := -exponent - |digits|;
    var zeros := Zeros(n);
    ZerosDigits(n);
    NumberRead("0", zeros + digits, true, "", 0);
    assert "0" + ("." + (zeros + digits)) + "" == "0." + zeros + digits;
    assert "0" + (zeros + digits) == ("0" + zeros) + digits;
    StripAllZeros("0" + zeros, digits);
    Stripped(coefficient);
  }

  lemma Stripped(coefficient: nat)
    ensures StripZeros(Digits(coefficient)) == Digits(coefficient)
  {
    DigitsRead(coefficient);
  }

  lemma {:induction false} UnsignedRead(coefficient: nat, exponent: int)
    ensures MatchNumber(Unsigned(coefficient, exponent)).Some?
    ensures Writes(MatchNumber(Unsigned(coefficient, exponent)).value, coefficient, exponent)
  {
    hide MatchNumber, Writes, Unsigned;
    var length := |Digits(coefficient)|;
    if exponent == 0 {
      PlainRead(coefficient);
    } else if exponent > 0 || exponent + length - 1 < -6 {
      ScientificRead(coefficient, exponent);
    } else if length > -exponent {
      PointRead(coefficient, exponent);
    } else {
      FractionRead(coefficient, exponent);
    }
  }

  lemma NoExponent()
    ensures MatchExponent("") == Some(0)
  {
  }

  /* ---------- Bits to text and back ---------- */

  // The bits of a value written in the one way the encoder writes it.
  function Canonical(bits: nat): nat {
    var sign := if Negative(bits) then TWO_127 else 0;
    if Combination(bits) == 0x1f then NAN
    else if Combination(bits) == 0x1e then sign + INFINITY
    else Packed(Negative(bits), Biased(bits), Coefficient(bits))
  }

  lemma {:induction false} BiasedInRange(bits: nat)
    requires bits < TWO_128 && Combination(bits) < 0x1e
    ensures Biased(bits) <= MAX_BIASED
  {
  }

  lemma {:induction false} PackedRead(negative: bool, biased: nat, coefficient: nat)
    requires biased <= MAX_BIASED && coefficient <= MAX_COEFFICIENT
    ensures var bits := Packed(negative, biased, coefficient);
            && bits < TWO_128 && Combination(bits) < 0x1e
            && Negative(bits) == negative && Biased(bits) == biased && Coefficient(bits) == coefficient
  {
  }

  lemma ThirtyFourDigits()
    ensures Pow10(MAX_DIGITS) == MAX_COEFFICIENT + 1
  {
    assert Pow10(8) == 100_000_000;
    assert Pow10(16) == 10_000_000_000_000_000;
    assert Pow10(24) == 1_000_000_000_000_000_000_000_000;
    assert Pow10(32) == 100_000_000_000_000_000_000_000_000_000_000;
  }

  lemma {:induction false} CoefficientDigits(coefficient: nat)
    ensures |Digits(coefficient)| <= MAX_DIGITS <==> coefficient <= MAX_COEFFICIENT
  {
    DigitsLength(coefficient, MAX_DIGITS);
    ThirtyFourDigits();
  }

  // A text that is a sign and a number without one.
  lemma {:induction false} SignRead(negative: bool, body: string)
    requires body != "" && !IsSpace(body[0]) && !IsSpace(body[|body| - 1]) && body[0] != '-' && body[0] != '+'
    ensures var text := (if negative then "-" else "") + body;
            Trim(text) == text && IsNegative(text) == negative && Body(text) == body
  {
    var text := (if negative then "-" else "") + body;
    assert TrimStart(text) == text;
    assert TrimEnd(text) == text;
    assert text[if negative then 1 else 0..] == body;
  }

  lemma {:induction false} UnsignedEnds(coefficient: nat, exponent: int)
    ensures var s := Unsigned(coefficient, exponent);
            s != "" && IsDigit(s[0]) && IsDigit(s[|s| - 1])
  {
    hide Digits;
    DigitsRead(coefficient);
    var adjusted := exponent + |Digits(coefficient)| - 1;
    DigitsRead(if adjusted >= 0 then adjusted else -adjusted);
  }

  lemma {:induction false} EncodeWritten(negative: bool, n: Number, coefficient: nat, biased: nat)
    requires Writes(n, coefficient, biased - BIAS) && biased <= MAX_BIASED && coefficient <= MAX_COEFFICIENT
    ensures Encode(negative, n) == Ok(Packed(negative, biased, coefficient))
  {
    hide Packed, Digits, StripZeros;
    CoefficientDigits(coefficient);
    DigitsRead(coefficient);
    var digits := StripZeros(n.whole + n.fraction);
    assert Folds(digits) == 0;
    assert digits[..|digits| - 0] == digits;
  }

  /**
   For every one of the 2^128 patterns, reading its text gives the canonical pattern of the same value,
   and that pattern has the same text.
   */
  lemma {:induction false} PatternsReturn(bits: nat)
    requires bits < TWO_128
    ensures FromText(ToText(bits)) == Ok(Canonical(bits))
    ensures Canonical(bits) < TWO_128 && ToText(Canonical(bits)) == ToText(bits)
  {
    hide Combination, Negative, Coefficient, Biased, Packed, Unsigned, MatchNumber, Encode, Writes, Trim;
    if Combination(bits) == 0x1f {
      NanReturns();
    } else if Combination(bits) == 0x1e {
      InfinityReturns(Negative(bits));
    } else {
      FiniteReturns(bits);
    }
  }

  lemma LowerInfinity()
    ensures Lower("Infinity") == "infinity" && Lower("NaN") == "nan"
  {
  }

  lemma {:induction false} NanReturns()
    ensures FromText("NaN") == Ok(NAN) && NAN < TWO_128 && ToText(NAN) == "NaN"
  {
    hide Trim, IsNegative, Body, MatchNumber, Encode, Unsigned, Lower;
    SignRead(false, "NaN");
    assert "" + "NaN" == "NaN";
    LowerInfinity();
  }

  lemma {:induction false} InfinityReturns(negative: bool)
    ensures var text := (if negative then "-" else "") + "Infinity";
            var bits := (if negative then TWO_127 else 0) + INFINITY;
            FromText(text) == Ok(bits) && bits < TWO_128 && ToText(bits) == text
  {
    hide Trim, IsNegative, Body, MatchNumber, Encode, Unsigned;
    SignRead(negative, "Infinity");
    LowerInfinity();
  }

  lemma {:induction false} FiniteReturns(bits: nat)
    requires bits < TWO_128 && Combination(bits) < 0x1e
    ensures FromText(ToText(bits)) == Ok(Canonical(bits))
    ensures Canonical(bits) < TWO_128 && ToText(Canonical(bits)) == ToText(bits)
  {
    hide Combination, Negative, Biased, Packed, Unsigned, MatchNumber, Encode, Writes, Trim, IsNegative, Body;
    var negative, biased, coefficient := Negative(bits), Biased(bits), Coefficient(bits);
    var body := Unsigned(coefficient, biased - BIAS);
    BiasedInRange(bits);
    UnsignedEnds(coefficient, biased - BIAS);
    SignRead(negative, body);
    UnsignedRead(coefficient, biased - BIAS);
    EncodeWritten(negative, MatchNumber(body).value, coefficient, biased);
    PackedRead(negative, biased, coefficient);
    assert IsDigit(Lower(body)[0]);
  }

  /** A finite pattern with a coefficient of at most 34 digits comes back bit for bit. */
  lemma {:induction false} CanonicalStays(bits: nat)
    requires bits < TWO_128 && Combination(bits) / 8 != 3 && bits % TWO_113 <= MAX_COEFFICIENT
    ensures FromText(ToText(bits)) == Ok(bits)
  {
    hide FromText, ToText;
    PatternsReturn(bits);
    assert Canonical(bits) == bits;
  }

  /* ---------- Values ---------- */

  // Two decimal numbers with the same value.
  predicate SameValue(c1: nat, e1: int, c2: nat, e2: int) {
    if e1 >= e2 then c1 * Pow10(e1 - e2) == c2 else c1 == c2 * Pow10(e2 - e1)
  }

  lemma TenTimes(c: nat, p: nat)
    ensures c * (10 * p) == 10 * (c * p)
  {
  }

  lemma {:induction false} FoldsKeepValue(digits: string)
    requires AllDigits(digits)
    ensures var k := Folds(digits);
            ToNat(digits[..|digits| - k]) * Pow10(k) == ToNat(digits)
  {
    var k := Folds(digits);
    if k == 0 {
      assert digits[..|digits| - 0] == digits;
    } else {
      var n := |digits| - 1;
      FoldsKeepValue(digits[..n]);
      assert digits[..n][..n - (k - 1)] == digits[..|digits| - k];
      TenTimes(ToNat(digits[..|digits| - k]), Pow10(k - 1));
    }
  }

  /** Whatever number is accepted, the pattern written has its sign and its value. */
  lemma {:induction false} ValueKept(negative: bool, n: Number)
    requires AllDigits(n.whole + n.fraction) && Encode(negative, n).Ok?
    ensures var bits := Encode(negative, n).value;
            && bits < TWO_128 && Combination(bits) < 0x1e && Negative(bits) == negative
            && SameValue(ToNat(n.whole + n.fraction), n.exponent - |n.fraction|, Coefficient(bits), Biased(bits) - BIAS)
  {
    hide Combination, Negative, Coefficient, Biased, Packed, StripZeros, ToNat, Folds, AllDigits;
    var digits := StripZeros(n.whole + n.fraction);
    StripZerosValue(n.whole + n.fraction);
    FoldsKeepValue(digits);
    var k := Folds(digits);
    var kept := digits[..|digits| - k];
    DigitsPrefix(digits, |kept|);
    AtMost(kept, MAX_DIGITS);
    PackedRead(negative, n.exponent - |n.fraction| + k + BIAS, ToNat(kept));
    assert Pow10(0) == 1;
  }

  lemma {:induction false} AtMost(digits: string, n: nat)
    requires AllDigits(digits) && |digits| <= n
    ensures ToNat(digits) < Pow10(n)
    ensures n == MAX_DIGITS ==> ToNat(digits) <= MAX_COEFFICIENT
  {
    if digits == "" {
      Pow10AtLeast(n);
    } else {
      AtMost(digits[..|digits| - 1], n - 1);
    }
    if n == MAX_DIGITS {
      ThirtyFourDigits();
    }
  }

  // A number that begins with another digit than 0 and does not end with 0.
  lemma {:induction false} Unfoldable(digits: string)
    requires |digits| > MAX_DIGITS && AllDigits(digits) && digits[0] != '0' && digits[|digits| - 1] != '0'
    ensures ToNat(digits) > MAX_COEFFICIENT && ToNat(digits) % 10 != 0
  {
    ReadDigits(digits);
    CoefficientDigits(ToNat(digits));
  }

  lemma {:induction false} StripZerosFirst(digits: string)
    requires |StripZeros(digits)| > 1
    ensures StripZeros(digits)[0] != '0'
    decreases |digits|
  {
    if |digits| > 1 && digits[0] == '0' {
      StripZerosFirst(digits[1..]);
    }
  }

  lemma {:induction false} FoldsStop(digits: string)
    ensures var kept := digits[..|digits| - Folds(digits)];
            |kept| > MAX_DIGITS ==> kept[|kept| - 1] != '0'
  {
    var n := |digits| - 1;
    if |digits| > MAX_DIGITS && digits[n] == '0' {
      FoldsStop(digits[..n]);
      assert digits[..n][..n - Folds(digits[..n])] == digits[..|digits| - Folds(digits)];
    }
  }

  lemma {:induction false} Pow10Sum(a: nat, b: nat)
    ensures Pow10(a + b) == Pow10(a) * Pow10(b)
  {
    if a > 0 {
      Pow10Sum(a - 1, b);
      assert 10 * (Pow10(a - 1) * Pow10(b)) == (10 * Pow10(a - 1)) * Pow10(b);
    }
  }

  lemma {:induction false} AtLeastItself(c: nat, n: nat)
    ensures c * Pow10(n) >= c
    ensures n > 0 ==> c * Pow10(n) % 10 == 0
  {
    Pow10AtLeast(n);
    if n > 0 {
      TenTimes(c, Pow10(n - 1));
    }
  }

  lemma Cancel(a: nat, b: nat, p: nat)
    requires p > 0 && a * p == b * p
    ensures a == b
  {
  }

  // A number with more than 34 digits that cannot be folded is no other number's multiple of ten, and
  // too large for a coefficient.
  lemma {:induction false} NoOtherForm(kept: nat, k: nat, e1: int, c: nat, e2: int)
    requires kept > MAX_COEFFICIENT && kept % 10 != 0 && c <= MAX_COEFFICIENT
    ensures !SameValue(kept * Pow10(k), e1, c, e2)
  {
    if SameValue(kept * Pow10(k), e1, c, e2) {
      if e1 >= e2 {
        AtLeastItself(kept, k);
        AtLeastItself(kept * Pow10(k), e1 - e2);
      } else {
        var m := e2 - e1;
        if m <= k {
          Pow10Sum(k - m, m);
          Regroup(kept, Pow10(k - m), Pow10(m));
          Pow10AtLeast(m);
          Cancel(kept * Pow10(k - m), c, Pow10(m));
          AtLeastItself(kept, k - m);
        } else {
          Pow10Sum(m - k, k);
          Regroup(c, Pow10(m - k), Pow10(k));
          Pow10AtLeast(k);
          Cancel(kept, c * Pow10(m - k), Pow10(k));
          AtLeastItself(c, m - k);
        }
      }
    }
  }

  lemma Regroup(a: nat, p: nat, q: nat)
    ensures a * (p * q) == a * p * q
  {
  }

  /**
   A number that some coefficient of 34 digits can stand for is refused only when the exponent it is
   written with, after folding, is out of range.
   */
  lemma {:induction false} OnlyTheExponentRefuses(negative: bool, n: Number, c: nat, e: int)
    requires AllDigits(n.whole + n.fraction) && n.whole + n.fraction != ""
    requires c <= MAX_COEFFICIENT && SameValue(ToNat(n.whole + n.fraction), n.exponent - |n.fraction|, c, e)
    ensures var folded := n.exponent - |n.fraction| + Folds(StripZeros(n.whole + n.fraction));
            Encode(negative, n).Ok? <==> 0 <= folded + BIAS <= MAX_BIASED
  {
    hide Packed, StripZeros, ToNat, Folds, SameValue, AllDigits;
    var digits := StripZeros(n.whole + n.fraction);
    StripZerosValue(n.whole + n.fraction);
    var kept := digits[..|digits| - Folds(digits)];
    if |kept| > MAX_DIGITS {
      FoldsKeepValue(digits);
      FoldsStop(digits);
      StripZerosFirst(n.whole + n.fraction);
      DigitsPrefix(digits, |kept|);
      Unfoldable(kept);
      NoOtherForm(ToNat(kept), Folds(digits), n.exponent - |n.fraction|, c, e);
      assert false;
    }
  }

  lemma DigitsOf6112()
    ensures Digits(6112) == "6112"
  {
    assert Digits(6) == "6" && Digits(61) == "6" + "1" && Digits(611) == "61" + "1";
    assert Digits(6112) == "611" + "2";
  }

  lemma {:induction false} LargeExponentRead()
    ensures MatchNumber("1E+6112") == Some(Number("1", "", 6112))
  {
    hide Digits, MatchNumber, MatchExponent;
    DigitsOf6112();
    ExponentRead(6112);
    assert ExponentText(6112) == "E" + ("+" + "6112") == "E+6112";
    NumberRead("1", "", false, "E+6112", 6112);
    assert "1" + "" + "E+6112" == "1E+6112";
  }

  /**
   A number that Decimal128 can hold is refused when the exponent it is written with is out of range:
   1E+6112 is 10E+6111.
   */
  lemma {:induction false} RepresentableRefused()
    ensures FromText("1E+6112") == Err(ExponentOutOfRange)
    ensures SameValue(1, 6112, 10, MAX_BIASED - BIAS)
  {
    hide MatchNumber, Trim, IsNegative, Body, ToNat;
    SignRead(false, "1E+6112");
    assert "" + "1E+6112" == "1E+6112";
    assert Lower("1E+6112")[0] == '1';
    LargeExponentRead();
    assert "1" + "" == "1" && Folds("1") == 0;
    assert Pow10(1) == 10 * Pow10(0);
  }

  /* ---------- The loops over bytes ---------- */

  lemma NothingRead()
    ensures FromLittleEndian([]) == 0
  {
  }

  lemma FirstByteRead(bytes: seq<Byte>, i: nat)
    requires i < |bytes|
    ensures FromLittleEndian(bytes[i..]) == bytes[i] + 256 * FromLittleEndian(bytes[i + 1..])
  {
    assert bytes[i..][1..] == bytes[i + 1..];
  }

  method ReadBits(bytes: array<Byte>) returns (value: nat)
    requires bytes.Length == 16
    ensures value == FromLittleEndian(bytes[..])
  {
    hide FromLittleEndian;
    ghost var all := bytes[..];
    NothingRead();
    assert all[16..] == [];
    value := 0;
    var i := 16;
    while i > 0
      invariant 0 <= i <= 16
      invariant value == FromLittleEndian(all[i..])
    {
      i := i - 1;
      FirstByteRead(all, i);
      assert bytes[i] == all[i];
      value := 256 * value + bytes[i];
    }
    assert all[0..] == all;
  }

  /** The text of sixteen bytes, the lowest first. */
  method BytesToText(bytes: array<Byte>) returns (text: string)
    requires bytes.Length == 16
    ensures text == ToText(FromLittleEndian(bytes[..]))
  {
    hide ToText, FromLittleEndian;
    var bits := ReadBits(bytes);
    text := ToText(bits);
  }

  function Shifted(n: nat, i: nat): nat {
    if i == 0 then n else Shifted(n / 256, i - 1)
  }

  lemma {:induction false} OneByteMore(n: nat, i: nat)
    ensures Shifted(n, i + 1) == Shifted(n, i) / 256
    ensures LittleEndian(n, i + 1) == LittleEndian(n, i) + [Shifted(n, i) % 256]
  {
    if i > 0 {
      OneByteMore(n / 256, i - 1);
    } else {
      assert LittleEndian(n, 1) == [n % 256] + LittleEndian(n / 256, 0);
    }
  }

  method WriteBits(bits: nat) returns (out: array<Byte>)
    ensures fresh(out) && out[..] == LittleEndian(bits, 16)
  {
    out := new Byte[16];
    var rest := bits;
    for i := 0 to 16
      invariant out[..i] == LittleEndian(bits, i) && rest == Shifted(bits, i)
    {
      OneByteMore(bits, i);
      out[i] := rest % 256;
      rest := rest / 256;
    }
    assert out[..16] == out[..];
  }

  // Trailing zeros beyond 34 digits go into the exponent.
  method FoldZeros(digits: string, exponent: int) returns (kept: string, folded: int)
    ensures kept == digits[..|digits| - Folds(digits)] && folded == exponent + Folds(digits)
  {
    kept, folded := digits, exponent;
    ghost var done := 0;
    while |kept| > MAX_DIGITS && kept[|kept| - 1] == '0'
      invariant folded == exponent + done && done <= |digits| && kept == digits[..|digits| - done]
      invariant Folds(digits) == done + Folds(kept)
    {
      kept, folded, done := kept[..|kept| - 1], folded + 1, done + 1;
    }
  }

  /** Sixteen bytes for a text, the lowest first, or why it has none. */
  method TextToBytes(text: string) returns (r: Result<array<Byte>, DecimalError>)
    ensures FromText(text).Err? ==> r == Err(FromText(text).error)
    ensures FromText(text).Ok? ==> r.Ok? && r.value[..] == LittleEndian(FromText(text).value, 16)
  {
    hide ToNat, Packed, MatchNumber, StripZeros, Lower, LittleEndian, IsNegative, Body, Folds, AllDigits;
    var negative := IsNegative(text);
    var sign := if negative then TWO_127 else 0;
    var body := Body(text);
    var out: array<Byte>;
    if Lower(body) == "nan" {
      out := WriteBits(NAN);
      return Ok(out);
    }
    if Lower(body) == "inf" || Lower(body) == "infinity" {
      out := WriteBits(sign + INFINITY);
      return Ok(out);
    }
    var number := MatchNumber(body);
    if number == None {
      return Err(NotANumber);
    }
    var n := number.value;
    StripZerosValue(n.whole + n.fraction);
    var digits, exponent := FoldZeros(StripZeros(n.whole + n.fraction), n.exponent - |n.fraction|);
    if |digits| > MAX_DIGITS {
      return Err(TooManyDigits);
    }
    var biased := exponent + BIAS;
    if biased < 0 || biased > MAX_BIASED {
      return Err(ExponentOutOfRange);
    }
    DigitsPrefix(StripZeros(n.whole + n.fraction), |digits|);
    out := WriteBits(Packed(negative, biased, ToNat(digits)));
    return Ok(out);
  }

  lemma DigitsPrefix(digits: string, n: nat)
    requires AllDigits(digits) && n <= |digits|
    ensures AllDigits(digits[..n])
  {
  }
}
