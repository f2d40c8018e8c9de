/**
 Which texts are decimal numbers, as the parts they are put together from, and what becomes of each; and the
 form of the texts that are written.
 */
module DecimalGrammar {
  import opened Wrappers
  import opened Letters
  import opened Numerals
  import opened Decimal128

  // Blanks, a sign, digits with a point among them, an exponent with its sign, and blanks.
  datatype Spelling = Spelling(
    before: string, sign: string, whole: string, point: bool, fraction: string,
    e: string, exponentSign: string, exponent: string, after: string)

  predicate Blank(s: string) {
    forall i :: 0 <= i < |s| ==> IsSpace(s[i])
  }

  predicate IsSign(s: string) {
    s == "" || s == "+" || s == "-"
  }

  predicate Fits(s: Spelling) {
    && Blank(s.before) && Blank(s.after) && IsSign(s.sign)
    && AllDigits(s.whole) && AllDigits(s.fraction) && s.whole + s.fraction != "" && (!s.point ==> s.fraction == "")
    && (if s.e == "" then s.exponentSign == "" && s.exponent == ""
        else (s.e == "e" || s.e == "E") && IsSign(s.exponentSign) && s.exponent != "" && AllDigits(s.exponent))
  }

  function ExponentPart(s: Spelling): string {
    s.e + (s.exponentSign + s.exponent)
  }

  function Core(s: Spelling): string {
    s.whole + ((if s.point then "." + s.fraction else "") + ExponentPart(s))
  }

  function TextOf(s: Spelling): string {
    s.before + (s.sign + Core(s)) + s.after
  }

  function ExponentOf(s: Spelling): int
    requires Fits(s)
  {
    if s.exponentSign == "-" then -(ToNat(s.exponent) as int) else ToNat(s.exponent)
  }

  function NumberOf(s: Spelling): (n: Number)
    requires Fits(s)
    ensures AllDigits(n.whole + n.fraction)
  {
    Number(s.whole, s.fraction, ExponentOf(s))
  }

  // A word in letters of either case.
  predicate IsWord(s: string, lower: string, upper: string)
    requires |lower| == |upper|
  {
    |s| == |lower| && forall i :: 0 <= i < |s| ==> s[i] == lower[i] || s[i] == upper[i]
  }

  predicate IsNan(s: string) {
    IsWord(s, "nan", "NAN")
  }

  predicate IsInfinity(s: string) {
    IsWord(s, "inf", "INF") || IsWord(s, "infinity", "INFINITY")
  }

  /* ---------- Blanks ---------- */

  predicate Bare(s: string) {
    s == "" || (!IsSpace(s[0]) && !IsSpace(s[|s| - 1]))
  }

  lemma {:induction false} TrimFront(before: string, rest: string)
    requires Blank(before)
    ensures TrimStart(before + rest) == TrimStart(rest)
  {
    if before != "" {
      assert (before + rest)[1..] == before[1..] + rest;
      TrimFront(before[1..], rest);
    } else {
      assert before + rest == rest;
    }
  }

  lemma {:induction false} TrimBehind(core: string, after: string)
    requires Blank(after) && (core == "" || !IsSpace(core[|core| - 1]))
    ensures TrimEnd(core + after) == core
  {
    if after != "" {
      var n := |after| - 1;
      assert (core + after)[..|core + after| - 1] == core + after[..n];
      TrimBehind(core, after[..n]);
    } else {
      assert core + after == core;
    }
  }

  lemma {:induction false} Trimmed(before: string, core: string, after: string)
    requires Blank(before) && Blank(after) && core != "" && Bare(core)
    ensures Trim(before + core + after) == core
  {
    assert before + core + after == before + (core + after);
    TrimFront(before, core + after);
    TrimBehind(core, after);
    assert TrimStart(core + after) == core + after;
  }

  lemma {:induction false} StartCut(s: string) returns (before: string)
    ensures Blank(before) && s == before + TrimStart(s) && (TrimStart(s) == "" || !IsSpace(TrimStart(s)[0]))
  {
    if |s| > 0 && IsSpace(s[0]) {
      var more := StartCut(s[1..]);
      before := [s[0]] + more;
      assert s == [s[0]] + s[1..];
    } else {
      before := "";
    }
  }

  lemma {:induction false} EndCut(s: string) returns (after: string)
    ensures Blank(after) && s == TrimEnd(s) + after && (TrimEnd(s) == "" || !IsSpace(TrimEnd(s)[|TrimEnd(s)| - 1]))
  {
    if |s| > 0 && IsSpace(s[|s| - 1]) {
      var n := |s| - 1;
      var more := EndCut(s[..n]);
      after := more + [s[n]];
      assert s == s[..n] + [s[n]];
    } else {
      after := "";
    }
  }

  lemma {:induction false} TrimCuts(s: string) returns (before: string, after: string)
    ensures Blank(before) && Blank(after) && s == before + Trim(s) + after
  {
    before := StartCut(s);
    after := EndCut(TrimStart(s));
  }

  /* ---------- Words ---------- */

  lemma LowerWord(s: string, lower: string, upper: string)
    requires |lower| == |upper| && forall i :: 0 <= i < |lower| ==> 'a' <= lower[i] <= 'z' && upper[i] == lower[i] - 'a' + 'A'
    ensures Lower(s) == lower <==> IsWord(s, lower, upper)
  {
    if Lower(s) == lower {
      forall i | 0 <= i < |s| ensures s[i] == lower[i] || s[i] == upper[i] {
        assert Lower(s)[i] == LowerChar(s[i]);
      }
    }
    if IsWord(s, lower, upper) {
      forall i | 0 <= i < |s| ensures Lower(s)[i] == lower[i] {
        assert Lower(s)[i] == LowerChar(s[i]);
      }
    }
  }

  lemma WordsAre(s: string)
    ensures Lower(s) == "nan" <==> IsNan(s)
    ensures Lower(s) == "inf" || Lower(s) == "infinity" <==> IsInfinity(s)
  {
    LowerWord(s, "nan", "NAN");
    LowerWord(s, "inf", "INF");
    LowerWord(s, "infinity", "INFINITY");
  }

  /* ---------- Numbers that fit are read ---------- */

  lemma ExponentPartRead(s: Spelling)
    requires Fits(s)
    ensures MatchExponent(ExponentPart(s)) == Some(ExponentOf(s))
  {
    hide ToNat;
    var tail := ExponentPart(s);
    if s.e != "" {
      assert tail[0] == s.e[0];
      if s.exponentSign == "" {
        assert tail[1..] == s.exponent && tail[1] == s.exponent[0];
      } else {
        assert tail[1] == s.exponentSign[0] && tail[2..] == s.exponent;
      }
    } else {
      assert tail == "" && s.exponent == "";
      NothingCounted();
    }
  }

  lemma NothingCounted()
    ensures ToNat("") == 0
  {
  }

  lemma CoreRead(s: Spelling)
    requires Fits(s)
    ensures MatchNumber(Core(s)) == Some(NumberOf(s))
  {
    hide DigitRun, MatchExponent, AllDigits, IsDigit, ExponentPart;
    var tail := ExponentPart(s);
    ExponentPartRead(s);
    ExponentBegins(tail);
    PointBegins();
    var rest := (if s.point then "." + s.fraction else "") + tail;
    var body := Core(s);
    assert body == s.whole + rest;
    if s.point {
      assert rest[0] == '.' && rest[1..] == s.fraction + tail;
      DigitRunOf(s.fraction, tail);
      assert rest[1..][..|s.fraction|] == s.fraction && rest[1 + |s.fraction|..] == tail;
    } else {
      assert rest == tail;
    }
    DigitRunOf(s.whole, rest);
    assert body[..|s.whole|] == s.whole && body[|s.whole|..] == rest;
  }

  lemma SpaceIsNoDigit(c: char)
    ensures IsDigit(c) || c == '.' || c == 'e' || c == 'E' || c == '+' || c == '-' ==> !IsSpace(c)
    ensures IsDigit(c) || c == '.' ==> c != '+' && c != '-'
  {
  }

  lemma CoreEnds(s: Spelling)
    requires Fits(s)
    ensures var core := Core(s);
            core != "" && (IsDigit(core[0]) || core[0] == '.') && (IsDigit(core[|core| - 1]) || core[|core| - 1] == '.')
  {
    var core := Core(s);
    if s.whole != "" {
      assert core[0] == s.whole[0];
    } else {
      assert core[0] == '.';
    }
    var n := |core| - 1;
    if s.e != "" {
      assert core[n] == s.exponent[|s.exponent| - 1];
    } else if s.fraction != "" {
      assert core == s.whole + ("." + s.fraction);
      assert core[n] == s.fraction[|s.fraction| - 1];
    } else if s.point {
      assert core == s.whole + ".";
    } else {
      assert core == s.whole;
    }
  }

  lemma {:induction false} SignedRead(before: string, sign: string, core: string, after: string)
    requires Blank(before) && Blank(after) && IsSign(sign) && core != "" && Bare(core) && core[0] != '+' && core[0] != '-'
    ensures var text := before + (sign + core) + after;
            IsNegative(text) == (sign == "-") && Body(text) == core
  {
    hide Trim;
    var signed := sign + core;
    SpaceIsNoDigit('+');
    SpaceIsNoDigit('-');
    Trimmed(before, signed, after);
    if sign == "" {
      assert signed == core;
    } else {
      assert signed[0] == sign[0] && signed[1..] == core;
    }
  }

  lemma NumberIsNoWord(core: string)
    requires core != "" && (IsDigit(core[0]) || core[0] == '.')
    ensures Lower(core) != "nan" && Lower(core) != "inf" && Lower(core) != "infinity"
  {
    assert Lower(core)[0] == core[0];
  }

  lemma NumberTextRead(s: Spelling)
    requires Fits(s)
    ensures FromText(TextOf(s)) == Decimal128.Encode(s.sign == "-", NumberOf(s))
  {
    hide Fits, MatchNumber, Decimal128.Encode, IsNegative, Body, Core, Lower, NumberOf;
    CoreRead(s);
    CoreEnds(s);
    var core := Core(s);
    SpaceIsNoDigit(core[0]);
    SpaceIsNoDigit(core[|core| - 1]);
    NumberIsNoWord(core);
    FitsAround(s);
    SignedRead(s.before, s.sign, core, s.after);
  }

  lemma FitsAround(s: Spelling)
    requires Fits(s)
    ensures Blank(s.before) && Blank(s.after) && IsSign(s.sign)
  {
  }

  // What a word is read as.
  predicate IsWordText(text: string, before: string, sign: string, word: string, after: string) {
    Blank(before) && Blank(after) && IsSign(sign) && text == before + (sign + word) + after
  }

  lemma WordRead(text: string, before: string, sign: string, word: string, after: string)
    requires IsWordText(text, before, sign, word, after) && (IsNan(word) || IsInfinity(word))
    ensures FromText(text) == if IsNan(word) then Ok(0x7c00_0000_0000_0000_0000_0000_0000_0000)
                              else Ok((if sign == "-" then 0x8000_0000_0000_0000_0000_0000_0000_0000 else 0)
                                      + 0x7800_0000_0000_0000_0000_0000_0000_0000)
  {
    hide IsNegative, Body, Lower, MatchNumber, Decimal128.Encode;
    WordsAre(word);
    WordEnds(word);
    SignedRead(before, sign, word, after);
  }

  lemma WordEnds(word: string)
    requires IsNan(word) || IsInfinity(word)
    ensures word != "" && Bare(word) && word[0] != '+' && word[0] != '-'
  {
  }

  /* ---------- What is read fits ---------- */

  lemma ExponentCut(tail: string) returns (e: string, sign: string, digits: string)
    requires MatchExponent(tail).Some?
    ensures tail == e + (sign + digits)
    ensures if e == "" then sign == "" && digits == ""
            else (e == "e" || e == "E") && IsSign(sign) && digits != "" && AllDigits(digits)
    ensures AllDigits(digits) && MatchExponent(tail).value == if sign == "-" then -(ToNat(digits) as int) else ToNat(digits)
  {
    hide ToNat;
    NothingCounted();
    if tail == "" {
      e, sign, digits := "", "", "";
    } else if |tail| > 1 && (tail[1] == '+' || tail[1] == '-') {
      e, sign, digits := [tail[0]], [tail[1]], tail[2..];
    } else {
      e, sign, digits := [tail[0]], "", tail[1..];
    }
  }

  // The digits, the point among them, and what is behind.
  lemma NumberCut(body: string) returns (whole: string, point: bool, fraction: string, tail: string)
    requires MatchNumber(body).Some?
    ensures body == whole + ((if point then "." + fraction else "") + tail) && (!point ==> fraction == "")
    ensures AllDigits(whole) && AllDigits(fraction) && whole + fraction != "" && MatchExponent(tail).Some?
    ensures MatchNumber(body).value == Number(whole, fraction, MatchExponent(tail).value)
  {
    hide MatchExponent, DigitRun;
    whole := body[..DigitRun(body)];
    var rest := body[|whole|..];
    point := rest != "" && rest[0] == '.';
    fraction := if point then rest[1..][..DigitRun(rest[1..])] else "";
    tail := if point then rest[1 + |fraction|..] else rest;
    assert rest == (if point then "." + fraction else "") + tail;
    assert body == whole + rest;
  }

  lemma CoreCut(body: string) returns (s: Spelling)
    requires MatchNumber(body).Some?
    ensures Fits(s) && s.before == "" && s.sign == "" && s.after == "" && Core(s) == body && NumberOf(s) == MatchNumber(body).value
  {
    hide MatchExponent, MatchNumber, ToNat, DigitRun, AllDigits;
    var whole, point, fraction, tail := NumberCut(body);
    var e, sign, digits := ExponentCut(tail);
    s := Spelling("", "", whole, point, fraction, e, sign, digits, "");
    assert ExponentPart(s) == tail;
  }

  lemma SignCut(text: string) returns (before: string, sign: string, after: string)
    ensures Blank(before) && Blank(after) && IsSign(sign) && (IsNegative(text) <==> sign == "-")
    ensures text == before + (sign + Body(text)) + after
  {
    hide Trim;
    before, after := TrimCuts(text);
    var trimmed := Trim(text);
    sign := if trimmed != "" && (trimmed[0] == '-' || trimmed[0] == '+') then [trimmed[0]] else "";
    assert trimmed == sign + Body(text);
  }

  /* ---------- Both directions ---------- */

  // A text and what it is read as: a number, packed or refused, or one of the words.
  ghost predicate Spells(text: string, r: Result<nat, DecimalError>) {
    || (exists s :: Fits(s) && text == TextOf(s) && r == Decimal128.Encode(s.sign == "-", NumberOf(s)))
    || (exists before, sign, word, after :: IsWordText(text, before, sign, word, after) && IsNan(word)
                                         && r == Ok(0x7c00_0000_0000_0000_0000_0000_0000_0000))
    || (exists before, sign, word, after ::
          && IsWordText(text, before, sign, word, after) && IsInfinity(word)
          && r == Ok((if sign == "-" then 0x8000_0000_0000_0000_0000_0000_0000_0000 else 0)
                     + 0x7800_0000_0000_0000_0000_0000_0000_0000))
  }

  lemma SpelledIsRead(text: string, r: Result<nat, DecimalError>)
    requires Spells(text, r)
    ensures FromText(text) == r
  {
    hide Fits, TextOf, NumberOf, FromText, Decimal128.Encode, IsWordText, IsNan, IsInfinity;
    if s :| Fits(s) && text == TextOf(s) && r == Decimal128.Encode(s.sign == "-", NumberOf(s)) {
      NumberTextRead(s);
    } else if before, sign, word, after :| IsWordText(text, before, sign, word, after) && IsNan(word)
                                           && r == Ok(0x7c00_0000_0000_0000_0000_0000_0000_0000) {
      WordRead(text, before, sign, word, after);
    } else {
      var before, sign, word, after :|
        && IsWordText(text, before, sign, word, after) && IsInfinity(word)
        && r == Ok((if sign == "-" then 0x8000_0000_0000_0000_0000_0000_0000_0000 else 0)
                   + 0x7800_0000_0000_0000_0000_0000_0000_0000);
      NanIsNotInfinity(word);
      WordRead(text, before, sign, word, after);
    }
  }

  lemma NanIsNotInfinity(word: string)
    ensures !(IsNan(word) && IsInfinity(word))
  {
    assert |word| == 3 && word[0] == 'i' ==> !IsNan(word);
  }

  lemma {:induction false} ReadIsSpelled(text: string)
    ensures FromText(text) != Err(NotANumber) ==> Spells(text, FromText(text))
  {
    hide IsNegative, Body, Lower, MatchNumber, Decimal128.Encode, Core, NumberOf, Spells;
    var before, sign, after := SignCut(text);
    var body := Body(text);
    WordsAre(body);
    if IsNan(body) || IsInfinity(body) {
      NanIsNotInfinity(body);
      WordSpells(text, before, sign, body, after);
    } else if MatchNumber(body).Some? {
      var core := CoreCut(body);
      var s := core.(before := before, sign := sign, after := after);
      AroundFits(core, s);
      assert text == TextOf(s);
      NumberSpells(s);
    }
  }

  lemma WordSpells(text: string, before: string, sign: string, word: string, after: string)
    requires IsWordText(text, before, sign, word, after)
    ensures IsNan(word) ==> Spells(text, Ok(0x7c00_0000_0000_0000_0000_0000_0000_0000))
    ensures IsInfinity(word) ==>
              Spells(text, Ok((if sign == "-" then 0x8000_0000_0000_0000_0000_0000_0000_0000 else 0)
                              + 0x7800_0000_0000_0000_0000_0000_0000_0000))
  {
    hide IsWordText, IsNan, IsInfinity;
  }

  lemma NumberSpells(s: Spelling)
    requires Fits(s)
    ensures Spells(TextOf(s), Decimal128.Encode(s.sign == "-", NumberOf(s)))
  {
    hide Fits, TextOf, NumberOf, Decimal128.Encode;
  }

  lemma AroundFits(core: Spelling, s: Spelling)
    requires Fits(core) && s == core.(before := s.before, sign := s.sign, after := s.after)
    requires Blank(s.before) && Blank(s.after) && IsSign(s.sign)
    ensures Fits(s) && NumberOf(s) == NumberOf(core) && Core(s) == Core(core)
  {
    hide ToNat;
  }

  /** A text is read as a number, or refused for its size, exactly when it is spelled like one, and as no other. */
  lemma {:induction false} ReadingIsExact(text: string, r: Result<nat, DecimalError>)
    requires r != Err(NotANumber)
    ensures FromText(text) == r <==> Spells(text, r)
  {
    hide FromText, Spells;
    ReadIsSpelled(text);
    if Spells(text, r) {
      SpelledIsRead(text, r);
    }
  }

  /* ---------- The bits of a pattern ---------- */

  // The sign bit.
  function SignBit(negative: bool): nat {
    if negative then 0x8000_0000_0000_0000_0000_0000_0000_0000 else 0
  }

  /**
   A coefficient of 113 bits and an exponent of 14 bits in front of it, whose two highest are not both set
   (section 3.5.2 of IEEE 754-2008); a coefficient of more than 34 digits counts as zero.
   */
  lemma {:induction false} SmallLayout(negative: bool, exponent: nat, low: nat)
    requires exponent < 0x3000 && low < 0x2_0000_0000_0000_0000_0000_0000_0000
    ensures var bits := SignBit(negative) + exponent * 0x2_0000_0000_0000_0000_0000_0000_0000 + low;
            && Negative(bits) == negative && Biased(bits) == exponent && Combination(bits) < 0x1e
            && Coefficient(bits) == if low < 10_000_000_000_000_000_000_000_000_000_000_000 then low else 0
  {
  }

  /** The form for larger coefficients: two set bits, the exponent, and 111 bits that are not looked at. */
  lemma {:induction false} LargeLayout(negative: bool, exponent: nat, low: nat)
    requires exponent < 0x3000 && low < 0x8000_0000_0000_0000_0000_0000_0000
    ensures var bits := SignBit(negative) + 0x6000_0000_0000_0000_0000_0000_0000_0000
                        + exponent * 0x8000_0000_0000_0000_0000_0000_0000 + low;
            Negative(bits) == negative && Biased(bits) == exponent && Combination(bits) < 0x1e && Coefficient(bits) == 0
  {
  }

  /** Infinities and NaN, whatever their other bits. */
  lemma {:induction false} WordLayout(negative: bool, low: nat)
    requires low < 0x400_0000_0000_0000_0000_0000_0000_0000
    ensures ToText(SignBit(negative) + 0x7800_0000_0000_0000_0000_0000_0000_0000 + low) == if negative then "-Infinity" else "Infinity"
    ensures ToText(SignBit(negative) + 0x7c00_0000_0000_0000_0000_0000_0000_0000 + low) == "NaN"
  {
    hide Unsigned;
    assert "-" + "Infinity" == "-Infinity" && "" + "Infinity" == "Infinity";
  }

  /* ---------- The form of what is written ---------- */

  // No blanks and no plus sign; scientific where the exponent is above 0 or the first digit stands beyond
  // the sixth place, with all digits of the coefficient; else in full, with as many digits behind the point
  // as the exponent says.
  predicate IsPlainForm(s: Spelling, digits: string, exponent: int) {
    && s.e == "" && |s.fraction| == -exponent && s.point == (exponent < 0)
    && s.whole != "" && (|s.whole| > 1 ==> s.whole[0] != '0') && StripZeros(s.whole + s.fraction) == digits
  }

  predicate IsScientificForm(s: Spelling, digits: string, exponent: int) {
    && s.e == "E" && |s.whole| == 1 && s.whole + s.fraction == digits && s.point == (s.fraction != "")
    && s.exponentSign != "" && s.exponent != "" && (|s.exponent| > 1 ==> s.exponent[0] != '0')
    && Fits(s) && ExponentOf(s) == exponent + |digits| - 1 && (s.exponent == "0" ==> s.exponentSign == "+")
  }

  predicate IsForm(s: Spelling, negative: bool, coefficient: nat, exponent: int) {
    var digits := Digits(coefficient);
    && Fits(s) && s.before == "" && s.after == "" && s.sign == (if negative then "-" else "")
    && if exponent > 0 || exponent + |digits| - 1 < -6 then IsScientificForm(s, digits, exponent)
       else IsPlainForm(s, digits, exponent)
  }

  // The parts of a scientific text.
  function Scientific(negative: bool, digits: string, adjusted: int): Spelling
    requires digits != ""
  {
    Spelling("", if negative then "-" else "", [digits[0]], |digits| > 1, digits[1..], "E",
             if adjusted >= 0 then "+" else "-", Digits(if adjusted >= 0 then adjusted else -adjusted), "")
  }

  lemma UnsignedScientific(coefficient: nat, exponent: int)
    requires exponent > 0 || exponent + |Digits(coefficient)| - 1 < -6
    requires Digits(coefficient) != ""
    ensures var digits := Digits(coefficient);
            Unsigned(coefficient, exponent) ==
            (if |digits| > 1 then [digits[0]] + "." + digits[1..] else digits) + ExponentText(exponent + |digits| - 1)
  {
    hide Digits, ExponentText;
  }

  lemma Regrouped(a: string, b: string, c: string, d: string)
    ensures a + ((b + c) + d) == (a + b + c) + d && a + ("" + d) == a + d
    ensures "" + a + "" == a
  {
  }

  lemma ScientificText(negative: bool, coefficient: nat, exponent: int)
    requires exponent > 0 || exponent + |Digits(coefficient)| - 1 < -6
    requires Digits(coefficient) != ""
    ensures var digits := Digits(coefficient);
            TextOf(Scientific(negative, digits, exponent + |digits| - 1)) ==
            (if negative then "-" else "") + Unsigned(coefficient, exponent)
  {
    var digits := Digits(coefficient);
    var adjusted := exponent + |digits| - 1;
    var s := Scientific(negative, digits, adjusted);
    var tail := ExponentText(adjusted);
    UnsignedScientific(coefficient, exponent);
    hide Digits, Unsigned;
    assert ExponentPart(s) == tail by {
      hide Core;
    }
    hide ExponentText, ExponentPart;
    Regrouped([digits[0]], ".", digits[1..], tail);
    if |digits| == 1 {
      assert digits == [digits[0]];
    }
    var core := Core(s);
    assert core == Unsigned(coefficient, exponent);
    hide Core;
    Regrouped(s.sign + core, "", "", "");
  }

  lemma ScientificForm(negative: bool, coefficient: nat, exponent: int) returns (s: Spelling)
    requires exponent > 0 || exponent + |Digits(coefficient)| - 1 < -6
    ensures IsForm(s, negative, coefficient, exponent) && TextOf(s) == (if negative then "-" else "") + Unsigned(coefficient, exponent)
  {
    hide Digits, ToNat, StripZeros, TextOf, Unsigned;
    var digits := Digits(coefficient);
    DigitsRead(coefficient);
    var adjusted := exponent + |digits| - 1;
    var size: nat := if adjusted >= 0 then adjusted else -adjusted;
    DigitsRead(size);
    OnlyZeroIsZero(size);
    s := Scientific(negative, digits, adjusted);
    ScientificText(negative, coefficient, exponent);
    assert [digits[0]] + digits[1..] == digits;
  }

  lemma OnlyZeroIsZero(n: nat)
    ensures Digits(n) == "0" <==> n == 0
    ensures |Digits(n)| > 1 ==> Digits(n)[0] != '0'
  {
    DigitsRead(n);
    if Digits(n) != "" && Digits(n)[0] == '0' {
      assert Digits(0) == "0";
    }
  }

  // The parts of a text in full.
  function Plain(negative: bool, digits: string, exponent: int): Spelling
    requires exponent <= 0
  {
    var point := |digits| + exponent;
    Spelling("", if negative then "-" else "", if point > 0 then digits[..point] else "0", exponent < 0,
             if point > 0 then digits[point..] else Zeros(-point) + digits, "", "", "", "")
  }

  lemma UnsignedPlain(coefficient: nat, exponent: int)
    requires exponent <= 0 && exponent + |Digits(coefficient)| - 1 >= -6
    ensures var digits := Digits(coefficient);
            var point := |digits| + exponent;
            Unsigned(coefficient, exponent) ==
            if exponent == 0 then digits
            else if point > 0 then digits[..point] + "." + digits[point..] else "0." + Zeros(-point) + digits
  {
    hide Digits, ExponentText, Zeros;
  }

  lemma WithoutExponent(s: Spelling)
    requires s.e == "" && s.exponentSign == "" && s.exponent == "" && s.before == "" && s.after == ""
    ensures TextOf(s) == s.sign + (s.whole + if s.point then "." + s.fraction else "")
  {
    var middle := if s.point then "." + s.fraction else "";
    assert ExponentPart(s) == "";
    assert middle + "" == middle;
    Regrouped(s.sign + (s.whole + middle), "", "", "");
  }

  // What `Unsigned` writes in full, for any digits.
  function InFull(digits: string, exponent: int): string
    requires exponent <= 0
  {
    var point := |digits| + exponent;
    if exponent == 0 then digits
    else if point > 0 then digits[..point] + "." + digits[point..] else "0." + Zeros(-point) + digits
  }

  lemma PlainText(negative: bool, coefficient: nat, exponent: int)
    requires exponent <= 0 && exponent + |Digits(coefficient)| - 1 >= -6
    ensures TextOf(Plain(negative, Digits(coefficient), exponent)) == (if negative then "-" else "") + Unsigned(coefficient, exponent)
  {
    UnsignedPlain(coefficient, exponent);
    DigitsRead(coefficient);
    var digits := Digits(coefficient);
    assert Unsigned(coefficient, exponent) == InFull(digits, exponent);
    hide Digits, Unsigned, TextOf, InFull;
    WithoutExponent(Plain(negative, digits, exponent));
    PlainParts(negative, digits, exponent);
  }

  lemma ZeroPoint(rest: string)
    ensures "0" + ("." + rest) == "0." + rest
  {
  }

  lemma PlainParts(negative: bool, digits: string, exponent: int)
    requires exponent <= 0 && digits != ""
    ensures var s := Plain(negative, digits, exponent);
            && s.whole + (if s.point then "." + s.fraction else "") == InFull(digits, exponent)
            && s.sign == (if negative then "-" else "") && s.before == "" && s.after == ""
  {
    hide Zeros;
    var point := |digits| + exponent;
    if exponent == 0 {
      assert digits[..|digits|] == digits && digits + "" == digits;
    } else if point > 0 {
      assert digits[..point] + ("." + digits[point..]) == digits[..point] + "." + digits[point..];
    } else {
      ZeroPoint(Zeros(-point) + digits);
      assert "0." + Zeros(-point) + digits == "0." + (Zeros(-point) + digits);
    }
  }

  lemma PlainForm(negative: bool, coefficient: nat, exponent: int) returns (s: Spelling)
    requires exponent <= 0 && exponent + |Digits(coefficient)| - 1 >= -6
    ensures IsForm(s, negative, coefficient, exponent) && TextOf(s) == (if negative then "-" else "") + Unsigned(coefficient, exponent)
  {
    hide Digits, ToNat, StripZeros, Zeros, TextOf, Unsigned;
    var digits := Digits(coefficient);
    DigitsRead(coefficient);
    OnlyZeroIsZero(coefficient);
    Stripped(coefficient);
    s := Plain(negative, digits, exponent);
    PlainText(negative, coefficient, exponent);
    PlainStripped(negative, digits, exponent);
  }

  lemma PlainStripped(negative: bool, digits: string, exponent: int)
    requires exponent <= 0 && digits != "" && AllDigits(digits)
    ensures var s := Plain(negative, digits, exponent);
            && AllDigits(s.whole) && AllDigits(s.fraction) && |s.fraction| == -exponent
            && StripZeros(s.whole + s.fraction) == StripZeros(digits)
  {
    hide StripZeros, Zeros;
    var point := |digits| + exponent;
    if point > 0 {
      assert digits[..point] + digits[point..] == digits;
    } else {
      var zeros := Zeros(-point);
      ZerosDigits(-point);
      StripAllZeros("0" + zeros, digits);
      assert "0" + (zeros + digits) == "0" + zeros + digits;
    }
  }

  /** What a pattern is written as: its sign, the digits of its coefficient and its exponent, in one of two forms. */
  lemma {:induction false} WrittenForm(bits: nat) returns (s: Spelling)
    requires Combination(bits) < 0x1e
    ensures ToText(bits) == TextOf(s) && IsForm(s, Negative(bits), Coefficient(bits), Biased(bits) - 6176)
  {
    hide Combination, Negative, Coefficient, Biased, Unsigned, IsForm, TextOf, Digits;
    var coefficient, exponent := Coefficient(bits), Biased(bits) - 6176;
    if exponent > 0 || exponent + |Digits(coefficient)| - 1 < -6 {
      s := ScientificForm(Negative(bits), coefficient, exponent);
    } else {
      s := PlainForm(Negative(bits), coefficient, exponent);
    }
  }

  lemma {:induction false} StripKeepsEnd(a: string)
    ensures |StripZeros(a)| <= |a| && a[|a| - |StripZeros(a)|..] == StripZeros(a)
    ensures forall i :: 0 <= i < |a| - |StripZeros(a)| ==> a[i] == '0'
    ensures a != "" && a[0] != '0' ==> StripZeros(a) == a
  {
    if |a| > 1 && a[0] == '0' {
      StripKeepsEnd(a[1..]);
    }
  }

  lemma StripDecides(a: string, b: string)
    requires |a| == |b| && StripZeros(a) == StripZeros(b)
    ensures a == b
  {
    hide StripZeros;
    StripKeepsEnd(a);
    StripKeepsEnd(b);
    var n := |a| - |StripZeros(a)|;
    assert a == a[..n] + a[n..] && b == b[..n] + b[n..];
  }

  lemma PlainOnce(s: Spelling, t: Spelling, digits: string, exponent: int)
    requires IsPlainForm(s, digits, exponent) && IsPlainForm(t, digits, exponent)
    ensures s.whole == t.whole && s.fraction == t.fraction && s.point == t.point
  {
    hide StripZeros;
    var a, b := s.whole + s.fraction, t.whole + t.fraction;
    StripKeepsEnd(a);
    StripKeepsEnd(b);
    assert |s.whole| > 1 ==> a[0] == s.whole[0];
    assert |t.whole| > 1 ==> b[0] == t.whole[0];
    StripDecides(a, b);
    var n := |s.whole|;
    assert a[..n] == s.whole && a[n..] == s.fraction && b[..n] == t.whole && b[n..] == t.fraction;
  }

  lemma ScientificOnce(s: Spelling, t: Spelling, digits: string, exponent: int)
    requires IsScientificForm(s, digits, exponent) && IsScientificForm(t, digits, exponent)
    ensures s.whole == t.whole && s.fraction == t.fraction && s.point == t.point
    ensures s.exponentSign == t.exponentSign && s.exponent == t.exponent
  {
    hide Digits, ToNat;
    assert digits[..1] == s.whole && digits[..1] == t.whole && digits[1..] == s.fraction && digits[1..] == t.fraction;
    ReadDigits(s.exponent);
    ReadDigits(t.exponent);
    ZeroIsZero();
  }

  lemma ZeroIsZero()
    ensures Digits(0) == "0"
  {
  }

  /** There is one text of that form. */
  lemma {:induction false} OneForm(s: Spelling, t: Spelling, negative: bool, coefficient: nat, exponent: int)
    requires IsForm(s, negative, coefficient, exponent) && IsForm(t, negative, coefficient, exponent)
    ensures TextOf(s) == TextOf(t)
  {
    hide Digits, StripZeros, ToNat, TextOf;
    var digits := Digits(coefficient);
    if exponent > 0 || exponent + |digits| - 1 < -6 {
      ScientificOnce(s, t, digits, exponent);
    } else {
      PlainOnce(s, t, digits, exponent);
    }
    assert s == t;
  }
}
