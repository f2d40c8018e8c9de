// Natural numbers written in decimal.
module Numerals {

  predicate IsDigit(c: char) {
    '0' <= c <= '9'
  }

  predicate AllDigits(s: string) {
    forall i :: 0 <= i < |s| ==> IsDigit(s[i])
  }

  function DigitValue(c: char): nat
    requires IsDigit(c)
  {
    c as int - '0' as int
  }

  function DigitChar(d: nat): char
    requires d < 10
  {
    ('0' as int + d) as char
  }

  // How JavaScript prints a natural number.
  function Digits(n: nat): string {
    if n < 10 then [DigitChar(n)] else Digits(n / 10) + [DigitChar(n % 10)]
  }

  // How a run of digits is read.
  function ToNat(s: string): nat
    requires AllDigits(s)
  {
    if |s| == 0 then 0 else 10 * ToNat(s[..|s| - 1]) + DigitValue(s[|s| - 1])
  }

  lemma {:induction false} DigitsRead(n: nat)
    ensures |Digits(n)| > 0 && AllDigits(Digits(n)) && ToNat(Digits(n)) == n
    ensures Digits(n)[0] == '0' ==> n == 0
  {
    if n < 10 {
      assert Digits(n)[..0] == [];
    } else {
      DigitsRead(n / 10);
      var s := Digits(n);
      assert s[..|s| - 1] == Digits(n / 10);
    }
  }

  function Pow10(n: nat): nat {
    if n == 0 then 1 else 10 * Pow10(n - 1)
  }

  // The number of digits follows the size of the number.
  lemma {:induction false} DigitsLength(n: nat, k: nat)
    requires k > 0
    ensures |Digits(n)| <= k <==> n < Pow10(k)
  {
    if n < 10 {
      Pow10AtLeast(k);
    } else if k == 1 {
      DigitsRead(n / 10);
      assert Pow10(1) == 10 * Pow10(0);
    } else {
      DigitsLength(n / 10, k - 1);
      assert n < 10 * Pow10(k - 1) <==> n / 10 < Pow10(k - 1);
    }
  }

  lemma {:induction false} Pow10AtLeast(k: nat)
    ensures Pow10(k) >= 1 && (k > 0 ==> Pow10(k) >= 10)
  {
    if k > 0 {
      Pow10AtLeast(k - 1);
    }
  }

  lemma {:induction false} ToNatAppend(a: string, b: string)
    requires AllDigits(a) && AllDigits(b)
    ensures AllDigits(a + b) && ToNat(a + b) == ToNat(a) * Pow10(|b|) + ToNat(b)
  {
    if b == [] {
      assert a + b == a;
    } else {
      var n := |b| - 1;
      ToNatAppend(a, b[..n]);
      assert (a + b)[..|a + b| - 1] == a + b[..n];
      assert ToNat(a) * Pow10(|b|) == 10 * (ToNat(a) * Pow10(n));
    }
  }

  // Text without a leading zero is the text its number prints as.
  lemma {:induction false} ReadDigits(s: string)
    requires |s| > 0 && AllDigits(s) && (s[0] == '0' ==> |s| == 1)
    ensures Digits(ToNat(s)) == s
  {
    var n := |s| - 1;
    if n == 0 {
      assert s[..0] == [];
      assert ToNat(s) == DigitValue(s[0]);
    } else {
      var init := s[..n];
      ReadDigits(init);
      FirstDigit(init);
      assert ToNat(s) / 10 == ToNat(init) && ToNat(s) % 10 == DigitValue(s[n]);
      assert s == init + [s[n]];
    }
  }

  lemma {:induction false} FirstDigit(s: string)
    requires |s| > 0 && AllDigits(s) && s[0] != '0'
    ensures ToNat(s) > 0
  {
    if |s| > 1 {
      FirstDigit(s[..|s| - 1]);
    } else {
      assert s[..0] == [];
    }
  }
}
