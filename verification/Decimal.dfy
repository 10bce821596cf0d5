/** Decimal numerals of natural numbers, as both source languages print them. */
module Decimal {
  function Digit(d: nat): char
    requires d < 10
  {
    "0123456789"[d]
  }

  function Numeral(n: nat): (s: string)
    ensures |s| > 0
  {
    if n < 10 then [Digit(n)] else Numeral(n / 10) + [Digit(n % 10)]
  }

  lemma DigitInjective(c: nat, d: nat)
    requires c < 10 && d < 10 && Digit(c) == Digit(d)
    ensures c == d
  {
  }

  /** Two numbers with the same numeral are equal. */
  lemma {:induction false} NumeralInjective(m: nat, n: nat)
    requires Numeral(m) == Numeral(n)
    ensures m == n
  {
    var s, t := Numeral(m), Numeral(n);
    assert s[|s| - 1] == Digit(m % 10) && t[|t| - 1] == Digit(n % 10);
    DigitInjective(m % 10, n % 10);
    if m >= 10 && n >= 10 {
      assert Numeral(m / 10) == s[..|s| - 1] && Numeral(n / 10) == t[..|t| - 1];
      NumeralInjective(m / 10, n / 10);
    }
  }

  /** A smaller number never has a longer numeral. */
  lemma {:induction false} NumeralMonotone(m: nat, n: nat)
    requires m <= n
    ensures |Numeral(m)| <= |Numeral(n)|
  {
    if m >= 10 {
      NumeralMonotone(m / 10, n / 10);
    }
  }

  predicate IsDigit(c: char) {
    '0' <= c <= '9'
  }

  lemma {:induction false} NumeralDigits(n: nat)
    ensures forall i :: 0 <= i < |Numeral(n)| ==> IsDigit(Numeral(n)[i])
  {
    assert forall d: nat :: d < 10 ==> IsDigit(Digit(d));
    if n >= 10 {
      NumeralDigits(n / 10);
    }
  }

  /** The number that digits stand for, read from the left. */
  function ValueOf(s: string): int {
    if s == "" then 0 else 10 * ValueOf(s[..|s| - 1]) + (s[|s| - 1] as int - '0' as int)
  }

  /** The numeral of a number consists of digits, has no leading zero, and has its value. */
  lemma {:induction false} NumeralValue(n: nat)
    ensures ValueOf(Numeral(n)) == n
    ensures forall i :: 0 <= i < |Numeral(n)| ==> '0' <= Numeral(n)[i] <= '9'
    ensures Numeral(n)[0] == '0' ==> n == 0 && |Numeral(n)| == 1
  {
    DigitValue(n % 10);
    if n < 10 {
      assert Numeral(n)[..0] == "";
    } else {
      var s := Numeral(n);
      NumeralValue(n / 10);
      NumeralDigits(n);
      assert s[..|s| - 1] == Numeral(n / 10) && s[|s| - 1] == Digit(n % 10);
    }
  }

  lemma DigitValue(d: nat)
    requires d < 10
    ensures Digit(d) as int - '0' as int == d && '0' <= Digit(d) <= '9'
  {
  }
}
