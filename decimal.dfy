/**
 * `Number.prototype.toString()` on integers, which the viewer applies to status codes
 * and, after `Math.floor`, to elapsed times: an optional `-` and the decimal digits
 * without leading zeros.
 */
module Decimal {

  function DigitChar(d: int): char
    requires 0 <= d <= 9
  {
    ('0' as int + d) as char
  }

  predicate IsDigit(c: char) {
    '0' <= c <= '9'
  }

  /** The decimal digits of `n`, most significant first. */
  function Digits(n: nat): (s: string)
    ensures |s| >= 1
    ensures forall i :: 0 <= i < |s| ==> IsDigit(s[i])
  {
    if n < 10 then [DigitChar(n)] else Digits(n / 10) + [DigitChar(n % 10)]
  }

  /** `String(n)` for an integer `n` */
  function DecimalString(n: int): string {
    if n < 0 then "-" + Digits(-n) else Digits(n)
  }

  /** The most significant decimal digit of `n`. */
  function Lead(n: nat): (d: nat)
    ensures d <= 9
    ensures n > 0 ==> d > 0
  {
    if n < 10 then n else Lead(n / 10)
  }

  /** Reading the digits back gives the number: `Digits` loses nothing. */
  function Value(s: string): int
    decreases |s|
  {
    if |s| == 0 then 0 else 10 * Value(s[..|s| - 1]) + (s[|s| - 1] as int - '0' as int)
  }

  lemma {:induction false} ValueDigits(n: nat)
    ensures Value(Digits(n)) == n
  {
    if n >= 10 {
      ValueDigits(n / 10);
      var s := Digits(n);
      assert s[..|s| - 1] == Digits(n / 10);
    }
  }

  /** The string has two or more characters exactly when the number has two or more digits. */
  lemma DigitsLength(n: nat)
    ensures |Digits(n)| >= 2 <==> n >= 10
  {
  }

  /** The first character of the digits is the leading digit. */
  lemma {:induction false} DigitsFirst(n: nat)
    ensures Digits(n)[0] == DigitChar(Lead(n))
  {
    if n >= 10 {
      DigitsFirst(n / 10);
    }
  }

  /** A three-digit number leads with its hundreds digit. */
  lemma LeadOfThreeDigits(n: nat)
    requires 100 <= n < 1000
    ensures Lead(n) == n / 100
  {
    var m := n / 10;
    assert 10 <= m < 100;
    assert m / 10 == n / 100;
    assert Lead(m) == Lead(m / 10);
  }

  /** `String(n)` is `"0"` exactly for zero. */
  lemma DecimalStringZero(n: int)
    ensures DecimalString(n) == "0" <==> n == 0
  {
    if n < 0 {
      assert DecimalString(n)[0] == '-';
    } else if n >= 10 {
      DigitsLength(n);
    }
  }

  /** `String(n)` starts with the digit `d` and has a second character exactly when `n`
      has two or more digits and leads with `d`; negative numbers start with `-`. */
  lemma DecimalStringLeading(n: int, d: nat)
    requires d <= 9
    ensures (|DecimalString(n)| >= 2 && DecimalString(n)[0] == DigitChar(d)) <==> (n >= 10 && Lead(n) == d)
    ensures n < 0 ==> DecimalString(n)[0] == '-'
  {
    if n < 0 {
      assert DecimalString(n)[0] == '-';
    } else {
      DigitsLength(n);
      DigitsFirst(n);
    }
  }
}
