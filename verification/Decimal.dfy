/** Decimal text of natural numbers and back. */
module Decimal {
  import opened Base

  function Digit(n: nat): char
    requires n < 10
  {
    '0' + n as char
  }

  predicate IsDecimalDigit(c: char) { '0' <= c <= '9' }

  function DigitValue(c: char): nat
    requires IsDecimalDigit(c)
  {
    (c - '0') as nat
  }

  function Text(n: nat): string {
    if n < 10 then [Digit(n)] else Text(n / 10) + [Digit(n % 10)]
  }

  predicate IsNumeral(s: string) {
    s != "" && forall i :: 0 <= i < |s| ==> IsDecimalDigit(s[i])
  }

  function Value(s: string): nat
    requires forall i :: 0 <= i < |s| ==> IsDecimalDigit(s[i])
  {
    if s == "" then 0 else 10 * Value(s[..|s| - 1]) + DigitValue(s[|s| - 1])
  }

  lemma {:induction false} DecimalIsNumeral(n: nat)
    ensures IsNumeral(Text(n))
  {
    if n >= 10 {
      DecimalIsNumeral(n / 10);
    }
  }

  lemma {:induction false} ValueOfDecimal(n: nat)
    ensures IsNumeral(Text(n)) && Value(Text(n)) == n
  {
    DecimalIsNumeral(n);
    if n < 10 {
      assert [Digit(n)][..0] == "";
      assert DigitValue(Digit(n)) == n;
    } else {
      ValueOfDecimal(n / 10);
      var s := Text(n);
      assert s[..|s| - 1] == Text(n / 10);
      assert DigitValue(Digit(n % 10)) == n % 10;
    }
  }

  lemma DecimalInjective(m: nat, n: nat)
    requires Text(m) == Text(n)
    ensures m == n
  {
    ValueOfDecimal(m);
    ValueOfDecimal(n);
  }
}
