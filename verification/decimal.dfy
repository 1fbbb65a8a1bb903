/**
 * Python's `str(n)` for non-negative integers, and `len(str(n))`.
 * Used by the counter labels of the progress indicator and by the
 * colour codes of the xterm serialiser.
 */
module Decimal {

  predicate IsDigit(c: char) {
    '0' <= c <= '9'
  }

  predicate AllDigits(s: string) {
    forall i | 0 <= i < |s| :: IsDigit(s[i])
  }

  function DigitChar(d: nat): (c: char)
    requires d < 10
    ensures IsDigit(c)
  {
    ('0' as int + d) as char
  }

  function DigitValue(c: char): (d: nat)
    requires IsDigit(c)
    ensures d < 10
  {
    c as int - '0' as int
  }

  /** The decimal spelling of `n`, as `str(n)` writes it: no sign, no leading zero. */
  function NatToString(n: nat): (s: string)
    ensures |s| >= 1
    ensures AllDigits(s)
    ensures s[0] == '0' <==> n == 0
  {
    if n < 10 then [DigitChar(n)] else NatToString(n / 10) + [DigitChar(n % 10)]
  }

  /** Reads a string of decimal digits back as a number. */
  function DigitsValue(s: string): nat
    requires AllDigits(s)
  {
    if s == [] then 0 else DigitsValue(s[..|s| - 1]) * 10 + DigitValue(s[|s| - 1])
  }

  /** `str` is injective on naturals: reading the spelling back gives the number. */
  lemma {:induction false} NatToStringRoundTrip(n: nat)
    ensures DigitsValue(NatToString(n)) == n
  {
    if n >= 10 {
      NatToStringRoundTrip(n / 10);
      var s := NatToString(n);
      assert s[..|s| - 1] == NatToString(n / 10);
    }
  }

  /** `len(str(n))`. */
  function Digits(n: nat): (d: nat)
    ensures d >= 1
  {
    |NatToString(n)|
  }

  /** A larger number never has a shorter spelling. */
  lemma {:induction false} DigitsMonotone(a: nat, b: nat)
    requires a <= b
    ensures Digits(a) <= Digits(b)
  {
    if a >= 10 {
      DigitsMonotone(a / 10, b / 10);
    }
  }

  /** Every number up to 100 is spelled with at most three digits. */
  lemma DigitsUpToHundred(n: nat)
    requires n <= 100
    ensures Digits(n) <= 3
  {
    assert NatToString(n / 10) == NatToString(n / 10);
    if n >= 10 {
      assert n / 10 < 10 || n / 10 == 10;
    }
  }
}
