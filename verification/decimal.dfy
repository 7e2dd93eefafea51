/**
 * Decimal rendering of natural numbers without padding, as Python's
 * `str(int)` / f-string `{int(n)}` produce it, and its inverse.
 */
module Decimal {

  predicate IsDigit(c: char) {
    '0' <= c <= '9'
  }

  predicate AllDigits(s: string) {
    forall i :: 0 <= i < |s| ==> IsDigit(s[i])
  }

  function DigitChar(d: nat): (c: char)
    requires d < 10
    ensures IsDigit(c)
  {
    (('0' as int) + d) as char
  }

  function DigitValue(c: char): (d: nat)
    requires IsDigit(c)
    ensures d < 10
  {
    (c as int) - ('0' as int)
  }

  /**
   * The decimal digits of `n`, most significant first. The rendering is
   * never empty and starts with '0' only for zero itself (no padding).
   */
  function NatToString(n: nat): (s: string)
    ensures |s| > 0 && AllDigits(s)
    ensures s[0] == '0' <==> n == 0
    decreases n
  {
    if n < 10 then [DigitChar(n)] else NatToString(n / 10) + [DigitChar(n % 10)]
  }

  /** The value of a string of decimal digits; the empty string reads as 0. */
  function ParseDigits(s: string): nat
    requires AllDigits(s)
  {
    if |s| == 0 then 0 else ParseDigits(s[..|s| - 1]) * 10 + DigitValue(s[|s| - 1])
  }

  /** Reading back a rendered number gives the number. */
  lemma {:induction false} ParseNatToString(n: nat)
    ensures ParseDigits(NatToString(n)) == n
    decreases n
  {
    var s := NatToString(n);
    if n < 10 {
      assert s[..|s| - 1] == [];
    } else {
      assert s[..|s| - 1] == NatToString(n / 10);
      ParseNatToString(n / 10);
    }
  }

  /** Distinct numbers render differently. */
  lemma NatToStringInjective(m: nat, n: nat)
    requires NatToString(m) == NatToString(n)
    ensures m == n
  {
    ParseNatToString(m);
    ParseNatToString(n);
  }
}
