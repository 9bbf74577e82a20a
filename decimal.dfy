/**
 * Decimal rendering of non-negative integers, as Python's `str(n)` (used in
 * `f"Canal {i}"`) and the format spec `{n:02d}` (used for the countdown's
 * minutes and seconds) produce it, together with a parser back to the value.
 */
module Decimal {

  predicate IsDigit(c: char) {
    '0' <= c <= '9'
  }

  predicate AllDigits(s: string) {
    forall i :: 0 <= i < |s| ==> IsDigit(s[i])
  }

  function DigitChar(d: nat): (c: char)
    requires d < 10
    ensures IsDigit(c) && c as int - '0' as int == d
  {
    ('0' as int + d) as char
  }

  /** The numeric value of a string of decimal digits (the empty string reads as 0). */
  function Value(s: string): nat
    requires AllDigits(s)
  {
    if s == [] then 0
    else Value(s[..|s| - 1]) * 10 + (s[|s| - 1] as int - '0' as int)
  }

  /** `str(n)` for a non-negative int: shortest decimal digits, no leading zero. */
  function Digits(n: nat): (s: string)
    ensures |s| >= 1 && AllDigits(s)
    ensures n > 0 ==> s[0] != '0'
    ensures |s| == 1 <==> n < 10
    ensures |s| <= 2 <==> n < 100
  {
    if n < 10 then [DigitChar(n)] else Digits(n / 10) + [DigitChar(n % 10)]
  }

  lemma {:induction false} ValueOfDigits(n: nat)
    ensures Value(Digits(n)) == n
  {
    if n >= 10 {
      var s := Digits(n);
      assert s[..|s| - 1] == Digits(n / 10);
      ValueOfDigits(n / 10);
    }
  }

  /** A leading zero does not change the value. */
  lemma {:induction false} ValueLeadingZero(s: string)
    requires AllDigits(s)
    ensures AllDigits("0" + s) && Value("0" + s) == Value(s)
  {
    var u := "0" + s;
    assert AllDigits(u) by {
      forall i | 0 <= i < |u| ensures IsDigit(u[i]) {
        if i > 0 { assert u[i] == s[i - 1]; }
      }
    }
    if s != [] {
      assert u[..|u| - 1] == "0" + s[..|s| - 1];
      ValueLeadingZero(s[..|s| - 1]);
    }
  }

  /**
   * `{n:02d}` for a non-negative int: the decimal digits of `n`, zero-padded
   * on the left to at least two characters. It is exactly two characters
   * wide below 100 and wider from 100 on, it has a leading zero only below
   * 10, and it always reads back as `n`.
   */
  function ZeroPad2(n: nat): (s: string)
    ensures AllDigits(s) && |s| >= 2
    ensures |s| == 2 <==> n < 100
    ensures s[0] == '0' <==> n < 10
    ensures Value(s) == n
  {
    ValueOfDigits(n);
    if n < 10 then
      ValueLeadingZero(Digits(n));
      "0" + Digits(n)
    else
      Digits(n)
  }
}
