/** Decimal text of natural numbers, and its value. */
module Decimal {
  predicate IsDigit(c: char) {
    '0' <= c <= '9'
  }

  function DigitValue(c: char): nat {
    if IsDigit(c) then c as int - '0' as int else 0
  }

  function NatText(n: nat): (t: string)
    ensures t != ""
  {
    if n < 10 then ["0123456789"[n]] else NatText(n / 10) + ["0123456789"[n % 10]]
  }

  function Number(digits: string): nat {
    if digits == "" then 0 else Number(digits[..|digits|-1]) * 10 + DigitValue(digits[|digits|-1])
  }

  predicate AllDigits(s: string) {
    forall i :: 0 <= i < |s| ==> IsDigit(s[i])
  }

  lemma DigitRoundTrip(d: nat)
    requires d < 10
    ensures IsDigit("0123456789"[d]) && DigitValue("0123456789"[d]) == d
    ensures d > 0 ==> "0123456789"[d] != '0'
  {
  }

  /** The text has the number's value and no leading zeros. */
  lemma {:induction false} NatTextIsNumber(n: nat)
    ensures AllDigits(NatText(n)) && Number(NatText(n)) == n
    ensures n > 0 ==> NatText(n)[0] != '0'
    ensures |NatText(n)| > 1 ==> n > 0
  {
    if n < 10 {
      DigitRoundTrip(n);
      assert NatText(n)[..0] == "";
    } else {
      NatTextIsNumber(n / 10);
      DigitRoundTrip(n % 10);
      assert NatText(n)[..|NatText(n)|-1] == NatText(n / 10);
    }
  }

  function Pow10(k: nat): nat {
    if k == 0 then 1 else 10 * Pow10(k - 1)
  }

  lemma {:induction false} NatTextLength(n: nat, k: nat)
    requires k > 0 && n < Pow10(k)
    ensures |NatText(n)| <= k
  {
    if n >= 10 { NatTextLength(n / 10, k - 1); }
  }
}
