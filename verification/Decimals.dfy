/** Counts and ids as they are printed, and read again. */
module Decimals {
  function Decimal(n: nat): string {
    if n < 10 then [Digit(n)] else Decimal(n / 10) + [Digit(n % 10)]
  }

  function Digit(d: nat): char
    requires d < 10
  {
    "0123456789"[d]
  }

  predicate AllDigits(s: string) {
    forall i | 0 <= i < |s| :: '0' <= s[i] <= '9'
  }

  /** The number a count is read as. */
  function ValueOf(digits: string): nat
    requires AllDigits(digits)
  {
    if digits == "" then 0
    else
      var n := |digits| - 1;
      10 * ValueOf(digits[..n]) + (digits[n] as nat - '0' as nat)
  }

  lemma {:induction false} DecimalIsRead(n: nat)
    ensures AllDigits(Decimal(n)) && ValueOf(Decimal(n)) == n
  {
    OneMoreDigit(if n < 10 then "" else Decimal(n / 10), n % 10);
    if n < 10 {
      assert "" + [Digit(n)] == Decimal(n);
    } else {
      DecimalIsRead(n / 10);
    }
  }

  lemma OneMoreDigit(front: string, d: nat)
    requires d < 10
    ensures AllDigits(front) ==> AllDigits(front + [Digit(d)]) && ValueOf(front + [Digit(d)]) == 10 * ValueOf(front) + d
  {
    assert (front + [Digit(d)])[..|front|] == front;
  }
}
