/** Decimal digits and powers of ten. */
module Decimals {

  predicate IsDigit(c: char) {
    '0' <= c <= '9'
  }

  function Digit(c: char): int {
    c as int - '0' as int
  }

  function DigitChar(k: nat): (c: char)
    requires k < 10
    ensures IsDigit(c) && Digit(c) == k
  {
    ('0' as int + k) as char
  }

  function Pow10(n: nat): (p: nat)
    ensures p >= 1
  {
    if n == 0 then 1 else 10 * Pow10(n - 1)
  }

  lemma {:induction false} PowGrows(m: nat, n: nat)
    requires m <= n
    ensures Pow10(m) <= Pow10(n)
  {
    if m < n {
      PowGrows(m, n - 1);
    }
  }

  lemma {:induction false} PowSum(m: nat, n: nat)
    ensures Pow10(m + n) == Pow10(m) * Pow10(n)
    decreases n
  {
    if n > 0 {
      PowSum(m, n - 1);
      TenTimes(Pow10(m), Pow10(n - 1));
    }
  }

  lemma TenTimes(p: int, q: int)
    ensures 10 * (p * q) == p * (10 * q)
  {}

  lemma {:induction false} ScaledUp(d: int, e: int, p: nat)
    requires d <= e
    ensures d * p <= e * p
    decreases e - d
  {
    if d < e {
      ScaledUp(d, e - 1, p);
      assert e * p == (e - 1) * p + p;
    }
  }
}
