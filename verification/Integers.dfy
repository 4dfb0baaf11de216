/** Multiples, quotients and remainders of variable divisors. */
module Integers {

  lemma MultipleGap(d: int, n: int)
    requires n > 0
    ensures d > 0 ==> d * n >= n
    ensures d < 0 ==> d * n <= -n
  {
  }

  lemma Quotient(p: int, n: int, d: int)
    requires d > 0 && n * d <= p < n * d + d
    ensures p / d == n
  {
    var q := p / d;
    assert q * d <= p < q * d + d;
    MultipleGap(q - n, d);
    assert (q - n) * d == q * d - n * d;
  }

  lemma ModUnique(x: int, q: int, r: int, n: int)
    requires n > 0 && 0 <= r < n && x == q * n + r
    ensures x % n == r
  {
    Quotient(x, q, n);
  }
}
