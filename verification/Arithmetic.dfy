/** Products and quotients by a positive number. */
module Arithmetic {

  lemma Distribute(a: int, b: int, d: int)
    ensures (a - b) * d == a * d - b * d
  {
  }

  lemma AtLeastOnce(a: int, d: int)
    requires a >= 1 && d > 0
    ensures a * d >= d
  {
    Distribute(a, 1, d);
    assert (a - 1) * d >= 0;
  }

  lemma Product(a: int, b: int, d: int)
    requires d > 0
    ensures a > b ==> a * d >= b * d + d
    ensures a < b ==> b * d >= a * d + d
  {
    Distribute(a, b, d);
    Distribute(b, a, d);
    if a > b {
      AtLeastOnce(a - b, d);
    } else if a < b {
      AtLeastOnce(b - a, d);
    }
  }

  /** The quotient is the only one with its bounds. */
  lemma DivideIsOnly(n: int, d: int, q: int)
    requires d > 0 && q * d <= n < q * d + d
    ensures n / d == q
  {
    Product(n / d, q, d);
    assert n == n / d * d + n % d;
  }

  lemma NonZeroMultiple(q: int, d: int)
    requires d > 0
    ensures q * d == 0 || q * d >= d || q * d <= -d
  {
    Product(q, 0, d);
  }

  lemma MonotoneProduct(a: int, b: int, d: int)
    requires a <= b && d > 0
    ensures a * d <= b * d
  {
    Distribute(b, a, d);
    assert (b - a) * d >= 0;
  }

  lemma QuotientAscends(n: int, m: int, d: int)
    requires n <= m && d > 0
    ensures n / d <= m / d
  {
    assert n == n / d * d + n % d && m == m / d * d + m % d;
    Product(n / d, m / d, d);
  }

  lemma WholeQuotient(n: int, d: int)
    requires d > 0
    ensures n * d / d == n
  {
    DivideIsOnly(n * d, d, n);
  }
}
