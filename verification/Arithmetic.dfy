/** Facts about products and remainders. */
module Arithmetic {

  lemma MulLe(m: int, n: int, a: int)
    requires 0 <= a
    ensures m <= n ==> m * a <= n * a
  {
  }

  lemma ModIs(a: int, q: int, m: int, r: int)
    requires a == q * m + r && 0 <= r < m
    ensures a % m == r
  {
    var d := a / m;
    assert a == d * m + a % m;
    assert (d - q) * m == r - a % m;
    MulLe(1, d - q, m);
    MulLe(d - q, -1, m);
  }
}
