/** Quotients and remainders of integers by a positive number. */
module Remainders {

  lemma {:induction false} QuotientIsUnique(x: int, m: int, q: int, r: int)
    requires 0 <= r < m && x == m * q + r
    ensures x % m == r && x / m == q
  {
    var d := x / m - q;
    assert m * d == r - x % m;
    assert d > 0 ==> m * d >= m;
    assert d < 0 ==> m * d <= -m;
  }

  lemma {:induction false} MulAssociates(x: int, y: int, z: int)
    ensures x * (y * z) == (x * y) * z
  {}

  /** Multiples of the modulus do not change a remainder. */
  lemma {:induction false} AddMultiple(x: int, m: int, k: int)
    requires m > 0
    ensures (x + m * k) % m == x % m
  {
    var q, r := x / m, x % m;
    assert m * (q + k) == m * q + m * k;
    QuotientIsUnique(x + m * k, m, q + k, r);
  }
}
