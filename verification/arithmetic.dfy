/** Euclidean division. */
module Arithmetic {
  lemma QuotientIs(x: int, h: int, r: int, m: int)
    requires 0 <= r < m && x == m * h + r
    ensures x % m == r && x / m == h
  {
    var d := x / m - h;
    assert m * d == r - x % m;
    assert -m < m * d < m;
    assert d == 0;
  }
}
