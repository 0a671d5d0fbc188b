/** Facts about integer division used by the proofs of the model. */
module Arithmetic {

  lemma PositiveFactor(m: int, n: int)
    requires n > 0 && m * n > 0
    ensures m > 0
  {
  }

  /** Division and remainder are determined by x == q * n + r, 0 <= r < n. */
  lemma DivModUnique(x: int, n: int, q: int, r: int)
    requires n > 0 && 0 <= r < n && x == q * n + r
    ensures x / n == q && x % n == r
  {
    var d, e := x / n, x % n;
    assert x == d * n + e && 0 <= e < n;
    assert (d - q) * n == r - e;
    PositiveFactor(1 - (d - q), n);
    PositiveFactor(1 - (q - d), n);
  }
}
