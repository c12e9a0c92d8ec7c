/**
 * Facts about products of reals. The solver settles a sign question about a
 * product reliably only when the factors are separate variables, so the other
 * modules route such steps through these lemmas.
 */
module Reals {

  lemma ProductPositive(x: real, y: real, p: real)
    requires x > 0.0 && y > 0.0 && p == x * y
    ensures p > 0.0
  {
  }

  lemma ProductNonNegative(x: real, y: real, p: real)
    requires x >= 0.0 && y >= 0.0 && p == x * y
    ensures p >= 0.0
  {
  }

  lemma CancelPositive(x: real, y: real, k: real)
    requires k > 0.0 && x * k == y * k
    ensures x == y
  {
    assert (x - y) * k == 0.0;
  }

  /** Dividing out a positive factor; the bound `n` is named so the solver meets no product twice. */
  lemma DivideOut(x: real, y: real, r: real, n: real)
    requires r > 0.0 && x * r <= n && n == y * r
    ensures x <= y
  {
  }

  lemma DivideOutStrict(x: real, y: real, r: real, n: real)
    requires r > 0.0 && x * r == n && n < y * r
    ensures x < y
  {
  }

  lemma ScaleMonotone(x: real, y: real, r: real)
    requires r >= 0.0 && x <= y
    ensures x * r <= y * r
  {
  }

  lemma QuotientTimesDivisor(n: real, d: real)
    requires d > 0.0
    ensures (n / d) * d == n
  {
  }

  lemma FloorBetween(q: real, k: int)
    requires k as real <= q < (k + 1) as real
    ensures q.Floor == k
  {
  }
}
