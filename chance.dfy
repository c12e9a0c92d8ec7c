/**
 * Random draws. The model never generates randomness: every `Math.random()`
 * the game would consume is a parameter of type `Fraction`, and p5's helpers
 * built on it are the functions below.
 */
module Chance {
  import opened Vectors
  import opened Reals

  /** One value of `Math.random()`. */
  type Fraction = u: real | 0.0 <= u < 1.0

  /** A unit vector, as returned by `Vector.random2D` and `Vector.fromAngle`. */
  type Direction = v: Vec | IsUnit(v) witness Vec(1.0, 0.0)

  /** p5's `random(lo, hi)`: the bounds are swapped when given in decreasing order. */
  function Uniform(u: Fraction, lo: real, hi: real): real {
    if lo > hi then u * (lo - hi) + hi else u * (hi - lo) + lo
  }

  /** `floor(random(0, n))`, the index pick of the flame colours. */
  function PickIndex(u: Fraction, n: nat): int {
    Uniform(u, 0.0, n as real).Floor
  }

  /** A draw of `random(lo, hi)` lies in the half-open range. */
  lemma UniformInRange(u: Fraction, lo: real, hi: real)
    requires lo < hi
    ensures lo <= Uniform(u, lo, hi) < hi
  {
    var w := hi - lo;
    ProductNonNegative(u, w, u * w);
    ProductPositive(1.0 - u, w, w - u * w);
  }

  /** A degenerate range yields its only point. */
  lemma UniformDegenerate(u: Fraction, lo: real)
    ensures Uniform(u, lo, lo) == lo
  {
  }

  /** The picked index selects an element of a non-empty list. */
  lemma PickIndexInRange(u: Fraction, n: nat)
    requires n > 0
    ensures 0 <= PickIndex(u, n) < n
  {
    UniformInRange(u, 0.0, n as real);
  }
}
