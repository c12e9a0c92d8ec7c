/** Planar vectors over exact reals, standing in for p5's `Vector`. */
module Vectors {
  import opened Reals

  datatype Vec = Vec(x: real, y: real)

  function Zero(): Vec { Vec(0.0, 0.0) }

  function Add(a: Vec, b: Vec): Vec { Vec(a.x + b.x, a.y + b.y) }

  function Sub(a: Vec, b: Vec): Vec { Vec(a.x - b.x, a.y - b.y) }

  function Scale(a: Vec, k: real): Vec { Vec(a.x * k, a.y * k) }

  function Dot(a: Vec, b: Vec): real { a.x * b.x + a.y * b.y }

  /** Squared length; a true length would need a square root. */
  function SqLen(a: Vec): real { Dot(a, a) }

  function SqDist(a: Vec, b: Vec): real { SqLen(Sub(b, a)) }

  predicate IsUnit(a: Vec) { SqLen(a) == 1.0 }

  function Min(a: real, b: real): real { if a <= b then a else b }

  /** p5's `map(v, a, b, c, d)` without clamping. */
  function MapRange(v: real, a: real, b: real, c: real, d: real): real
    requires a != b
  {
    (v - a) / (b - a) * (d - c) + c
  }

  lemma SqLenNonNegative(a: Vec)
    ensures SqLen(a) >= 0.0
  {
  }

  /**
   * `k` is the factor by which p5's `setMag(m)` rescales `v`: a non-zero
   * vector comes out with length `m`, a zero vector stays zero whatever `k`.
   */
  predicate SetMagFactor(v: Vec, m: real, k: real) {
    k >= 0.0 && (SqLen(v) > 0.0 ==> k * k * SqLen(v) == m * m)
  }

  /** `k` is the factor by which p5's `limit(max)` shrinks `v`: 1 unless `v` is longer than `max`. */
  predicate LimitFactor(v: Vec, max: real, k: real) {
    if SqLen(v) > max * max then k >= 0.0 && k * k * SqLen(v) == max * max else k == 1.0
  }

  lemma SqLenScale(a: Vec, k: real)
    ensures SqLen(Scale(a, k)) == k * k * SqLen(a)
  {
    assert (a.x * k) * (a.x * k) == k * k * (a.x * a.x);
    assert (a.y * k) * (a.y * k) == k * k * (a.y * a.y);
  }

  /** `setMag(m)` gives a non-zero vector length `m` and keeps a zero vector zero. */
  lemma SetMagLength(v: Vec, m: real, k: real)
    requires SetMagFactor(v, m, k)
    ensures SqLen(v) > 0.0 ==> SqLen(Scale(v, k)) == m * m
    ensures SqLen(v) == 0.0 ==> Scale(v, k) == Zero()
  {
    if SqLen(v) == 0.0 {
      SquareNonNegative(v.x);
      SquareNonNegative(v.y);
      assert v.x * v.x == 0.0 && v.y * v.y == 0.0;
      SquareZero(v.x);
      SquareZero(v.y);
    } else {
      SqLenScale(v, k);
    }
  }

  /** `limit(max)` leaves a short vector alone and brings a long one down to length `max`. */
  lemma LimitLength(v: Vec, max: real, k: real)
    requires LimitFactor(v, max, k)
    ensures SqLen(Scale(v, k)) <= max * max
    ensures SqLen(v) <= max * max ==> Scale(v, k) == v
  {
    SqLenScale(v, k);
  }

  lemma SquareNonNegative(x: real)
    ensures x * x >= 0.0
  {
    if x < 0.0 {
      ProductPositive(-x, -x, x * x);
    } else {
      ProductNonNegative(x, x, x * x);
    }
  }

  lemma SquareZero(x: real)
    requires x * x == 0.0
    ensures x == 0.0
  {
    if x > 0.0 {
      ProductPositive(x, x, x * x);
    } else if x < 0.0 {
      ProductPositive(-x, -x, x * x);
    }
  }
}
