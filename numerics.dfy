/**
 * Square roots and trigonometry. The model computes neither: the functions
 * are supplied, and `Exact` says what is assumed of the square root where a
 * proof needs it.
 */
module Numerics {
  import opened Vectors
  import opened Chance

  /** `Math.PI` to double precision. */
  const PI: real := 3.141592653589793

  /** `Math.sqrt`, `Vector.fromAngle` and `Vector.heading`. */
  datatype Numerics = Numerics(sqrt: real -> real, fromAngle: real -> Direction, heading: Vec -> real)

  /** The supplied square root is the exact, non-negative one. */
  ghost predicate Exact(n: Numerics) {
    forall x :: 0.0 <= x ==> 0.0 <= n.sqrt(x) && n.sqrt(x) * n.sqrt(x) == x
  }

  /** `v.mag()`. */
  function Mag(n: Numerics, v: Vec): real {
    n.sqrt(SqLen(v))
  }

  /** The factor `v.setMag(m)` applies: `m / |v|`, or anything for a zero vector. */
  function SetMagBy(n: Numerics, v: Vec, m: real): real {
    if SqLen(v) > 0.0 && Mag(n, v) != 0.0 then m / Mag(n, v) else 0.0
  }

  /** The factor `v.limit(max)` applies: `max / |v|` when `v` is longer than `max`, else 1. */
  function LimitBy(n: Numerics, v: Vec, max: real): real {
    if SqLen(v) > max * max && Mag(n, v) != 0.0 then max / Mag(n, v) else 1.0
  }

  lemma MagExact(n: Numerics, v: Vec)
    requires Exact(n)
    ensures Mag(n, v) >= 0.0 && Mag(n, v) * Mag(n, v) == SqLen(v)
  {
    SqLenNonNegative(v);
  }

  lemma RatioSquared(m: real, r: real, s: real)
    requires r > 0.0 && r * r == s
    ensures (m / r) * (m / r) * s == m * m
  {
    var k := m / r;
    assert k * r == m;
    calc {
      k * k * s;
      == k * k * (r * r);
      == (k * r) * (k * r);
      == m * m;
    }
  }

  /** With an exact square root the computed factor is the one `setMag` applies. */
  lemma SetMagByIsFactor(n: Numerics, v: Vec, m: real)
    requires Exact(n) && m >= 0.0
    ensures SetMagFactor(v, m, SetMagBy(n, v, m))
  {
    MagExact(n, v);
    if SqLen(v) > 0.0 {
      assert Mag(n, v) != 0.0;
      RatioSquared(m, Mag(n, v), SqLen(v));
    }
  }

  /** With an exact square root the computed factor is the one `limit` applies. */
  lemma LimitByIsFactor(n: Numerics, v: Vec, max: real)
    requires Exact(n) && max >= 0.0
    ensures LimitFactor(v, max, LimitBy(n, v, max))
  {
    MagExact(n, v);
    if SqLen(v) > max * max {
      assert SqLen(v) > 0.0 by { SquareNonNegative(max); }
      assert Mag(n, v) != 0.0;
      RatioSquared(max, Mag(n, v), SqLen(v));
    }
  }
}
