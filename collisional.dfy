/**
 * The collision capability (src/game2/extensions/collisional.ext.ts):
 * a circle-circle overlap test and an elastic impulse response between two
 * bodies whose masses are their squared radii.
 */
module Collisional {
  import opened Vectors
  import opened Transformable
  import opened Reals

  /**
   * `intersects`: the centre distance is strictly below the sum of the radii.
   * The comparison is made on squares, which is equivalent (OverlapsIffDistance).
   */
  predicate Overlaps(a: Transform, b: Transform) {
    var s := a.radius + b.radius;
    s > 0.0 && SqDist(a.position, b.position) < s * s
  }

  /** The contact normal `(dx / distance, dy / distance)` from the first body to the second. */
  function Normal(a: Transform, b: Transform, distance: real): Vec
    requires distance != 0.0
  {
    var delta := Sub(b.position, a.position);
    Vec(delta.x / distance, delta.y / distance)
  }

  /** The relative velocity of the second body with respect to the first, along the normal. */
  function NormalSpeed(a: Transform, b: Transform, distance: real): real
    requires distance != 0.0
  {
    Dot(Sub(b.velocity, a.velocity), Normal(a, b, distance))
  }

  /** Mass is the squared radius (`radius * radius`). */
  function Mass(t: Transform): real { t.radius * t.radius }

  /** `v + imp / m`, the first body's change of velocity. */
  function Push(v: Vec, imp: Vec, m: real): Vec
    requires m != 0.0
  {
    Vec(v.x + imp.x / m, v.y + imp.y / m)
  }

  /** `v - imp / m`, the second body's change of velocity. */
  function Pull(v: Vec, imp: Vec, m: real): Vec
    requires m != 0.0
  {
    Vec(v.x - imp.x / m, v.y - imp.y / m)
  }

  /**
   * The impulse magnitude `2 * relVelDotNormal / (1/m1 + 1/m2)`; the true
   * distance is the caller's to supply, as the source computes it with a square root.
   */
  function ImpulseScalar(a: Transform, b: Transform, distance: real): real
    requires distance != 0.0 && a.radius != 0.0 && b.radius != 0.0
  {
    MassPositive(a);
    MassPositive(b);
    (2.0 * NormalSpeed(a, b, distance)) / (1.0 / Mass(a) + 1.0 / Mass(b))
  }

  /** `collision`: the new states of both bodies. */
  function Collide(a: Transform, b: Transform, distance: real): (Transform, Transform)
    requires distance > 0.0 && a.radius != 0.0 && b.radius != 0.0
  {
    MassPositive(a);
    MassPositive(b);
    var n := Normal(a, b, distance);
    if NormalSpeed(a, b, distance) > 0.0 then (a, b)
    else
      var m1, m2 := Mass(a), Mass(b);
      var imp := Scale(n, ImpulseScalar(a, b, distance));
      var v1 := Push(a.velocity, imp, m1);
      var v2 := Pull(b.velocity, imp, m2);
      var overlap := a.radius + b.radius - distance;
      if overlap > 0.0 then
        var k1, k2 := m2 / (m1 + m2), m1 / (m1 + m2);
        (a.(velocity := v1, position := Vec(a.position.x - n.x * overlap * k1, a.position.y - n.y * overlap * k1)),
         b.(velocity := v2, position := Vec(b.position.x + n.x * overlap * k2, b.position.y + n.y * overlap * k2)))
      else
        (a.(velocity := v1), b.(velocity := v2))
  }

  /** Total momentum `m1 v1 + m2 v2`. */
  function Momentum(a: Transform, b: Transform): Vec {
    Add(Scale(a.velocity, Mass(a)), Scale(b.velocity, Mass(b)))
  }

  // ---------------------------------------------------------------- lemmas

  /** A body with a non-zero radius has a positive mass. */
  lemma MassPositive(t: Transform)
    requires t.radius != 0.0
    ensures Mass(t) > 0.0
  {
    if t.radius > 0.0 {
      ProductPositive(t.radius, t.radius, Mass(t));
    } else {
      ProductPositive(-t.radius, -t.radius, Mass(t));
    }
  }

  lemma SqDistSymmetric(p: Vec, q: Vec)
    ensures SqDist(p, q) == SqDist(q, p)
  {
    assert (q.x - p.x) * (q.x - p.x) == (p.x - q.x) * (p.x - q.x);
    assert (q.y - p.y) * (q.y - p.y) == (p.y - q.y) * (p.y - q.y);
  }

  /** `a.intersects(b) == b.intersects(a)`. */
  lemma OverlapsSymmetric(a: Transform, b: Transform)
    ensures Overlaps(a, b) == Overlaps(b, a)
  {
    SqDistSymmetric(a.position, b.position);
    assert a.radius + b.radius == b.radius + a.radius;
  }

  lemma LessIffSquareLess(d: real, s: real)
    requires d >= 0.0 && s > 0.0
    ensures d < s <==> d * d < s * s
  {
    assert s * s - d * d == (s - d) * (s + d);
    if d < s {
      ProductPositive(s - d, s + d, s * s - d * d);
    } else {
      ProductNonNegative(d - s, s + d, d * d - s * s);
    }
  }

  /** The squared comparison agrees with `distance < r1 + r2` for the true distance. */
  lemma OverlapsIffDistance(a: Transform, b: Transform, distance: real)
    requires distance >= 0.0 && distance * distance == SqDist(a.position, b.position)
    ensures Overlaps(a, b) <==> distance < a.radius + b.radius
  {
    var s := a.radius + b.radius;
    if s > 0.0 {
      LessIffSquareLess(distance, s);
    }
  }

  /** The normal is a unit vector when the distance is the true one. */
  lemma NormalIsUnit(a: Transform, b: Transform, distance: real)
    requires distance > 0.0 && distance * distance == SqDist(a.position, b.position)
    ensures IsUnit(Normal(a, b, distance))
  {
    var delta := Sub(b.position, a.position);
    UnitAfterDivision(delta.x, delta.y, distance);
  }

  lemma UnitAfterDivision(x: real, y: real, d: real)
    requires d > 0.0 && d * d == x * x + y * y
    ensures (x / d) * (x / d) + (y / d) * (y / d) == 1.0
  {
    var u, w := x / d, y / d;
    assert u * d == x && w * d == y;
    assert (u * u + w * w) * (d * d) == (u * d) * (u * d) + (w * d) * (w * d);
    assert (u * u + w * w) * (d * d) == x * x + y * y;
    ProductPositive(d, d, d * d);
    CancelPositive(u * u + w * w, 1.0, d * d);
  }

  /** The separation of the centres measured along the normal is the distance itself. */
  lemma SeparationAlongNormal(a: Transform, b: Transform, distance: real)
    requires distance > 0.0 && distance * distance == SqDist(a.position, b.position)
    ensures Dot(Sub(b.position, a.position), Normal(a, b, distance)) == distance
  {
    var delta := Sub(b.position, a.position);
    var n := Normal(a, b, distance);
    assert delta.x * n.x + delta.y * n.y == (delta.x * delta.x + delta.y * delta.y) / distance;
    assert (distance * distance) / distance == distance;
  }

  /** With the second body already moving away along the normal, nothing changes. */
  lemma CollideSeparatingIsNoop(a: Transform, b: Transform, distance: real)
    requires distance > 0.0 && a.radius != 0.0 && b.radius != 0.0
    requires NormalSpeed(a, b, distance) > 0.0
    ensures Collide(a, b, distance) == (a, b)
  {
  }

  /** `collision` writes only velocities and positions. */
  lemma CollideFrame(a: Transform, b: Transform, distance: real)
    requires distance > 0.0 && a.radius != 0.0 && b.radius != 0.0
    ensures var (a', b') := Collide(a, b, distance);
      a' == a.(velocity := a'.velocity, position := a'.position)
      && b' == b.(velocity := b'.velocity, position := b'.position)
  {
  }

  /** The velocities `collision` writes when it does not return early. */
  lemma CollideVelocities(a: Transform, b: Transform, distance: real, imp: Vec)
    requires distance > 0.0 && a.radius != 0.0 && b.radius != 0.0
    requires NormalSpeed(a, b, distance) <= 0.0
    requires imp == Scale(Normal(a, b, distance), ImpulseScalar(a, b, distance))
    ensures Mass(a) > 0.0 && Mass(b) > 0.0
      && Collide(a, b, distance).0.velocity == Push(a.velocity, imp, Mass(a))
      && Collide(a, b, distance).1.velocity == Pull(b.velocity, imp, Mass(b))
  {
    MassPositive(a);
    MassPositive(b);
  }

  /** The impulse is exchanged equally and oppositely: momentum is conserved exactly. */
  lemma CollideConservesMomentum(a: Transform, b: Transform, distance: real)
    requires distance > 0.0 && a.radius != 0.0 && b.radius != 0.0
    ensures Momentum(Collide(a, b, distance).0, Collide(a, b, distance).1) == Momentum(a, b)
  {
    if NormalSpeed(a, b, distance) <= 0.0 {
      var imp := Scale(Normal(a, b, distance), ImpulseScalar(a, b, distance));
      CollideVelocities(a, b, distance, imp);
      CollideFrame(a, b, distance);
      MassPositive(a);
      MassPositive(b);
      ExchangeCancels(a.velocity, b.velocity, imp, Mass(a), Mass(b));
    }
  }

  lemma ExchangeCancels(v1: Vec, v2: Vec, imp: Vec, m1: real, m2: real)
    requires m1 != 0.0 && m2 != 0.0
    ensures Add(Scale(Push(v1, imp, m1), m1), Scale(Pull(v2, imp, m2), m2))
         == Add(Scale(v1, m1), Scale(v2, m2))
  {
    assert (v1.x + imp.x / m1) * m1 == v1.x * m1 + imp.x;
    assert (v1.y + imp.y / m1) * m1 == v1.y * m1 + imp.y;
    assert (v2.x - imp.x / m2) * m2 == v2.x * m2 - imp.x;
    assert (v2.y - imp.y / m2) * m2 == v2.y * m2 - imp.y;
  }

  /** For the true distance the exchange reverses the normal component of the relative velocity. */
  lemma CollideReversesNormalSpeed(a: Transform, b: Transform, distance: real)
    requires distance > 0.0 && a.radius != 0.0 && b.radius != 0.0
    requires distance * distance == SqDist(a.position, b.position)
    requires NormalSpeed(a, b, distance) <= 0.0
    ensures var (a', b') := Collide(a, b, distance);
      Dot(Sub(b'.velocity, a'.velocity), Normal(a, b, distance)) == -NormalSpeed(a, b, distance)
  {
    var n := Normal(a, b, distance);
    var imp := Scale(n, ImpulseScalar(a, b, distance));
    CollideVelocities(a, b, distance, imp);
    NormalIsUnit(a, b, distance);
    Reflects(a.velocity, b.velocity, n, NormalSpeed(a, b, distance), Mass(a), Mass(b), ImpulseScalar(a, b, distance));
  }

  lemma Reflects(v1: Vec, v2: Vec, n: Vec, s: real, m1: real, m2: real, j: real)
    requires m1 > 0.0 && m2 > 0.0 && IsUnit(n) && s == Dot(Sub(v2, v1), n)
    requires j == (2.0 * s) / (1.0 / m1 + 1.0 / m2)
    ensures Dot(Sub(Pull(v2, Scale(n, j), m2), Push(v1, Scale(n, j), m1)), n) == -s
  {
    var inv := 1.0 / m1 + 1.0 / m2;
    ProductPositive(1.0 / m1, m1, 1.0);
    ProductPositive(1.0 / m2, m2, 1.0);
    assert j * inv == 2.0 * s;
    var imp := Scale(n, j);
    assert imp.x / m1 + imp.x / m2 == n.x * (j * inv);
    assert imp.y / m1 + imp.y / m2 == n.y * (j * inv);
    var rel := Sub(v2, v1);
    var after := Sub(Pull(v2, imp, m2), Push(v1, imp, m1));
    assert after.x == rel.x - n.x * (2.0 * s);
    assert after.y == rel.y - n.y * (2.0 * s);
    assert Dot(after, n) == Dot(rel, n) - (2.0 * s) * (n.x * n.x + n.y * n.y);
  }

  /** The positions `collision` writes when the circles still overlap. */
  lemma CollidePositions(a: Transform, b: Transform, distance: real, n: Vec, overlap: real)
    requires distance > 0.0 && a.radius != 0.0 && b.radius != 0.0
    requires NormalSpeed(a, b, distance) <= 0.0
    requires n == Normal(a, b, distance) && overlap == a.radius + b.radius - distance
    ensures Mass(a) + Mass(b) > 0.0
    ensures var k1, k2 := Mass(b) / (Mass(a) + Mass(b)), Mass(a) / (Mass(a) + Mass(b));
      overlap > 0.0 ==>
        Collide(a, b, distance).0.position == Vec(a.position.x - n.x * overlap * k1, a.position.y - n.y * overlap * k1)
        && Collide(a, b, distance).1.position == Vec(b.position.x + n.x * overlap * k2, b.position.y + n.y * overlap * k2)
  {
    MassPositive(a);
    MassPositive(b);
  }

  /**
   * While the circles overlap, the positional correction pushes them apart along
   * the normal until their separation is exactly the sum of the radii.
   */
  lemma CollideSeparates(a: Transform, b: Transform, distance: real)
    requires distance > 0.0 && a.radius != 0.0 && b.radius != 0.0
    requires distance * distance == SqDist(a.position, b.position)
    requires NormalSpeed(a, b, distance) <= 0.0 && distance < a.radius + b.radius
    ensures var r := Collide(a, b, distance);
      Dot(Sub(r.1.position, r.0.position), Normal(a, b, distance)) == a.radius + b.radius
  {
    var n := Normal(a, b, distance);
    var overlap := a.radius + b.radius - distance;
    CollidePositions(a, b, distance, n, overlap);
    NormalIsUnit(a, b, distance);
    SeparationAlongNormal(a, b, distance);
    var r := Collide(a, b, distance);
    PushApart(a.position, b.position, r.0.position, r.1.position, n, overlap, Mass(a), Mass(b));
  }

  lemma PushApart(p1: Vec, p2: Vec, q1: Vec, q2: Vec, n: Vec, overlap: real, m1: real, m2: real)
    requires m1 + m2 > 0.0 && IsUnit(n)
    requires var k1, k2 := m2 / (m1 + m2), m1 / (m1 + m2);
      q1 == Vec(p1.x - n.x * overlap * k1, p1.y - n.y * overlap * k1)
      && q2 == Vec(p2.x + n.x * overlap * k2, p2.y + n.y * overlap * k2)
    ensures Dot(Sub(q2, q1), n) == Dot(Sub(p2, p1), n) + overlap
  {
    var k1, k2 := m2 / (m1 + m2), m1 / (m1 + m2);
    assert k1 + k2 == 1.0;
    assert n.x * overlap * k2 + n.x * overlap * k1 == n.x * overlap;
    assert n.y * overlap * k2 + n.y * overlap * k1 == n.y * overlap;
  }

  /** Once the circles no longer overlap, only the velocities change. */
  lemma CollideKeepsPositionsApart(a: Transform, b: Transform, distance: real)
    requires distance > 0.0 && a.radius != 0.0 && b.radius != 0.0
    requires distance >= a.radius + b.radius
    ensures Collide(a, b, distance).0.position == a.position
    ensures Collide(a, b, distance).1.position == b.position
  {
  }

  /** The complete result of `collision` when the circles overlap after the exchange. */
  lemma CollideOverlapping(a: Transform, b: Transform, distance: real, imp: Vec, n: Vec, overlap: real, p1: Vec, p2: Vec)
    requires distance > 0.0 && a.radius != 0.0 && b.radius != 0.0
    requires NormalSpeed(a, b, distance) <= 0.0
    requires imp == Scale(Normal(a, b, distance), ImpulseScalar(a, b, distance))
    requires n == Normal(a, b, distance) && overlap == a.radius + b.radius - distance && overlap > 0.0
    requires Mass(a) + Mass(b) != 0.0
    requires p1 == Vec(a.position.x - n.x * overlap * (Mass(b) / (Mass(a) + Mass(b))),
                       a.position.y - n.y * overlap * (Mass(b) / (Mass(a) + Mass(b))))
    requires p2 == Vec(b.position.x + n.x * overlap * (Mass(a) / (Mass(a) + Mass(b))),
                       b.position.y + n.y * overlap * (Mass(a) / (Mass(a) + Mass(b))))
    ensures Mass(a) > 0.0 && Mass(b) > 0.0
    ensures Collide(a, b, distance)
         == (a.(velocity := Push(a.velocity, imp, Mass(a)), position := p1),
             b.(velocity := Pull(b.velocity, imp, Mass(b)), position := p2))
  {
    CollideVelocities(a, b, distance, imp);
    CollidePositions(a, b, distance, n, overlap);
    CollideFrame(a, b, distance);
  }

  /** The extension object, bound to its entity's transformable extension. */
  class CollisionalExtension {
    const name: string
    const transformable: TransformableExtension

    constructor (transformable: TransformableExtension)
      ensures this.transformable == transformable && name == "collisional"
    {
      name := "collisional";
      this.transformable := transformable;
    }

    /**
     * `intersects`, given the centre distance the source obtains from
     * `Vector.dist` (a square root, supplied here).
     */
    method Intersects(other: CollisionalExtension, distance: real) returns (hit: bool)
      requires distance >= 0.0
      requires distance * distance == SqDist(transformable.position.Value(), other.transformable.position.Value())
      ensures hit == Overlaps(transformable.Value(), other.transformable.Value())
    {
      hit := distance < transformable.radius + other.transformable.radius;
      OverlapsIffDistance(transformable.Value(), other.transformable.Value(), distance);
    }

    /**
     * `collision`: both bodies take the new states of `Collide`. The distance
     * is the square root the source computes from the two positions.
     */
    method Collision(other: CollisionalExtension, distance: real)
      requires transformable != other.transformable
      requires transformable.position != other.transformable.position
      requires transformable.radius != 0.0 && other.transformable.radius != 0.0
      requires distance > 0.0
      requires distance * distance == SqDist(transformable.position.Value(), other.transformable.position.Value())
      modifies transformable, transformable.position, other.transformable, other.transformable.position
      ensures (transformable.Value(), other.transformable.Value())
           == Collide(old(transformable.Value()), old(other.transformable.Value()), distance)
    {
      var me, it := transformable, other.transformable;
      var a, b := me.Value(), it.Value();
      var n := Normal(a, b, distance);
      if NormalSpeed(a, b, distance) > 0.0 {
        return;
      }
      MassPositive(a);
      MassPositive(b);
      var m1, m2 := Mass(a), Mass(b);
      var imp := Scale(n, ImpulseScalar(a, b, distance));
      var v1, v2 := Push(a.velocity, imp, m1), Pull(b.velocity, imp, m2);
      var self := me.SetVelocity(v1.x, v1.y);
      self := it.SetVelocity(v2.x, v2.y);
      var overlap := a.radius + b.radius - distance;
      if overlap > 0.0 {
        var pushRatio1, pushRatio2 := m2 / (m1 + m2), m1 / (m1 + m2);
        var p1 := Vec(a.position.x - n.x * overlap * pushRatio1, a.position.y - n.y * overlap * pushRatio1);
        var p2 := Vec(b.position.x + n.x * overlap * pushRatio2, b.position.y + n.y * overlap * pushRatio2);
        CollideOverlapping(a, b, distance, imp, n, overlap, p1, p2);
        self := me.SetPosition(p1.x, p1.y);
        self := it.SetPosition(p2.x, p2.y);
      } else {
        CollideVelocities(a, b, distance, imp);
        CollideFrame(a, b, distance);
        CollideKeepsPositionsApart(a, b, distance);
      }
    }
  }
}
