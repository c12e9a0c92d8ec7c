/**
 * The asteroid (src/game2/entities/asteroid.entity.ts): a spinning rock that
 * coasts at a speed set by its size and splits in two when shot.
 */
module Asteroids {
  import opened Wrappers
  import opened Vectors
  import opened Reals
  import opened Chance
  import opened Transformable
  import opened Collisional
  import Entities
  import Config

  const Z_INDEX: int := 1
  /** Below this radius an asteroid no longer splits. */
  const MIN_SPLIT_RADIUS: real := 20.0
  /** The pieces' new speed: 1.5 times the old one, at most 10. */
  const SPLIT_SPEEDUP: real := 1.5
  const SPLIT_MAX_SPEED: real := 10.0
  /** `cos(PI / 5)` and `sin(PI / 5)` to double precision: the pieces' velocity tilt. */
  const TILT_COS: real := 0.8090169943749475
  const TILT_SIN: real := 0.5877852522924731

  /** The entity keeps its own `radius` beside the transformable's. */
  datatype AsteroidState = AsteroidState(t: Transform, radius: real)

  /** `args.vel || Vector.random2D().mult(speed)`: a given velocity, or a drawn direction. */
  datatype Launch = Given(velocity: Vec) | Drawn(direction: Direction)

  /** `map(radius, 20, 80, 2.5, 1.2)`: the smaller the rock, the faster it flies. */
  function Speed(radius: real): real {
    MapRange(radius, 20.0, 80.0, 2.5, 1.2)
  }

  /** The constructor; `spin` is the draw of `random(-0.03, 0.03)`. */
  function Create(x: real, y: real, radius: real, launch: Launch, spin: Fraction): AsteroidState {
    var v := if launch.Given? then launch.velocity else Scale(launch.direction, Speed(radius));
    AsteroidState(Default().(position := Vec(x, y), velocity := v, friction := 1.0,
                             rotation := Uniform(spin, -0.03, 0.03), radius := radius),
                  radius)
  }

  /** `update`: the extensions' update. */
  function Step(a: AsteroidState, width: real, height: real): AsteroidState {
    a.(t := Integrate(a.t, width, height))
  }

  /** The extension list of an asteroid, in attachment order. */
  function Extensions(a: AsteroidState): seq<Entities.Extension> {
    [Entities.TransformableExt(a.t), Entities.CollisionalExt]
  }

  /** What a piece consumes: the direction of its position offset, then its spin. */
  datatype SplitDraw = SplitDraw(offset: Direction, spin: Fraction)

  /**
   * `oldMag` is the square root in `asteroidVel.mag()`, `k1` and `k2` the factors
   * of `setMag(oldMag * 1.5)` and `limit(10)` applied to `asteroidVel + impactVel`.
   */
  predicate Rescaled(asteroidVel: Vec, impactVel: Vec, oldMag: real, k1: real, k2: real) {
    var combined := Add(asteroidVel, impactVel);
    oldMag >= 0.0 && oldMag * oldMag == SqLen(asteroidVel)
    && SetMagFactor(combined, oldMag * SPLIT_SPEEDUP, k1)
    && LimitFactor(Scale(combined, k1), SPLIT_MAX_SPEED, k2)
  }

  /** `fromAngle(PI / 5)` for the first piece, `fromAngle(-PI / 5)` for the second. */
  function Tilt(k: int): Vec {
    if k == 0 then Vec(TILT_COS, TILT_SIN) else Vec(TILT_COS, -TILT_SIN)
  }

  /** Piece `k`: half the radius, offset by that much in a drawn direction, the combined velocity tilted. */
  function Piece(a: AsteroidState, combined: Vec, k: int, d: SplitDraw): AsteroidState {
    var newSize := a.radius / 2.0;
    var offset := Scale(d.offset, newSize);
    Create(a.t.position.x + offset.x, a.t.position.y + offset.y, newSize,
           Given(Add(combined, Tilt(k))), d.spin)
  }

  /**
   * `split(impactEntity)`: no pieces when the impacting entity has no
   * transformable (the thrown lookup error is caught) or the transformable's
   * radius is below 20; otherwise two.
   */
  function Fragments(a: AsteroidState, impact: seq<Entities.Extension>, oldMag: real, k1: real, k2: real,
                 draws: int -> SplitDraw): seq<AsteroidState> {
    var found := Entities.Find(impact, Entities.TransformableClass);
    if found.Err? || !found.value.TransformableExt? || a.t.radius < MIN_SPLIT_RADIUS then []
    else
      var combined := Combined(a, found.value.transform, k1, k2);
      seq(Config.ASTEROID_SPLIT_COUNT, k => Piece(a, combined, k, draws(k)))
  }

  /** The velocity both pieces share before the tilt; `it` is the impacting entity's transformable. */
  function Combined(a: AsteroidState, it: Transform, k1: real, k2: real): Vec {
    Scale(Scale(Add(a.t.velocity, it.velocity), k1), k2)
  }

  // ---------------------------------------------------------------- lemmas

  /** A drawn velocity has the size-dependent speed; the spin lies in [-0.03, 0.03). */
  lemma CreateMotion(x: real, y: real, radius: real, launch: Launch, spin: Fraction)
    ensures var a := Create(x, y, radius, launch, spin);
      a.t.position == Vec(x, y) && a.t.radius == radius && a.radius == radius && a.t.friction == 1.0
      && -0.03 <= a.t.rotation < 0.03
      && (launch.Given? ==> a.t.velocity == launch.velocity)
      && (launch.Drawn? ==> SqLen(a.t.velocity) == Speed(radius) * Speed(radius))
  {
    UniformInRange(spin, -0.03, 0.03);
    if launch.Drawn? {
      SqLenScale(launch.direction, Speed(radius));
    }
  }

  /** The speed falls linearly from 2.5 at radius 20 to 1.2 at radius 80. */
  lemma SmallerIsFaster(r1: real, r2: real)
    ensures Speed(20.0) == 2.5 && Speed(80.0) == 1.2
    ensures r1 < r2 ==> Speed(r1) > Speed(r2)
  {
  }

  /** Friction 1 and no force: an asteroid coasts at constant velocity and stays within the margins. */
  lemma {:induction false} AsteroidCoasts(a: AsteroidState, width: real, height: real)
    requires a.t.friction == 1.0 && a.t.acceleration == Zero()
    ensures Step(a, width, height).t.velocity == a.t.velocity
    ensures Step(a, width, height).t.acceleration == Zero()
    ensures Step(a, width, height).radius == a.radius
  {
    IntegrateCoasting(a.t, width, height);
  }

  /** A split yields two pieces exactly when the impact has a transformable and the radius is at least 20. */
  lemma SplitArity(a: AsteroidState, impact: seq<Entities.Extension>, oldMag: real, k1: real, k2: real,
                   draws: int -> SplitDraw)
    ensures |Fragments(a, impact, oldMag, k1, k2, draws)| == 0 || |Fragments(a, impact, oldMag, k1, k2, draws)| == 2
    ensures |Fragments(a, impact, oldMag, k1, k2, draws)| == 2
      <==> Entities.Includes(impact, Entities.TransformableClass) && a.t.radius >= 20.0
  {
    Entities.HasIffFound(impact, Entities.TransformableClass);
    if Entities.Find(impact, Entities.TransformableClass).Ok? {
      Entities.GetExtensionClass(impact, Entities.TransformableClass);
    }
  }

  /**
   * Each piece has half the parent's radius, starts that far from the parent's
   * centre, and moves at the shared velocity tilted by plus or minus PI/5.
   */
  lemma SplitPieces(a: AsteroidState, it: Transform, rest: seq<Entities.Extension>, oldMag: real, k1: real, k2: real,
                    draws: int -> SplitDraw, k: int)
    requires a.t.radius >= 20.0 && 0 <= k < 2
    ensures var pieces := Fragments(a, [Entities.TransformableExt(it)] + rest, oldMag, k1, k2, draws);
      |pieces| == 2
      && pieces[k].radius == a.radius / 2.0 && pieces[k].t.radius == a.radius / 2.0
      && SqDist(a.t.position, pieces[k].t.position) == (a.radius / 2.0) * (a.radius / 2.0)
      && pieces[k].t.velocity == Add(Combined(a, it, k1, k2), Tilt(k))
      && pieces[k].t.friction == 1.0
  {
    var d := draws(k);
    var offset := Scale(d.offset, a.radius / 2.0);
    var p := Piece(a, Combined(a, it, k1, k2), k, d);
    assert Sub(p.t.position, a.t.position) == offset;
    SqLenScale(d.offset, a.radius / 2.0);
  }

  /**
   * The shared velocity is never faster than 10, and it is 1.5 times the
   * parent's speed whenever that stays within 10 (and the velocities do not cancel).
   */
  lemma SplitSpeed(a: AsteroidState, it: Transform, oldMag: real, k1: real, k2: real)
    requires Rescaled(a.t.velocity, it.velocity, oldMag, k1, k2)
    ensures SqLen(Combined(a, it, k1, k2)) <= 100.0
    ensures SqLen(Add(a.t.velocity, it.velocity)) > 0.0 && 2.25 * SqLen(a.t.velocity) <= 100.0
      ==> SqLen(Combined(a, it, k1, k2)) == 2.25 * SqLen(a.t.velocity)
  {
    var combined := Add(a.t.velocity, it.velocity);
    SetMagLength(combined, oldMag * 1.5, k1);
    LimitLength(Scale(combined, k1), 10.0, k2);
    assert (oldMag * 1.5) * (oldMag * 1.5) == 2.25 * (oldMag * oldMag);
  }

  /** Pieces of a rock smaller than 40 are below 20 and never split again. */
  lemma SmallPiecesStay(a: AsteroidState, impact: seq<Entities.Extension>, oldMag: real, k1: real, k2: real,
                        draws: int -> SplitDraw, later: seq<Entities.Extension>, m: real, j1: real, j2: real,
                        draws': int -> SplitDraw)
    requires a.radius < 40.0
    ensures forall p :: p in Fragments(a, impact, oldMag, k1, k2, draws) ==> Fragments(p, later, m, j1, j2, draws') == []
  {
    var pieces := Fragments(a, impact, oldMag, k1, k2, draws);
    forall p | p in pieces
      ensures Fragments(p, later, m, j1, j2, draws') == []
    {
      var k :| 0 <= k < |pieces| && pieces[k] == p;
      var found := Entities.Find(impact, Entities.TransformableClass);
      assert p == Piece(a, Combined(a, found.value.transform, k1, k2), k, draws(k));
    }
  }

  /** The asteroid object, with its transformable and collisional extensions. */
  class Asteroid {
    const kind: Entities.Kind
    const zIndex: int
    const radius: real
    const transformable: TransformableExtension
    const collisional: CollisionalExtension

    function View(): AsteroidState
      reads this, transformable, transformable.position
    {
      AsteroidState(transformable.Value(), radius)
    }

    constructor (x: real, y: real, radius: real, launch: Launch, spin: Fraction)
      ensures kind == Entities.Asteroid && zIndex == Z_INDEX
      ensures View() == Create(x, y, radius, launch, spin)
      ensures collisional.transformable == transformable
      ensures fresh(transformable) && fresh(transformable.position)
    {
      kind := Entities.Asteroid;
      zIndex := Z_INDEX;
      this.radius := radius;
      var v := if launch.Given? then launch.velocity else Scale(launch.direction, Speed(radius));
      var t := new TransformableExtension();
      var self := t.SetPosition(x, y);
      self := self.SetVelocity(v.x, v.y);
      self := self.SetFriction(1.0);
      self := self.SetRotationSpeed(Uniform(spin, -0.03, 0.03));
      self := self.SetRadius(radius);
      transformable := t;
      collisional := new CollisionalExtension(t);
    }

    method Update(width: real, height: real)
      modifies transformable, transformable.position
      ensures View() == Step(old(View()), width, height)
    {
      transformable.Update(width, height);
    }

    /** `split`, creating the pieces as new objects. */
    method Split(impact: Entities.Entity, oldMag: real, k1: real, k2: real, draws: int -> SplitDraw)
      returns (pieces: seq<Asteroid>)
      ensures |pieces| == |Fragments(View(), impact.extensions, oldMag, k1, k2, draws)|
      ensures forall i :: 0 <= i < |pieces| ==>
        fresh(pieces[i].transformable) && pieces[i].View() == Fragments(View(), impact.extensions, oldMag, k1, k2, draws)[i]
    {
      pieces := [];
      var found := impact.GetExtension(Entities.TransformableClass);
      Entities.GetExtensionIsFirst(impact.extensions, Entities.TransformableClass);
      if found.Err? || !found.value.TransformableExt? {
        return;
      }
      if transformable.radius < MIN_SPLIT_RADIUS {
        return;
      }
      var combined := Scale(Scale(Add(transformable.velocity, found.value.transform.velocity), k1), k2);
      var k := 0;
      while k < Config.ASTEROID_SPLIT_COUNT
        invariant 0 <= k <= Config.ASTEROID_SPLIT_COUNT
        invariant |pieces| == k
        invariant forall i :: 0 <= i < k ==>
          fresh(pieces[i].transformable) && pieces[i].View() == Piece(View(), combined, i, draws(i))
      {
        var d := draws(k);
        var offset := Scale(d.offset, radius / 2.0);
        var piece := new Asteroid(transformable.position.x + offset.x, transformable.position.y + offset.y,
                                  radius / 2.0, Given(Add(combined, Tilt(k))), d.spin);
        pieces := pieces + [piece];
        k := k + 1;
      }
    }

    predicate ShouldRemove()
    {
      false
    }
  }
}
