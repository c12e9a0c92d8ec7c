/**
 * The random values the manager consumes, keyed by the identity of the
 * object each one is drawn for, and the objects they make
 * (entities.manager.ts, flammable.ext.ts).
 */
module Draws {
  import opened Wrappers
  import opened Vectors
  import opened Reals
  import opened Chance
  import N = Numerics
  import Flammable
  import Asteroids
  import Rockets
  import Sparks
  import Transformable

  /** `createAsteroid`: position, radius, then the constructor's direction and spin. */
  datatype AsteroidDice = AsteroidDice(x: Fraction, y: Fraction, radius: Fraction, direction: Direction, spin: Fraction)

  /** `createRocket`: the position. */
  datatype RocketDice = RocketDice(x: Fraction, y: Fraction)

  /** One flame of `createFlames`: the offset angle, then the draws `Flammable.FlameDraw` describes. */
  datatype FlameDice = FlameDice(angle: Fraction, magnitude: Fraction, color: Fraction,
                                 heading: Fraction, shrink: Fraction, size: Fraction)

  /** One spark of `createExplosion`: the angle spread, the speed and the spin. */
  datatype SparkDice = SparkDice(spread: Fraction, speed: Fraction, spin: Fraction)

  /**
   * Every draw, by the identity of the object it is consumed for: identities
   * are never reused, so one `Dice` serves a whole game.
   */
  datatype Dice = Dice(asteroid: int -> AsteroidDice, rocket: int -> RocketDice, flame: int -> FlameDice,
                       spark: int -> SparkDice, piece: int -> Asteroids.SplitDraw)

  const SPAWN_RADIUS_MIN: real := 30.0
  const SPAWN_RADIUS_MAX: real := 50.0

  /** `createAsteroid`: anywhere on the canvas, radius in [30, 50), velocity drawn from the radius. */
  function NewAsteroid(width: real, height: real, d: AsteroidDice): Asteroids.AsteroidState {
    Asteroids.Create(Uniform(d.x, 0.0, width), Uniform(d.y, 0.0, height),
                     Uniform(d.radius, SPAWN_RADIUS_MIN, SPAWN_RADIUS_MAX), Asteroids.Drawn(d.direction), d.spin)
  }

  /** `createRocket`: anywhere on the canvas, with the default lifespan. */
  function NewRocket(width: real, height: real, d: RocketDice): Rockets.RocketState {
    Rockets.Create(Uniform(d.x, 0.0, width), Uniform(d.y, 0.0, height), None)
  }

  /** The offset direction of a flame is `fromAngle(random(-PI/3, PI/3) + heading + PI)`. */
  function FlameDrawOf(num: N.Numerics, heading: real, d: FlameDice): Flammable.FlameDraw {
    Flammable.FlameDraw(num.fromAngle(Uniform(d.angle, -N.PI / 3.0, N.PI / 3.0) + heading + N.PI),
                        d.magnitude, d.color, d.heading, d.shrink, d.size)
  }

  /** The draws of a burst whose first flame gets identity `first`. */
  function FlameDraws(num: N.Numerics, dice: Dice, first: int, heading: real): int -> Flammable.FlameDraw {
    i => FlameDrawOf(num, heading, dice.flame(first + i))
  }

  /**
   * `map(|v|, 0, |velocity|, 10, 6)`. For a motionless explosion the source
   * divides by zero and the radius comes out infinite or undefined; the model
   * gives 0, which like the source's value is removed at the first update.
   */
  function SparkSize(speed: real, top: real): real {
    if top != 0.0 then MapRange(speed, 0.0, top, 10.0, 6.0) else 0.0
  }

  /** The speed of every spark of an explosion of `count` sparks, before the 0.7 damping. */
  function SparkSpeed(count: nat, d: SparkDice): real {
    Uniform(d.speed, 0.5, 3.0) * ((count as real) / 10.0)
  }

  /** One spark: within PI/6 of the heading of `velocity`, damped by 0.7, sized by its speed. */
  function Spark(num: N.Numerics, position: Vec, velocity: Vec, count: nat, d: SparkDice): Sparks.SparkState {
    var angle := num.heading(velocity) + Uniform(d.spread, -N.PI / 6.0, N.PI / 6.0);
    var vel := Scale(Scale(num.fromAngle(angle), SparkSpeed(count, d)), 0.7);
    Sparks.Create(position, vel, SparkSize(N.Mag(num, vel), N.Mag(num, velocity)), Uniform(d.spin, 0.01, 0.1))
  }

  // ---------------------------------------------------------------- lemmas

  /** A spawned asteroid lies on the canvas, has a radius in [30, 50), and moves at the speed of its size. */
  lemma NewAsteroidRange(width: real, height: real, d: AsteroidDice)
    requires width > 0.0 && height > 0.0
    ensures var a := NewAsteroid(width, height, d);
      0.0 <= a.t.position.x < width && 0.0 <= a.t.position.y < height
      && SPAWN_RADIUS_MIN <= a.radius < SPAWN_RADIUS_MAX && a.t.radius == a.radius
      && SqLen(a.t.velocity) == Asteroids.Speed(a.radius) * Asteroids.Speed(a.radius)
  {
    UniformInRange(d.x, 0.0, width);
    UniformInRange(d.y, 0.0, height);
    UniformInRange(d.radius, SPAWN_RADIUS_MIN, SPAWN_RADIUS_MAX);
    Asteroids.CreateMotion(Uniform(d.x, 0.0, width), Uniform(d.y, 0.0, height),
                           Uniform(d.radius, SPAWN_RADIUS_MIN, SPAWN_RADIUS_MAX), Asteroids.Drawn(d.direction), d.spin);
  }

  /** A spawned rocket lies on the canvas, waits on the launch pad and has 850 frames to live. */
  lemma NewRocketRange(width: real, height: real, d: RocketDice)
    requires width > 0.0 && height > 0.0
    ensures var r := NewRocket(width, height, d);
      0.0 <= r.t.position.x < width && 0.0 <= r.t.position.y < height
      && r.lifespan == 850 && !r.allowLaunch && r.t.radius == Rockets.RADIUS
  {
    UniformInRange(d.x, 0.0, width);
    UniformInRange(d.y, 0.0, height);
  }

  /**
   * Every spark starts at the explosion's position (its own copy), spins at
   * a rate in [0.01, 0.1), and moves at 0.7 times a speed in
   * [count / 20, 3 count / 10).
   */
  lemma SparkShape(num: N.Numerics, position: Vec, velocity: Vec, count: nat, d: SparkDice)
    ensures var s := Spark(num, position, velocity, count, d);
      s.t.position == position
      && 0.01 <= s.t.rotation < 0.1
      && SqLen(s.t.velocity) == 0.49 * (SparkSpeed(count, d) * SparkSpeed(count, d))
      && (count as real) / 20.0 <= SparkSpeed(count, d)
      && (count > 0 ==> SparkSpeed(count, d) < 3.0 * (count as real) / 10.0)
  {
    var angle := num.heading(velocity) + Uniform(d.spread, -N.PI / 6.0, N.PI / 6.0);
    var u := num.fromAngle(angle);
    var sp := SparkSpeed(count, d);
    UniformInRange(d.spin, 0.01, 0.1);
    UniformInRange(d.speed, 0.5, 3.0);
    SqLenScale(u, sp);
    SqLenScale(Scale(u, sp), 0.7);
    var c := (count as real) / 10.0;
    var w := Uniform(d.speed, 0.5, 3.0);
    ProductNonNegative(w - 0.5, c, (w - 0.5) * c);
    if count > 0 {
      ProductPositive(3.0 - w, c, (3.0 - w) * c);
    }
  }

  /** A spark of a motionless explosion is born with radius 0 and goes at its first update. */
  lemma MotionlessExplosion(num: N.Numerics, position: Vec, count: nat, d: SparkDice, width: real, height: real)
    requires N.Exact(num)
    ensures Spark(num, position, Zero(), count, d).t.radius == 0.0
    ensures Sparks.Expired(Sparks.Step(Spark(num, position, Zero(), count, d), width, height))
  {
    N.MagExact(num, Zero());
    var m := N.Mag(num, Zero());
    assert m * m == 0.0;
    SquareZero(m);
  }
}
