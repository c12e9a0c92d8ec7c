/**
 * The homing rocket (src/game2/entities/rocket.entity.ts): it sits on its
 * launch pad for three seconds, steering towards the live ship, then flies,
 * trailing flames, until its lifespan runs out.
 */
module Rockets {
  import opened Wrappers
  import opened Vectors
  import opened Chance
  import opened Transformable
  import opened Collisional
  import Flames
  import opened Flammable
  import Entities
  import Config

  const RADIUS: real := 6.0
  /** Frames the rocket waits before it may move: `60 * 3`. */
  const LAUNCH_DELAY: int := 60 * 3
  const FLAME_COUNT: int := 5
  /** The three flame colours of the rocket's flammable extension. */
  const FLAME_COLORS: nat := 3
  /** The rocket registers under the flame tag, not the rocket tag. */
  const KIND: Entities.Kind := Entities.Flame

  datatype RocketState = RocketState(t: Transform, lifespan: int, allowLaunch: bool)

  /** What the rocket sees of the ship in one frame. */
  datatype Target = NoShip | DeadShip | LiveShip(position: Vec)

  /** A steering correction after `limit(trackingForce)`. */
  type Steer = v: Vec | SqLen(v) <= Config.ROCKET_STEER_FORCE * Config.ROCKET_STEER_FORCE witness Vec(0.0, 0.0)

  /** The inputs of one `update`: the ship as seen, and the correction `tracking` computes when it is alive. */
  datatype Frame = Frame(target: Target, steer: Steer)

  /** The constructor: radius 6 at the given point; `lifespan || 850`, so a missing or zero lifespan gives 850. */
  function Create(x: real, y: real, lifespan: Option<int>): RocketState {
    RocketState(Default().(position := Vec(x, y), radius := RADIUS),
                if lifespan.None? || lifespan.value == 0 then Config.ROCKET_LIFESPAN else lifespan.value,
                false)
  }

  /**
   * `k1` and `k2` are the square-root factors of `desired.setMag(maxSpeed)` and
   * `steer.limit(trackingForce)` in `tracking`; they exist for every state.
   */
  predicate Guided(position: Vec, velocity: Vec, target: Vec, k1: real, k2: real) {
    var toTarget := Sub(target, position);
    SetMagFactor(toTarget, Config.ROCKET_MAX_SPEED, k1)
    && LimitFactor(Sub(Scale(toTarget, k1), velocity), Config.ROCKET_STEER_FORCE, k2)
  }

  /**
   * The correction of `tracking`: the desired velocity points at the target at
   * speed 7, and the rocket turns towards it by at most 0.08 per frame; a
   * correction within that bound reaches the desired velocity at once.
   */
  function SteerToward(position: Vec, velocity: Vec, target: Vec, k1: real, k2: real): (r: Steer)
    requires Guided(position, velocity, target, k1, k2)
    ensures var desired := Scale(Sub(target, position), k1);
      SqLen(Sub(desired, velocity)) <= Config.ROCKET_STEER_FORCE * Config.ROCKET_STEER_FORCE
      ==> Add(velocity, r) == desired
  {
    var desired := Scale(Sub(target, position), k1);
    LimitLength(Sub(desired, velocity), Config.ROCKET_STEER_FORCE, k2);
    Scale(Sub(desired, velocity), k2)
  }

  /** The desired velocity of `tracking` has speed 7 unless the rocket sits on the target. */
  lemma DesiredSpeed(position: Vec, velocity: Vec, target: Vec, k1: real, k2: real)
    requires Guided(position, velocity, target, k1, k2)
    ensures SqLen(Sub(target, position)) > 0.0 ==>
      SqLen(Scale(Sub(target, position), k1)) == Config.ROCKET_MAX_SPEED * Config.ROCKET_MAX_SPEED
    ensures SqLen(Sub(target, position)) == 0.0 ==> Scale(Sub(target, position), k1) == Zero()
  {
    SetMagLength(Sub(target, position), Config.ROCKET_MAX_SPEED, k1);
  }

  /**
   * `update`: steer when the ship is alive; move (extensions' update) only once
   * launched and while a ship exists; spend a frame; latch the launch once fewer
   * than 670 frames remain.
   */
  function Step(s: RocketState, f: Frame, width: real, height: real): RocketState {
    var t1 := if f.target.LiveShip? then s.t.(velocity := Add(s.t.velocity, f.steer)) else s.t;
    var t2 := if s.allowLaunch && !f.target.NoShip? then Integrate(t1, width, height) else t1;
    var life := s.lifespan - 1;
    RocketState(t2, life, s.allowLaunch || life < Config.ROCKET_LIFESPAN - LAUNCH_DELAY)
  }

  /**
   * The flame burst of that `update`: emitted from `tracking` when the ship is
   * alive and the rocket is launched, at `r + 2` behind the rocket (`back` is
   * the direction opposite the steered velocity, `velHeading` that velocity's
   * angle).
   */
  function Exhaust(s: RocketState, f: Frame, back: Direction, velHeading: real): Option<Emitter> {
    if f.target.LiveShip? && s.allowLaunch then
      Some(Emitter(Add(s.t.position, Scale(back, s.t.radius + 2.0)), Add(s.t.velocity, f.steer), velHeading))
    else None
  }

  /** The flames a burst creates, five in the rocket's three colours. */
  function ExhaustFlames(e: Option<Emitter>, draws: int -> FlameDraw): seq<Flames.FlameState> {
    if e.Some? then Burst(e.value.position, e.value.velocity, e.value.heading, FLAME_COUNT, FLAME_COLORS, draws) else []
  }

  /** `shouldRemove`. */
  predicate Expired(s: RocketState) {
    s.lifespan <= 0
  }

  function Steps(s: RocketState, frames: seq<Frame>, width: real, height: real): RocketState
    decreases |frames|
  {
    if |frames| == 0 then s else Steps(Step(s, frames[0], width, height), frames[1..], width, height)
  }

  /** Every update spends exactly one frame, whatever the ship does. */
  lemma {:induction false} StepsLifespan(s: RocketState, frames: seq<Frame>, width: real, height: real)
    ensures Steps(s, frames, width, height).lifespan == s.lifespan - |frames|
    decreases |frames|
  {
    if |frames| > 0 {
      StepsLifespan(Step(s, frames[0], width, height), frames[1..], width, height);
    }
  }

  /** A new rocket is removed after exactly its lifespan in updates (850 unless one is given). */
  lemma RocketLifetime(x: real, y: real, lifespan: Option<int>, frames: seq<Frame>, width: real, height: real)
    ensures Expired(Steps(Create(x, y, lifespan), frames, width, height))
      <==> |frames| >= if lifespan.None? || lifespan.value == 0 then 850 else lifespan.value
  {
    StepsLifespan(Create(x, y, lifespan), frames, width, height);
  }

  /** The launch is a latch: it is on after some updates iff it was on, or fewer than 670 frames remain. */
  lemma {:induction false} LaunchLatch(s: RocketState, frames: seq<Frame>, width: real, height: real)
    ensures Steps(s, frames, width, height).allowLaunch
      == (s.allowLaunch || (|frames| > 0 && s.lifespan - |frames| < 670))
    decreases |frames|
  {
    if |frames| > 0 {
      LaunchLatch(Step(s, frames[0], width, height), frames[1..], width, height);
    }
  }

  /** A rocket with the default lifespan is cleared for launch from its 181st update on. */
  lemma DefaultLaunch(x: real, y: real, frames: seq<Frame>, width: real, height: real)
    ensures Steps(Create(x, y, None), frames, width, height).allowLaunch <==> |frames| >= 181
  {
    LaunchLatch(Create(x, y, None), frames, width, height);
  }

  /** Until the launch latch is set the rocket only turns: its position stays on the pad. */
  lemma {:induction false} Grounded(s: RocketState, frames: seq<Frame>, width: real, height: real)
    requires !s.allowLaunch && s.lifespan - |frames| + 1 >= 670
    ensures Steps(s, frames, width, height).t.position == s.t.position
    decreases |frames|
  {
    if |frames| > 1 {
      Grounded(Step(s, frames[0], width, height), frames[1..], width, height);
    }
  }

  /** So a default rocket does not move during its first 181 updates. */
  lemma DefaultRocketWaits(x: real, y: real, frames: seq<Frame>, width: real, height: real)
    requires |frames| <= 181
    ensures Steps(Create(x, y, None), frames, width, height).t.position == Vec(x, y)
  {
    Grounded(Create(x, y, None), frames, width, height);
  }

  /** Flames come exactly from updates that track a live ship after launch, `r + 2` behind the rocket. */
  lemma ExhaustBehind(s: RocketState, f: Frame, back: Direction, velHeading: real)
    ensures Exhaust(s, f, back, velHeading).Some? <==> f.target.LiveShip? && s.allowLaunch
    ensures Exhaust(s, f, back, velHeading).Some? ==>
      SqDist(s.t.position, Exhaust(s, f, back, velHeading).value.position)
        == (s.t.radius + 2.0) * (s.t.radius + 2.0)
      && Exhaust(s, f, back, velHeading).value.velocity == Add(s.t.velocity, f.steer)
  {
    var at := Add(s.t.position, Scale(back, s.t.radius + 2.0));
    assert Sub(at, s.t.position) == Scale(back, s.t.radius + 2.0);
    SqLenScale(back, s.t.radius + 2.0);
  }

  /** The frame one `update` runs, from the ship as seen and the two `tracking` factors. */
  function FrameOf(s: RocketState, target: Target, k1: real, k2: real): Frame
    requires target.LiveShip? ==> Guided(s.t.position, s.t.velocity, target.position, k1, k2)
  {
    Frame(target, if target.LiveShip? then SteerToward(s.t.position, s.t.velocity, target.position, k1, k2)
                  else Vec(0.0, 0.0))
  }

  /** The rocket object, with its transformable, collisional and flammable extensions. */
  class Rocket {
    const kind: Entities.Kind
    const transformable: TransformableExtension
    const collisional: CollisionalExtension
    const flammable: FlammableExtension
    var lifespan: int
    var allowLaunch: bool

    predicate Valid()
      reads this
    {
      collisional.transformable == transformable
      && flammable.count == FLAME_COUNT && flammable.colorCount == FLAME_COLORS
    }

    function View(): RocketState
      reads this, transformable, transformable.position
    {
      RocketState(transformable.Value(), lifespan, allowLaunch)
    }

    constructor (x: real, y: real, lifespan: Option<int>)
      ensures Valid() && kind == KIND
      ensures View() == Create(x, y, lifespan)
      ensures fresh(transformable) && fresh(transformable.position)
    {
      kind := KIND;
      this.lifespan := if lifespan.None? || lifespan.value == 0 then Config.ROCKET_LIFESPAN else lifespan.value;
      allowLaunch := false;
      var t := new TransformableExtension();
      var self := t.SetPosition(x, y);
      self := self.SetRadius(RADIUS);
      transformable := t;
      collisional := new CollisionalExtension(t);
      flammable := new FlammableExtension(FLAME_COUNT, FLAME_COLORS);
    }

    /** `update`, returning the flames `tracking` created (the caller adds them to the entity list). */
    method Update(target: Target, k1: real, k2: real, back: Direction, velHeading: real,
                  draws: int -> FlameDraw, width: real, height: real)
      returns (flames: seq<Flames.FlameState>)
      requires Valid()
      requires target.LiveShip? ==>
        Guided(transformable.position.Value(), transformable.velocity, target.position, k1, k2)
      modifies this, transformable, transformable.position
      ensures View() == Step(old(View()), FrameOf(old(View()), target, k1, k2), width, height)
      ensures flames == ExhaustFlames(Exhaust(old(View()), FrameOf(old(View()), target, k1, k2), back, velHeading), draws)
    {
      flames := [];
      if target.LiveShip? {
        var steer := SteerToward(transformable.position.Value(), transformable.velocity, target.position, k1, k2);
        var self := transformable.ApplyImpulse(steer);
        if allowLaunch {
          var at := Add(transformable.position.Value(), Scale(back, transformable.radius + 2.0));
          flames := flammable.CreateFlames(at, transformable.velocity, velHeading, draws);
        }
      }
      if allowLaunch && !target.NoShip? {
        transformable.Update(width, height);
      }
      lifespan := lifespan - 1;
      if lifespan < Config.ROCKET_LIFESPAN - LAUNCH_DELAY {
        allowLaunch := true;
      }
    }

    predicate ShouldRemove()
      reads this
    {
      lifespan <= 0
    }
  }
}
