/**
 * The player's ship (src/game2/entities/ship.entity.ts): thrust, rotation,
 * shooting with a cooldown and knockback, death, rebirth with a period of
 * invincibility.
 */
module Ships {
  import opened Wrappers
  import opened Vectors
  import opened Chance
  import opened Transformable
  import opened Collisional
  import opened Flammable
  import Entities
  import Flames
  import Bullets
  import Config

  const RADIUS: real := 24.0
  const FRICTION: real := 0.99
  const ROTATION_FRICTION: real := 0.95
  /** Milliseconds between two shots. */
  const SHOOT_COOLDOWN: real := 300.0
  const KNOCKBACK_FORCE: real := 0.5
  const FLAME_COUNT: int := 5
  /** The ship's flames come in one colour. */
  const FLAME_COLORS: nat := 1

  datatype ShipState = ShipState(t: Transform, invincible: bool, invincibleTimer: int,
                                 lastShootTime: real, isDead: bool)

  /** The constructor: centred, pointing up, radius 24, friction 0.99, invincible for 120 frames. */
  function Create(width: real, height: real): ShipState {
    ShipState(Default().(position := Vec(width / 2.0, height / 2.0), friction := FRICTION, radius := RADIUS,
                         heading := Config.UP_HEADING, rotationFriction := ROTATION_FRICTION),
              true, Config.SHIP_INVINCIBLE_TIME, 0.0, false)
  }

  /**
   * `reborn`: alive, invincible again, back at the centre pointing up, at rest
   * and not spinning. The pending acceleration is not cleared.
   */
  function Revived(s: ShipState, width: real, height: real): ShipState {
    s.(isDead := false, invincible := true, invincibleTimer := Config.SHIP_INVINCIBLE_TIME,
       t := s.t.(position := Vec(width / 2.0, height / 2.0), heading := Config.UP_HEADING,
                 velocity := Zero(), rotation := 0.0))
  }

  /** `update`: the extensions' update, then one frame off the invincibility timer. */
  function Step(s: ShipState, width: real, height: real): ShipState {
    var t := Integrate(s.t, width, height);
    if s.invincible then
      var timer := s.invincibleTimer - 1;
      s.(t := t, invincibleTimer := timer, invincible := !(timer <= 0))
    else s.(t := t)
  }

  function Steps(s: ShipState, width: real, height: real, n: nat): ShipState
    decreases n
  {
    if n == 0 then s else Steps(Step(s, width, height), width, height, n - 1)
  }

  /** `die`. */
  function Killed(s: ShipState): ShipState {
    s.(isDead := true)
  }

  /** `addRotation`: an impulse on the rotation speed. */
  function Turned(s: ShipState, rotation: real): ShipState {
    s.(t := s.t.(rotation := s.t.rotation + rotation))
  }

  /** `boost`: a force of 0.15 along `facing` (the unit vector of the heading); a dead ship ignores it. */
  function Boosted(s: ShipState, facing: Direction): ShipState {
    if s.isDead then s
    else s.(t := s.t.(acceleration := Add(s.t.acceleration, Scale(facing, Config.SHIP_BOOST_FORCE))))
  }

  /** The flame burst of `boost`, emitted `0.9 r` behind the ship. */
  function BoostExhaust(s: ShipState, facing: Direction): Option<Emitter> {
    if s.isDead then None
    else Some(Emitter(Add(s.t.position, Scale(Scale(facing, -1.0), s.t.radius * 0.9)), s.t.velocity, s.t.heading))
  }

  /** `applyKnockback`: a force of 0.5 against `facing`. */
  function KnockedBack(s: ShipState, facing: Direction): ShipState {
    s.(t := s.t.(acceleration := Add(s.t.acceleration, Scale(Scale(facing, -1.0), KNOCKBACK_FORCE))))
  }

  /**
   * `shoot` at time `now` (milliseconds): nothing when dead or within 300 ms of
   * the last shot; otherwise the shot time is recorded, the ship is knocked
   * back and a bullet leaves the nose at 10 plus the ship's velocity.
   */
  function Fired(s: ShipState, now: real, facing: Direction): (ShipState, Option<Bullets.BulletState>) {
    if s.isDead || now - s.lastShootTime < SHOOT_COOLDOWN then (s, None)
    else
      (KnockedBack(s.(lastShootTime := now), facing),
       Some(Bullets.Create(Add(Scale(facing, s.t.radius), s.t.position),
                           Add(Scale(facing, Config.BULLET_SPEED), s.t.velocity))))
  }

  /** Invincibility lasts while the timer, counted down once per update, stays positive. */
  lemma {:induction false} StepsInvincible(s: ShipState, width: real, height: real, n: nat)
    ensures Steps(s, width, height, n).invincible <==> s.invincible && (n == 0 || n < s.invincibleTimer)
    ensures Steps(s, width, height, n).isDead == s.isDead
    ensures Steps(s, width, height, n).lastShootTime == s.lastShootTime
    decreases n
  {
    if n > 0 {
      StepsInvincible(Step(s, width, height), width, height, n - 1);
    }
  }

  /** A new ship is invincible during exactly its first 119 updates. */
  lemma SpawnProtection(width: real, height: real, n: nat)
    ensures Steps(Create(width, height), width, height, n).invincible <==> n < 120
  {
    StepsInvincible(Create(width, height), width, height, n);
  }

  /** Rebirth restores the ship to life at the centre, at rest, protected for the same window. */
  lemma RebornProtection(s: ShipState, width: real, height: real, n: nat)
    ensures var r := Revived(s, width, height);
      !r.isDead && r.t.position == Vec(width / 2.0, height / 2.0) && r.t.velocity == Zero()
      && r.t.rotation == 0.0 && r.t.heading == Config.UP_HEADING
      && r.t.acceleration == s.t.acceleration
      && (Steps(r, width, height, n).invincible <==> n < 120)
  {
    StepsInvincible(Revived(s, width, height), width, height, n);
  }

  /** A shot happens iff the ship is alive and the cooldown has passed; a refused shot changes nothing. */
  lemma ShootCooldown(s: ShipState, now: real, facing: Direction)
    ensures Fired(s, now, facing).1.Some? <==> !s.isDead && now - s.lastShootTime >= 300.0
    ensures Fired(s, now, facing).1.None? ==> Fired(s, now, facing).0 == s
    ensures Fired(s, now, facing).1.Some? ==>
      var (s', b) := Fired(s, now, facing);
      s'.lastShootTime == now
      && s'.t.position == s.t.position && s'.t.velocity == s.t.velocity
      && s'.t.acceleration == Sub(s.t.acceleration, Scale(facing, 0.5))
      && SqDist(s.t.position, b.value.t.position) == s.t.radius * s.t.radius
      && SqLen(Sub(b.value.t.velocity, s.t.velocity)) == 100.0
      && b.value.lifespan == 70
  {
    if !s.isDead && now - s.lastShootTime >= 300.0 {
      var b := Fired(s, now, facing).1.value;
      assert Sub(b.t.position, s.t.position) == Scale(facing, s.t.radius);
      SqLenScale(facing, s.t.radius);
      assert Sub(b.t.velocity, s.t.velocity) == Scale(facing, 10.0);
      SqLenScale(facing, 10.0);
    }
  }

  /** Two shots closer than 300 ms: the second is refused. */
  lemma RapidFireRefused(s: ShipState, now: real, later: real, facing: Direction, facing': Direction)
    requires Fired(s, now, facing).1.Some?
    requires later - now < 300.0
    ensures Fired(Fired(s, now, facing).0, later, facing').1.None?
  {
  }

  /** A live ship's boost adds 0.15 along its heading and emits flames `0.9 r` behind it; a dead one's does nothing. */
  lemma BoostEffect(s: ShipState, facing: Direction)
    ensures s.isDead ==> Boosted(s, facing) == s && BoostExhaust(s, facing).None?
    ensures !s.isDead ==>
      Boosted(s, facing).t == s.t.(acceleration := Add(s.t.acceleration, Scale(facing, 0.15)))
      && BoostExhaust(s, facing).Some?
      && SqDist(s.t.position, BoostExhaust(s, facing).value.position) == (s.t.radius * 0.9) * (s.t.radius * 0.9)
  {
    if !s.isDead {
      var back := Scale(facing, -1.0);
      SqLenScale(facing, -1.0);
      assert Sub(BoostExhaust(s, facing).value.position, s.t.position) == Scale(back, s.t.radius * 0.9);
      SqLenScale(back, s.t.radius * 0.9);
    }
  }

  /** The ship object, with its transformable, collisional and flammable extensions. */
  class Ship {
    const kind: Entities.Kind
    const transformable: TransformableExtension
    const collisional: CollisionalExtension
    const flammable: FlammableExtension
    var invincible: bool
    var invincibleTimer: int
    var lastShootTime: real
    var isDead: bool

    predicate Valid()
      reads this
    {
      collisional.transformable == transformable
      && flammable.count == FLAME_COUNT && flammable.colorCount == FLAME_COLORS
    }

    function View(): ShipState
      reads this, transformable, transformable.position
    {
      ShipState(transformable.Value(), invincible, invincibleTimer, lastShootTime, isDead)
    }

    constructor (width: real, height: real)
      ensures Valid() && kind == Entities.Ship
      ensures View() == Create(width, height)
      ensures fresh(transformable) && fresh(transformable.position)
    {
      kind := Entities.Ship;
      lastShootTime := 0.0;
      isDead := false;
      invincible := true;
      invincibleTimer := Config.SHIP_INVINCIBLE_TIME;
      var t := new TransformableExtension();
      var self := t.SetPosition(width / 2.0, height / 2.0);
      self := self.SetFriction(FRICTION);
      self := self.SetRadius(RADIUS);
      self := self.SetHeading(Config.UP_HEADING);
      self := self.SetRotationFriction(ROTATION_FRICTION);
      transformable := t;
      collisional := new CollisionalExtension(t);
      flammable := new FlammableExtension(FLAME_COUNT, FLAME_COLORS);
    }

    method Reborn(width: real, height: real)
      modifies this, transformable, transformable.position
      ensures View() == Revived(old(View()), width, height)
    {
      isDead := false;
      invincible := true;
      invincibleTimer := Config.SHIP_INVINCIBLE_TIME;
      var self := transformable.SetPosition(width / 2.0, height / 2.0);
      self := self.SetHeading(Config.UP_HEADING);
      self := self.SetVelocity(0.0, 0.0);
      self := self.SetRotationSpeed(0.0);
    }

    method Update(width: real, height: real)
      modifies this, transformable, transformable.position
      ensures View() == Step(old(View()), width, height)
    {
      transformable.Update(width, height);
      if invincible {
        invincibleTimer := invincibleTimer - 1;
        if invincibleTimer <= 0 {
          invincible := false;
        }
      }
    }

    /** `boost`, returning the flames it created (the caller adds them to the entity list). */
    method Boost(facing: Direction, draws: int -> FlameDraw) returns (flames: seq<Flames.FlameState>)
      requires Valid()
      modifies transformable
      ensures View() == Boosted(old(View()), facing)
      ensures flames == (var e := BoostExhaust(old(View()), facing);
        if e.Some? then Burst(e.value.position, e.value.velocity, e.value.heading, FLAME_COUNT, FLAME_COLORS, draws)
        else [])
    {
      flames := [];
      if isDead {
        return;
      }
      var self := transformable.AddForce(Scale(facing, Config.SHIP_BOOST_FORCE));
      var back := Add(transformable.position.Value(), Scale(Scale(facing, -1.0), transformable.radius * 0.9));
      flames := flammable.CreateFlames(back, transformable.velocity, transformable.heading, draws);
    }

    method Die()
      modifies this
      ensures View() == Killed(old(View()))
    {
      isDead := true;
    }

    method AddRotation(rotation: real)
      modifies transformable
      ensures View() == Turned(old(View()), rotation)
    {
      var self := transformable.AddRotation(rotation);
    }

    method CheckIsDead() returns (dead: bool)
      ensures dead == isDead
    {
      dead := isDead;
    }

    method ApplyKnockback(facing: Direction)
      modifies transformable
      ensures View() == KnockedBack(old(View()), facing)
    {
      var self := transformable.AddForce(Scale(Scale(facing, -1.0), KNOCKBACK_FORCE));
    }

    /** `shoot`; the source returns `[bullet]` or nothing, here `Some(bullet)` or `None`. */
    method Shoot(now: real, facing: Direction) returns (bullet: Option<Bullets.Bullet>)
      modifies this, transformable
      ensures View() == Fired(old(View()), now, facing).0
      ensures bullet.Some? <==> Fired(old(View()), now, facing).1.Some?
      ensures bullet.Some? ==> (fresh(bullet.value.transformable)
        && bullet.value.View() == Fired(old(View()), now, facing).1.value)
    {
      if isDead || now - lastShootTime < SHOOT_COOLDOWN {
        return None;
      }
      lastShootTime := now;
      var position := Add(Scale(facing, transformable.radius), transformable.position.Value());
      var velocity := Add(Scale(facing, Config.BULLET_SPEED), transformable.velocity);
      ApplyKnockback(facing);
      var b := new Bullets.Bullet(position, velocity);
      bullet := Some(b);
    }

    predicate ShouldRemove()
      reads this
    {
      false
    }
  }
}
