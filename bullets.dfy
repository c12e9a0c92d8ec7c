/** The bullet entity (src/game2/entities/bullet.entity.ts): a coasting body with a frame budget. */
module Bullets {
  import opened Vectors
  import opened Transformable
  import opened Collisional
  import Config

  datatype BulletState = BulletState(t: Transform, lifespan: int)

  /** The constructor: radius 3, the given position and velocity, 70 frames to live. */
  function Create(position: Vec, velocity: Vec): BulletState {
    BulletState(Default().(position := position, velocity := velocity, radius := Config.BULLET_RADIUS),
                Config.BULLET_LIFESPAN)
  }

  /** `update`: the extensions' update, then one frame off the lifespan. */
  function Step(b: BulletState, width: real, height: real): BulletState {
    BulletState(Integrate(b.t, width, height), b.lifespan - 1)
  }

  /** `shouldRemove`. */
  predicate Expired(b: BulletState) {
    b.lifespan <= 0
  }

  function Steps(b: BulletState, width: real, height: real, n: nat): BulletState
    decreases n
  {
    if n == 0 then b else Steps(Step(b, width, height), width, height, n - 1)
  }

  /** `n` updates spend `n` frames of lifespan and integrate the transform `n` times. */
  lemma {:induction false} StepsUnfold(b: BulletState, width: real, height: real, n: nat)
    ensures Steps(b, width, height, n) == BulletState(Transformable.Steps(b.t, width, height, n), b.lifespan - n)
    decreases n
  {
    if n > 0 {
      StepsUnfold(Step(b, width, height), width, height, n - 1);
    }
  }

  /** A new bullet is removed after exactly 70 updates. */
  lemma BulletLifetime(position: Vec, velocity: Vec, width: real, height: real, n: nat)
    ensures Expired(Steps(Create(position, velocity), width, height, n)) <==> n >= 70
  {
    StepsUnfold(Create(position, velocity), width, height, n);
  }

  /**
   * Friction 1 and no force: a bullet keeps its launch velocity for its whole
   * life, keeps radius 3, and stays within the margins of the canvas.
   */
  lemma BulletCoasts(position: Vec, velocity: Vec, width: real, height: real, n: nat)
    requires width >= 0.0 && height >= 0.0
    ensures Steps(Create(position, velocity), width, height, n).t.velocity == velocity
    ensures Steps(Create(position, velocity), width, height, n).t.radius == 3.0
    ensures n > 0 ==> InBounds(Steps(Create(position, velocity), width, height, n).t.position, 3.0, width, height)
  {
    var b := Create(position, velocity);
    StepsUnfold(b, width, height, n);
    StepsCoasting(b.t, width, height, n);
  }

  /** The bullet object: its transformable and collisional extensions and its lifespan. */
  class Bullet {
    const transformable: TransformableExtension
    const collisional: CollisionalExtension
    var lifespan: int

    function View(): BulletState
      reads this, transformable, transformable.position
    {
      BulletState(transformable.Value(), lifespan)
    }

    constructor (position: Vec, velocity: Vec)
      ensures View() == Create(position, velocity)
      ensures collisional.transformable == transformable
      ensures fresh(transformable) && fresh(transformable.position)
    {
      var t := new TransformableExtension();
      var self := t.SetPosition(position.x, position.y);
      self := self.SetVelocity(velocity.x, velocity.y);
      self := self.SetRadius(Config.BULLET_RADIUS);
      transformable := t;
      collisional := new CollisionalExtension(t);
      lifespan := Config.BULLET_LIFESPAN;
    }

    method Update(width: real, height: real)
      modifies this, transformable, transformable.position
      ensures View() == Step(old(View()), width, height)
    {
      transformable.Update(width, height);
      lifespan := lifespan - 1;
    }

    predicate ShouldRemove()
      reads this
    {
      lifespan <= 0
    }
  }
}
