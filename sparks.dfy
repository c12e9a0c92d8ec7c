/** The explosion spark (src/game2/entities/explosion-spark.entity.ts): a shrinking, drifting square. */
module Sparks {
  import opened Vectors
  import opened Transformable

  /** How much the radius shrinks per frame. */
  const SHRINK: real := 0.05

  datatype SparkState = SparkState(t: Transform)

  /** The constructor: the given motion, friction 0.95 and rotation friction 0.99. */
  function Create(position: Vec, velocity: Vec, radius: real, rotationSpeed: real): SparkState {
    SparkState(Default().(position := position, velocity := velocity, radius := radius,
                          rotation := rotationSpeed, friction := 0.95, rotationFriction := 0.99))
  }

  /** `update`: integrate, then shrink the radius by 0.05. */
  function Step(s: SparkState, width: real, height: real): SparkState {
    var t := Integrate(s.t, width, height);
    SparkState(t.(radius := t.radius - SHRINK))
  }

  /** `shouldRemove`. */
  predicate Expired(s: SparkState) {
    s.t.radius <= 0.0
  }

  function Steps(s: SparkState, width: real, height: real, n: nat): SparkState
    decreases n
  {
    if n == 0 then s else Steps(Step(s, width, height), width, height, n - 1)
  }

  /** Each update lowers the radius by exactly 0.05. */
  lemma {:induction false} StepsRadius(s: SparkState, width: real, height: real, n: nat)
    ensures Steps(s, width, height, n).t.radius == s.t.radius - SHRINK * (n as real)
    decreases n
  {
    if n > 0 {
      StepsRadius(Step(s, width, height), width, height, n - 1);
    }
  }

  /** A spark of radius r is removed after the first update that brings 0.05·n up to r. */
  lemma SparkLifetime(position: Vec, velocity: Vec, radius: real, rotationSpeed: real,
                      width: real, height: real, n: nat)
    ensures Expired(Steps(Create(position, velocity, radius, rotationSpeed), width, height, n))
        <==> radius <= SHRINK * (n as real)
  {
    StepsRadius(Create(position, velocity, radius, rotationSpeed), width, height, n);
  }

  /** The spark object; it carries a transformable extension only. */
  class ExplosionSpark {
    const transformable: TransformableExtension

    function View(): SparkState
      reads transformable, transformable.position
    {
      SparkState(transformable.Value())
    }

    constructor (position: Vec, velocity: Vec, radius: real, rotationSpeed: real)
      ensures View() == Create(position, velocity, radius, rotationSpeed)
      ensures fresh(transformable) && fresh(transformable.position)
    {
      var t := new TransformableExtension();
      var self := t.SetPosition(position.x, position.y);
      self := t.SetVelocity(velocity.x, velocity.y);
      self := t.SetRadius(radius);
      self := t.SetRotationSpeed(rotationSpeed);
      self := t.SetFriction(0.95);
      self := t.SetRotationFriction(0.99);
      transformable := t;
    }

    method Update(width: real, height: real)
      modifies transformable, transformable.position
      ensures View() == Step(old(View()), width, height)
    {
      transformable.Update(width, height);
      transformable.radius := transformable.radius - SHRINK;
    }

    predicate ShouldRemove()
      reads transformable
    {
      transformable.radius <= 0.0
    }
  }
}
