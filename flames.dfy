/** The flame particle (src/game2/entities/flame.entity.ts): a shrinking square left behind by thrust. */
module Flames {
  import opened Wrappers
  import opened Vectors
  import opened Transformable

  const DEFAULT_SIZE: real := 5.0
  const DEFAULT_SIZE_DECREASE: real := 0.2

  datatype FlameState = FlameState(t: Transform, sizeDecrease: real, color: Option<nat>)

  /** `arg || fallback` on an optional number: a missing value and 0 both fall back. */
  function OrDefault(arg: Option<real>, fallback: real): real {
    if arg.None? || arg.value == 0.0 then fallback else arg.value
  }

  /** The constructor; the velocity is set only when one is given. */
  function Create(position: Vec, heading: real, color: Option<nat>, sizeDecrease: Option<real>,
                  size: Option<real>, velocity: Option<Vec>): FlameState {
    var t := Default().(position := position, heading := heading, radius := OrDefault(size, DEFAULT_SIZE));
    FlameState(if velocity.Some? then t.(velocity := velocity.value) else t,
               OrDefault(sizeDecrease, DEFAULT_SIZE_DECREASE), color)
  }

  /** `update`: integrate, then `setRadius(radius - sizeDecrease)`. */
  function Step(f: FlameState, width: real, height: real): FlameState {
    var t := Integrate(f.t, width, height);
    f.(t := t.(radius := t.radius - f.sizeDecrease))
  }

  /** `shouldRemove`: strictly negative radius. */
  predicate Expired(f: FlameState) {
    f.t.radius < 0.0
  }

  function Steps(f: FlameState, width: real, height: real, n: nat): FlameState
    decreases n
  {
    if n == 0 then f else Steps(Step(f, width, height), width, height, n - 1)
  }

  /** The constructor defaults: a missing or zero size gives 5, a missing or zero decrease 0.2. */
  lemma CreateDefaults(position: Vec, heading: real, color: Option<nat>, sizeDecrease: Option<real>,
                       size: Option<real>, velocity: Option<Vec>)
    ensures var f := Create(position, heading, color, sizeDecrease, size, velocity);
      (f.t.radius == if size.Some? && size.value != 0.0 then size.value else 5.0)
      && (f.sizeDecrease == if sizeDecrease.Some? && sizeDecrease.value != 0.0 then sizeDecrease.value else 0.2)
      && (f.t.velocity == if velocity.Some? then velocity.value else Zero())
      && f.t.position == position && f.t.heading == heading
  {
  }

  /** The radius left after `n` decreases by `d`. */
  function Shrunk(r: real, d: real, n: nat): real {
    r - (n as real) * d
  }

  /** Each update lowers the radius by `sizeDecrease`, which itself never changes. */
  lemma {:induction false} StepsRadius(f: FlameState, width: real, height: real, n: nat)
    ensures Steps(f, width, height, n).t.radius == Shrunk(f.t.radius, f.sizeDecrease, n)
    ensures Steps(f, width, height, n).sizeDecrease == f.sizeDecrease
    decreases n
  {
    if n > 0 {
      var f1 := Step(f, width, height);
      StepRadius(f, width, height);
      StepsRadius(f1, width, height, n - 1);
      ShrunkOnceMore(f.t.radius, f.sizeDecrease, n - 1);
    }
  }

  lemma StepRadius(f: FlameState, width: real, height: real)
    ensures Step(f, width, height).t.radius == f.t.radius - f.sizeDecrease
    ensures Step(f, width, height).sizeDecrease == f.sizeDecrease
  {
    IntegrateLinear(f.t, width, height);
  }

  lemma ShrunkOnceMore(r: real, d: real, k: nat)
    ensures Shrunk(r - d, d, k) == Shrunk(r, d, k + 1)
  {
  }

  /** Removal needs the radius to go strictly below zero, one frame later than a spark's `<= 0`. */
  lemma FlameLifetime(f: FlameState, width: real, height: real, n: nat)
    ensures Expired(Steps(f, width, height, n)) <==> f.t.radius < (n as real) * f.sizeDecrease
  {
    StepsRadius(f, width, height, n);
    assert Steps(f, width, height, n).t.radius == f.t.radius - (n as real) * f.sizeDecrease;
  }

  /** The flame object; it carries a transformable extension only. */
  class Flame {
    const transformable: TransformableExtension
    var sizeDecrease: real
    const color: Option<nat>

    function View(): FlameState
      reads this, transformable, transformable.position
    {
      FlameState(transformable.Value(), sizeDecrease, color)
    }

    constructor (position: Vec, heading: real, color: Option<nat>, sizeDecrease: Option<real>,
                 size: Option<real>, velocity: Option<Vec>)
      ensures View() == Create(position, heading, color, sizeDecrease, size, velocity)
      ensures fresh(transformable) && fresh(transformable.position)
    {
      var t := new TransformableExtension();
      var self := t.SetPosition(position.x, position.y);
      self := t.SetHeading(heading);
      self := t.SetRadius(OrDefault(size, DEFAULT_SIZE));
      if velocity.Some? {
        self := t.SetVelocity(velocity.value.x, velocity.value.y);
      }
      transformable := t;
      this.color := color;
      this.sizeDecrease := OrDefault(sizeDecrease, DEFAULT_SIZE_DECREASE);
    }

    method Update(width: real, height: real)
      modifies transformable, transformable.position
      ensures View() == Step(old(View()), width, height)
    {
      transformable.Update(width, height);
      var self := transformable.SetRadius(transformable.radius - sizeDecrease);
    }

    predicate ShouldRemove()
      reads transformable
    {
      transformable.radius < 0.0
    }
  }
}
