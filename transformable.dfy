/**
 * The transform capability (src/game2/extensions/transformable.ext.ts):
 * position, velocity, acceleration, heading and rotation speed, advanced
 * once per frame by a semi-implicit Euler step and wrapped around the
 * edges of the canvas.
 */
module Transformable {
  import opened Vectors
  import Config

  /** The state of one transformable, as a value. */
  datatype Transform = Transform(
    radius: real,
    position: Vec,
    velocity: Vec,
    acceleration: Vec,
    heading: real,
    rotation: real,
    rotationFriction: real,
    friction: real,
    maxRotation: real)

  /** The field initialisers of a fresh extension. */
  function Default(): Transform {
    Transform(0.0, Zero(), Zero(), Zero(), 0.0, 0.0, 1.0, 1.0, Config.SHIP_MAX_ROTATION)
  }

  function Abs(x: real): real { if x < 0.0 then -x else x }

  /** `Math.sign`. */
  function Sign(x: real): real { if x > 0.0 then 1.0 else if x < 0.0 then -1.0 else 0.0 }

  /** The rotation clamp applied after the first damping. */
  function ClampRotation(rot: real, maxRotation: real): real {
    if Abs(rot) > maxRotation then maxRotation * Sign(rot) else rot
  }

  /** `edges` on one axis: leaving past one margin re-enters at the other. */
  function Wrap(c: real, r: real, extent: real): real {
    if c < -r then extent + r
    else if c > extent + r then -r
    else c
  }

  function Edges(p: Vec, r: real, width: real, height: real): Vec {
    Vec(Wrap(p.x, r, width), Wrap(p.y, r, height))
  }

  /** The first part of `update`: the rotation is damped and clamped, and the heading turns by it. */
  function Spun(t: Transform): Transform {
    var rot := ClampRotation(t.rotation * t.rotationFriction, t.maxRotation);
    t.(rotation := rot, heading := t.heading + rot)
  }

  /** The second part: acceleration and friction act on the velocity, and the rotation is damped again. */
  function Drifted(t: Transform): Transform {
    t.(velocity := Scale(Add(t.velocity, t.acceleration), t.friction), rotation := t.rotation * t.rotationFriction)
  }

  /** The last part: the position moves by the velocity and wraps, and the acceleration is cleared. */
  function Moved(t: Transform, width: real, height: real): Transform {
    t.(position := Edges(Add(t.position, t.velocity), t.radius, width, height), acceleration := Zero())
  }

  /** One call of `update`. The velocity clamp `limit(maxSpeed)` is a no-op: maxSpeed is Infinity. */
  function Integrate(t: Transform, width: real, height: real): Transform {
    Moved(Drifted(Spun(t)), width, height)
  }

  /** `n` successive calls of `update` on the same canvas. */
  function Steps(t: Transform, width: real, height: real, n: nat): Transform
    decreases n
  {
    if n == 0 then t else Steps(Integrate(t, width, height), width, height, n - 1)
  }

  predicate InBounds(p: Vec, r: real, width: real, height: real) {
    -r <= p.x <= width + r && -r <= p.y <= height + r
  }

  /** The three cases of `edges` on one axis, each stated outright. */
  lemma WrapCases(c: real, r: real, extent: real)
    ensures c < -r ==> Wrap(c, r, extent) == extent + r
    ensures c > extent + r && !(c < -r) ==> Wrap(c, r, extent) == -r
    ensures -r <= c <= extent + r ==> Wrap(c, r, extent) == c
  {
  }

  /** After `edges`, both coordinates lie inside the margins. */
  lemma EdgesInBounds(p: Vec, r: real, width: real, height: real)
    requires r >= 0.0 && width >= 0.0 && height >= 0.0
    ensures InBounds(Edges(p, r, width, height), r, width, height)
  {
  }

  /** What one `update` does to the linear state and what it leaves alone. */
  lemma IntegrateLinear(t: Transform, width: real, height: real)
    ensures Integrate(t, width, height).acceleration == Zero()
    ensures Integrate(t, width, height).velocity == Scale(Add(t.velocity, t.acceleration), t.friction)
    ensures Integrate(t, width, height).position
         == Edges(Add(t.position, Integrate(t, width, height).velocity), t.radius, width, height)
    ensures var r := Integrate(t, width, height);
      r.radius == t.radius && r.friction == t.friction
      && r.rotationFriction == t.rotationFriction && r.maxRotation == t.maxRotation
  {
  }

  /**
   * The rotation speed added to the heading is clamped to the maximum, and
   * the twice-damped rotation speed kept for the next frame stays within it.
   */
  lemma IntegrateRotationBounded(t: Transform, width: real, height: real)
    requires 0.0 <= t.rotationFriction <= 1.0 && t.maxRotation >= 0.0
    ensures Abs(Integrate(t, width, height).heading - t.heading) <= t.maxRotation
    ensures Abs(Integrate(t, width, height).rotation) <= t.maxRotation
  {
    var t1 := Spun(t);
    var rot := t1.rotation;
    assert Abs(rot) <= t.maxRotation;
    assert t1.heading - t.heading == rot;
    var t2 := Drifted(t1);
    assert t2.rotation == rot * t.rotationFriction;
    MulByFractionShrinks(rot, t.rotationFriction);
    assert Integrate(t, width, height).rotation == t2.rotation;
    assert Integrate(t, width, height).heading == t1.heading;
  }

  lemma MulByFractionShrinks(x: real, f: real)
    requires 0.0 <= f <= 1.0
    ensures Abs(x * f) <= Abs(x)
  {
    if x >= 0.0 {
      assert x * f <= x * 1.0;
    } else {
      assert (-x) * f <= (-x) * 1.0;
    }
  }

  /** With no force and friction 1, `update` keeps the velocity and moves by it. */
  lemma IntegrateCoasting(t: Transform, width: real, height: real)
    requires t.friction == 1.0 && t.acceleration == Zero()
    ensures Integrate(t, width, height).velocity == t.velocity
    ensures Integrate(t, width, height).position == Edges(Add(t.position, t.velocity), t.radius, width, height)
  {
  }

  /**
   * The coasting case over `n` frames: the velocity never changes, the
   * acceleration stays zero and, once a frame has run, the body is inside the
   * margins.
   */
  lemma {:induction false} StepsCoasting(t: Transform, width: real, height: real, n: nat)
    requires t.friction == 1.0 && t.acceleration == Zero()
    requires t.radius >= 0.0 && width >= 0.0 && height >= 0.0
    ensures Steps(t, width, height, n).velocity == t.velocity
    ensures Steps(t, width, height, n).acceleration == Zero()
    ensures Steps(t, width, height, n).radius == t.radius
    ensures n > 0 ==> InBounds(Steps(t, width, height, n).position, t.radius, width, height)
    decreases n
  {
    if n > 0 {
      var t1 := Integrate(t, width, height);
      IntegrateCoasting(t, width, height);
      EdgesInBounds(Add(t.position, t.velocity), t.radius, width, height);
      StepsCoasting(t1, width, height, n - 1);
    }
  }

  /** The mutable `Vector` object that holds a position; other objects may share it. */
  class Point {
    var x: real
    var y: real

    constructor (x: real, y: real)
      ensures this.x == x && this.y == y
    {
      this.x := x;
      this.y := y;
    }

    function Value(): Vec
      reads this
    {
      Vec(x, y)
    }
  }

  /**
   * The extension object. Its position is a `Point` that the extension never
   * replaces, only mutates, so other objects holding it see every move.
   * `rotationSpeed` is the source's `rotationDental`.
   */
  class TransformableExtension {
    const name: string
    var radius: real
    const position: Point
    var velocity: Vec
    var acceleration: Vec
    var heading: real
    var rotationSpeed: real
    var rotationFriction: real
    var friction: real
    const maxRotation: real

    function Value(): Transform
      reads this, position
    {
      Transform(radius, position.Value(), velocity, acceleration, heading,
                rotationSpeed, rotationFriction, friction, maxRotation)
    }

    constructor ()
      ensures Value() == Default() && name == "transformable"
      ensures fresh(position)
    {
      name := "transformable";
      radius := 0.0;
      position := new Point(0.0, 0.0);
      velocity := Zero();
      acceleration := Zero();
      heading := 0.0;
      rotationSpeed := 0.0;
      rotationFriction := 1.0;
      friction := 1.0;
      maxRotation := Config.SHIP_MAX_ROTATION;
    }

    /** `update`, field by field in the source's order: turn, drift, then move. */
    method Update(width: real, height: real)
      modifies this, position
      ensures Value() == Integrate(old(Value()), width, height)
    {
      Turn();
      Drift();
      Move(width, height);
    }

    /** The first damping of the rotation, its clamp, and the turn by it. */
    method Turn()
      modifies this
      ensures Value() == Spun(old(Value()))
    {
      var rot := rotationSpeed * rotationFriction;
      if Abs(rot) > maxRotation {
        rot := maxRotation * Sign(rot);
      }
      rotationSpeed := rot;
      heading := heading + rot;
    }

    /** The acceleration and the friction act on the velocity; the rotation is damped again. */
    method Drift()
      modifies this
      ensures Value() == Drifted(old(Value()))
    {
      velocity := Add(velocity, acceleration);
      velocity := Scale(velocity, friction);
      rotationSpeed := rotationSpeed * rotationFriction;
    }

    /** The position moves by the velocity, the acceleration is cleared, and the edges wrap. */
    method Move(width: real, height: real)
      modifies this, position
      ensures Value() == Moved(old(Value()), width, height)
    {
      position.x, position.y := position.x + velocity.x, position.y + velocity.y;
      acceleration := Scale(acceleration, 0.0);
      Wrap(width, height);
    }

    /** `edges`. */
    method Wrap(width: real, height: real)
      modifies position
      ensures position.Value() == Edges(old(position.Value()), radius, width, height)
    {
      if position.x < -radius {
        position.x := width + radius;
      } else if position.x > width + radius {
        position.x := -radius;
      }
      if position.y < -radius {
        position.y := height + radius;
      } else if position.y > height + radius {
        position.y := -radius;
      }
    }

    method AddForce(force: Vec) returns (self: TransformableExtension)
      modifies this
      ensures self == this
      ensures Value() == old(Value()).(acceleration := Add(old(acceleration), force))
    {
      acceleration := Add(acceleration, force);
      self := this;
    }

    method ApplyImpulse(impulse: Vec) returns (self: TransformableExtension)
      modifies this
      ensures self == this
      ensures Value() == old(Value()).(velocity := Add(old(velocity), impulse))
    {
      velocity := Add(velocity, impulse);
      self := this;
    }

    method AddRotation(rotation: real) returns (self: TransformableExtension)
      modifies this
      ensures self == this
      ensures Value() == old(Value()).(rotation := old(rotationSpeed) + rotation)
    {
      rotationSpeed := rotationSpeed + rotation;
      self := this;
    }

    method SetPosition(x: real, y: real) returns (self: TransformableExtension)
      modifies position
      ensures self == this
      ensures Value() == old(Value()).(position := Vec(x, y))
    {
      position.x, position.y := x, y;
      self := this;
    }

    method SetVelocity(x: real, y: real) returns (self: TransformableExtension)
      modifies this
      ensures self == this
      ensures Value() == old(Value()).(velocity := Vec(x, y))
    {
      velocity := Vec(x, y);
      self := this;
    }

    method SetHeading(heading: real) returns (self: TransformableExtension)
      modifies this
      ensures self == this
      ensures Value() == old(Value()).(heading := heading)
    {
      this.heading := heading;
      self := this;
    }

    method SetRotationSpeed(rotationSpeed: real) returns (self: TransformableExtension)
      modifies this
      ensures self == this
      ensures Value() == old(Value()).(rotation := rotationSpeed)
    {
      this.rotationSpeed := rotationSpeed;
      self := this;
    }

    method SetRotationFriction(friction: real) returns (self: TransformableExtension)
      modifies this
      ensures self == this
      ensures Value() == old(Value()).(rotationFriction := friction)
    {
      rotationFriction := friction;
      self := this;
    }

    method SetFriction(friction: real) returns (self: TransformableExtension)
      modifies this
      ensures self == this
      ensures Value() == old(Value()).(friction := friction)
    {
      this.friction := friction;
      self := this;
    }

    method SetRadius(radius: real) returns (self: TransformableExtension)
      modifies this
      ensures self == this
      ensures Value() == old(Value()).(radius := radius)
    {
      this.radius := radius;
      self := this;
    }
  }
}
