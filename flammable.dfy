/**
 * The flammable capability (src/game2/extensions/flammable.ext.ts): a burst
 * of flame particles behind a moving body.
 */
module Flammable {
  import opened Wrappers
  import opened Vectors
  import opened Reals
  import opened Chance
  import opened Flames

  /**
   * What one flame consumes, in call order: the direction of the drawn offset
   * angle (a trigonometric value), then the draws for the offset length, the
   * colour, the heading jitter, the shrink rate and the size.
   */
  datatype FlameDraw = FlameDraw(
    offset: Direction, magnitude: Fraction, color: Fraction,
    heading: Fraction, shrink: Fraction, size: Fraction)

  /** Where a burst is emitted from: the position, the velocity and the heading passed to `createFlames`. */
  datatype Emitter = Emitter(position: Vec, velocity: Vec, heading: real)

  /** The flame of iteration `i`; picking from an empty colour list yields no colour. */
  function MakeFlame(position: Vec, velocity: Vec, heading: real, colorCount: nat, d: FlameDraw): FlameState {
    var at := Add(position, Scale(d.offset, Uniform(d.magnitude, 0.0, 10.0)));
    var pick := PickIndex(d.color, colorCount);
    Create(at, heading + Uniform(d.heading, -0.3, 0.3),
           if 0 <= pick < colorCount then Some(pick) else None,
           Some(Uniform(d.shrink, 0.05, 0.2)), Some(Uniform(d.size, 2.0, 6.0)),
           Some(Scale(velocity, 1.0 / 15.0)))
  }

  /** `createFlames`: `count` flames in creation order (none for a non-positive count). */
  function Burst(position: Vec, velocity: Vec, heading: real, count: int, colorCount: nat,
                 draws: int -> FlameDraw): seq<FlameState> {
    seq(if count > 0 then count else 0, i => MakeFlame(position, velocity, heading, colorCount, draws(i)))
  }

  /** Every parameter of a created flame lies in the range its draw allows. */
  lemma FlameInRange(position: Vec, velocity: Vec, heading: real, colorCount: nat, d: FlameDraw)
    ensures var f := MakeFlame(position, velocity, heading, colorCount, d);
      2.0 <= f.t.radius < 6.0
      && 0.05 <= f.sizeDecrease < 0.2
      && heading - 0.3 <= f.t.heading < heading + 0.3
      && SqDist(position, f.t.position) < 100.0
      && f.t.velocity == Scale(velocity, 1.0 / 15.0)
      && (colorCount > 0 ==> f.color.Some? && f.color.value < colorCount)
  {
    var m := Uniform(d.magnitude, 0.0, 10.0);
    UniformInRange(d.magnitude, 0.0, 10.0);
    UniformInRange(d.heading, -0.3, 0.3);
    UniformInRange(d.shrink, 0.05, 0.2);
    UniformInRange(d.size, 2.0, 6.0);
    if colorCount > 0 {
      PickIndexInRange(d.color, colorCount);
    }
    var off := Scale(d.offset, m);
    assert SqLen(off) == m * m * SqLen(d.offset);
    assert Sub(Add(position, off), position) == off;
    ProductNonNegative(m, m, m * m);
    ProductPositive(10.0 - m, 10.0 + m, 100.0 - m * m);
  }

  /** `createFlames` makes exactly `count` flames, each from its own draws. */
  lemma BurstShape(position: Vec, velocity: Vec, heading: real, count: int, colorCount: nat,
                   draws: int -> FlameDraw)
    ensures |Burst(position, velocity, heading, count, colorCount, draws)| == if count > 0 then count else 0
    ensures forall i :: 0 <= i < |Burst(position, velocity, heading, count, colorCount, draws)| ==>
      Burst(position, velocity, heading, count, colorCount, draws)[i]
        == MakeFlame(position, velocity, heading, colorCount, draws(i))
  {
  }

  /** The extension object: how many flames a burst has and how many colours it picks from. */
  class FlammableExtension {
    const name: string
    const count: int
    const colorCount: nat

    constructor (count: int, colorCount: nat)
      ensures this.count == count && this.colorCount == colorCount && name == "flammable"
    {
      name := "flammable";
      this.count := count;
      this.colorCount := colorCount;
    }

    /** `createFlames`; the caller adds each returned flame to the entity list, in order. */
    method CreateFlames(position: Vec, velocity: Vec, heading: real, draws: int -> FlameDraw)
      returns (flames: seq<FlameState>)
      ensures flames == Burst(position, velocity, heading, count, colorCount, draws)
    {
      flames := [];
      var i := 0;
      while i < count
        invariant 0 <= i <= (if count > 0 then count else 0)
        invariant flames == seq(i, k => MakeFlame(position, velocity, heading, colorCount, draws(k)))
      {
        flames := flames + [MakeFlame(position, velocity, heading, colorCount, draws(i))];
        i := i + 1;
      }
      BurstShape(position, velocity, heading, count, colorCount, draws);
    }
  }
}
