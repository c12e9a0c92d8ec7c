/**
 * The floating score label (src/game2/entities/point-indicator.entity.ts).
 * It keeps the position object it is given, so every update also moves the
 * owner of that object.
 */
module Indicators {
  import opened Vectors
  import opened Transformable

  const OPACITY_START: int := 255
  const Z_INDEX: int := 100

  datatype IndicatorState = IndicatorState(text: string, opacity: int, size: real, position: Vec)

  function Create(text: string, position: Vec, size: real): IndicatorState {
    IndicatorState(text, OPACITY_START, size, position)
  }

  /** `update`: fade by 5 and rise by one pixel. */
  function Step(i: IndicatorState): IndicatorState {
    i.(opacity := i.opacity - 5, position := Vec(i.position.x, i.position.y - 1.0))
  }

  /** `shouldRemove`. */
  predicate Expired(i: IndicatorState) {
    i.opacity <= 0
  }

  function Steps(i: IndicatorState, n: nat): IndicatorState
    decreases n
  {
    if n == 0 then i else Steps(Step(i), n - 1)
  }

  lemma {:induction false} StepsUnfold(i: IndicatorState, n: nat)
    ensures Steps(i, n) == i.(opacity := i.opacity - 5 * n,
                              position := Vec(i.position.x, i.position.y - (n as real)))
    decreases n
  {
    if n > 0 {
      StepsUnfold(Step(i), n - 1);
    }
  }

  /** A new label is removed after exactly 51 updates, having risen 51 pixels. */
  lemma IndicatorLifetime(text: string, position: Vec, size: real, n: nat)
    ensures Expired(Steps(Create(text, position, size), n)) <==> n >= 51
  {
    StepsUnfold(Create(text, position, size), n);
  }

  class PointIndicator {
    const text: string
    var opacity: int
    const size: real
    const position: Point
    const zIndex: int

    function View(): IndicatorState
      reads this, position
    {
      IndicatorState(text, opacity, size, position.Value())
    }

    /** The position is stored as given, not copied. */
    constructor (text: string, position: Point, size: real)
      ensures this.position == position
      ensures View() == Create(text, position.Value(), size) && zIndex == Z_INDEX
    {
      this.text := text;
      this.opacity := OPACITY_START;
      this.size := size;
      this.position := position;
      this.zIndex := Z_INDEX;
    }

    method Update()
      modifies this, position
      ensures View() == Step(old(View()))
    {
      opacity := opacity - 5;
      position.y := position.y - 1.0;
    }

    predicate ShouldRemove()
      reads this
    {
      opacity <= 0
    }
  }

  /**
   * A label made from a transformable's own position object: one update of the
   * label moves the transformable up by one pixel as well.
   */
  method LabelDragsItsAnchor(x: real, y: real) returns (anchor: Vec)
    ensures anchor == Vec(x, y - 1.0)
  {
    var owner := new TransformableExtension();
    var self := owner.SetPosition(x, y);
    var indicator := new PointIndicator("+15", owner.position, 16.0);
    indicator.Update();
    anchor := owner.Value().position;
  }
}
