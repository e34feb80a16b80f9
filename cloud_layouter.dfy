/** `CircularCloudLayouter` as the repository has it: a fixed cloud centre
    and an append-only list of placed rectangles.  Its placement step only
    ever moves a copy of the new rectangle, so every rectangle it hands out
    sits with its top-left corner on the cloud centre. */
module CloudLayouter {
  import opened DotNet
  import opened Drawing

  /** `Random.Next(maxValue)`: zero when `maxValue` is zero, otherwise a draw
      in `[0, maxValue)`.  `sample` stands for the generator's next raw value. */
  function RandomNext(maxValue: nat, sample: nat): (v: nat)
    ensures maxValue == 0 ==> v == 0
    ensures maxValue > 0 ==> v < maxValue
  {
    if maxValue == 0 then 0 else sample % maxValue
  }

  class CircularCloudLayouter {
    /** Read-only: assigned by the constructor and nowhere else. */
    const cloudCenter: Point
    var placedRectangles: seq<Rectangle>
    /** The state of the layouter's `Random`; its algorithm is not modelled. */
    var randomState: nat
    /** Declared with initial value 0 and never assigned. */
    var circleRadius: int

    ghost predicate Valid()
      reads this
    {
      circleRadius == 0
    }

    constructor (center: Point)
      ensures Valid()
      ensures cloudCenter == center && placedRectangles == []
    {
      cloudCenter := center;
      placedRectangles := [];
      randomState := 0;
      circleRadius := 0;
    }

    /** One draw of the layouter's generator. */
    method NextRandom(maxValue: nat) returns (v: nat)
      modifies this`randomState
      ensures v == RandomNext(maxValue, old(randomState))
      ensures randomState == old(randomState) + 1
    {
      v := RandomNext(maxValue, randomState);
      randomState := randomState + 1;
    }

    /** The rectangle is a struct passed by value: the new coordinates land
        on the callee's own copy, returned here as `moved`, and never reach
        the caller's rectangle.  With `circleRadius` at 0 both draws are
        `Next(0) == 0`. */
    method FindRectaglePlace(currentRectangle: Rectangle) returns (moved: Rectangle)
      requires Valid()
      modifies this`randomState
      ensures moved == currentRectangle.(x := Wrap32(-cloudCenter.x), y := Wrap32(-cloudCenter.y))
    {
      moved := currentRectangle;
      var dx := NextRandom(2 * circleRadius);
      moved := moved.(x := Wrap32(dx - cloudCenter.x));
      var dy := NextRandom(2 * circleRadius);
      moved := moved.(y := Wrap32(dy - cloudCenter.y));
    }

    /** Places a rectangle of the given size, sizes of any sign included:
        it starts on the cloud centre, is appended as it is, and is returned. */
    method PutNextRectangle(rectangleSize: Size) returns (result: Rectangle)
      requires Valid()
      modifies this
      ensures Valid()
      ensures result.Dimensions() == rectangleSize
      ensures result.Location() == cloudCenter
      ensures placedRectangles == old(placedRectangles) + [result]
    {
      var resultRectangle := RectangleAt(cloudCenter, rectangleSize);
      var discardedCopy := FindRectaglePlace(resultRectangle);
      placedRectangles := placedRectangles + [resultRectangle];
      result := resultRectangle;
    }
  }

  /** Two placements of equal sizes hand out equal rectangles, and each adds
      exactly one entry after the ones already there. */
  method PlaceTwice(layouter: CircularCloudLayouter, size: Size)
    returns (first: Rectangle, second: Rectangle)
    requires layouter.Valid()
    modifies layouter
    ensures layouter.Valid()
    ensures first == second == RectangleAt(layouter.cloudCenter, size)
    ensures layouter.placedRectangles == old(layouter.placedRectangles) + [first, second]
  {
    first := layouter.PutNextRectangle(size);
    second := layouter.PutNextRectangle(size);
  }
}
