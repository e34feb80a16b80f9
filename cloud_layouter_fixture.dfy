/** The geometry helpers of the layouter's test fixture: the closed overlap
    test, the scan over the placed rectangles, the circumcircle radius (kept
    squared, as an integer) and the covered area, together with the size
    generator and the loop that feeds a layouter. */
module CloudLayouterFixture {
  import opened DotNet
  import opened Drawing
  import opened CloudLayouter

  // ---------------------------------------------------------------- overlap

  /** The closed axis-aligned test: touching edges or corners count. */
  predicate HasIntersectWithOne(currentRectangle: Rectangle, checkinRectangle: Rectangle) {
    && currentRectangle.Left() <= checkinRectangle.Right()
    && checkinRectangle.Left() <= currentRectangle.Right()
    && currentRectangle.Top() <= checkinRectangle.Bottom()
    && checkinRectangle.Top() <= currentRectangle.Bottom()
  }

  lemma IntersectionIsSymmetric(a: Rectangle, b: Rectangle)
    ensures HasIntersectWithOne(a, b) == HasIntersectWithOne(b, a)
  {
  }

  /** For rectangles of non-negative size the test holds exactly when the
      two closed regions share a point. */
  lemma IntersectionMeansCommonPoint(a: Rectangle, b: Rectangle)
    requires a.width >= 0 && a.height >= 0 && b.width >= 0 && b.height >= 0
    ensures HasIntersectWithOne(a, b) <==>
              exists px, py :: a.Covers(px, py) && b.Covers(px, py)
  {
    if HasIntersectWithOne(a, b) {
      var px := if a.Left() <= b.Left() then b.Left() else a.Left();
      var py := if a.Top() <= b.Top() then b.Top() else a.Top();
      assert a.Covers(px, py) && b.Covers(px, py);
    }
  }

  /** Rectangles that only share an edge are reported as intersecting. */
  lemma TouchingRectanglesIntersect(a: Rectangle, b: Rectangle)
    requires a.Right() == b.Left()
    requires a.Top() <= b.Bottom() && b.Top() <= a.Bottom()
    requires a.width >= 0 && b.width >= 0
    ensures HasIntersectWithOne(a, b)
  {
  }

  lemma NonNegativeRectangleIntersectsItself(a: Rectangle)
    requires a.width >= 0 && a.height >= 0
    ensures HasIntersectWithOne(a, a)
  {
  }

  /** `placedRectangles.Where(p => p != current).Any(p => HasIntersectWithOne(current, p))`;
      `!=` on the struct compares all four fields. */
  function HasIntersectWithOthers(placedRectangles: seq<Rectangle>, currentRectangle: Rectangle): (b: bool)
    ensures b <==> exists i :: 0 <= i < |placedRectangles| && placedRectangles[i] != currentRectangle
                                && HasIntersectWithOne(currentRectangle, placedRectangles[i])
  {
    if placedRectangles == [] then false
    else
      (placedRectangles[0] != currentRectangle && HasIntersectWithOne(currentRectangle, placedRectangles[0]))
      || HasIntersectWithOthers(placedRectangles[1..], currentRectangle)
  }

  /** Copies of the current rectangle are skipped: adding any number of them
      to the placed list never changes the answer. */
  lemma {:induction false} DuplicatesNeverFlag(placed: seq<Rectangle>, copies: seq<Rectangle>, current: Rectangle)
    requires forall i :: 0 <= i < |copies| ==> copies[i] == current
    ensures HasIntersectWithOthers(placed + copies, current) == HasIntersectWithOthers(placed, current)
  {
    var all := placed + copies;
    if HasIntersectWithOthers(all, current) {
      var i :| 0 <= i < |all| && all[i] != current && HasIntersectWithOne(current, all[i]);
      assert i < |placed| && placed[i] == all[i];
    }
    if HasIntersectWithOthers(placed, current) {
      var i :| 0 <= i < |placed| && placed[i] != current && HasIntersectWithOne(current, placed[i]);
      assert all[i] == placed[i];
    }
  }

  /** `placedRectangles.Any(HasIntersectWithOthers)`, the verdict of the
      no-intersection tests. */
  predicate AnyIntersects(placedRectangles: seq<Rectangle>) {
    exists i :: 0 <= i < |placedRectangles| && HasIntersectWithOthers(placedRectangles, placedRectangles[i])
  }

  /** What that verdict is on the layouter's own output: all rectangles share
      one top-left corner, so with non-negative sizes some pair is reported
      exactly when not all of them are equal. */
  lemma {:induction false} StubLayoutIntersects(center: Point, placed: seq<Rectangle>)
    requires forall i :: 0 <= i < |placed| ==> placed[i].Location() == center
    requires forall i :: 0 <= i < |placed| ==> placed[i].width >= 0 && placed[i].height >= 0
    ensures AnyIntersects(placed) <==> exists i, j :: 0 <= i < j < |placed| && placed[i] != placed[j]
  {
    if exists i, j :: 0 <= i < j < |placed| && placed[i] != placed[j] {
      var i, j :| 0 <= i < j < |placed| && placed[i] != placed[j];
      assert HasIntersectWithOne(placed[i], placed[j]);
      assert HasIntersectWithOthers(placed, placed[i]);
    }
  }

  // ------------------------------------------------------------ radius, area

  function Abs(v: int): nat { if v < 0 then -v else v }

  function Max(a: int, b: int): int { if a < b then b else a }

  /** The squared distance from the centre to a point. */
  function DistanceSquared(center: Point, p: Point): nat {
    (center.x - p.x) * (center.x - p.x) + (center.y - p.y) * (center.y - p.y)
  }

  /** The four corners: top-left, top-right, bottom-left, bottom-right. */
  function Corners(r: Rectangle): seq<Point> {
    [Point(r.Left(), r.Top()), Point(r.Right(), r.Top()),
     Point(r.Left(), r.Bottom()), Point(r.Right(), r.Bottom())]
  }

  /** `CalculateRadius`, squared: the farther vertical edge and the farther
      horizontal edge give the corner farthest from the centre.  Computed
      without overflow (see `CalculateRadiusSquaredInt32`). */
  function CalculateRadiusSquared(center: Point, rectangle: Rectangle): nat {
    var maxX := Max(Abs(center.x - rectangle.Left()), Abs(center.x - rectangle.Right()));
    var maxY := Max(Abs(center.y - rectangle.Top()), Abs(center.y - rectangle.Bottom()));
    maxX * maxX + maxY * maxY
  }

  lemma SquareOfAbs(v: int)
    ensures v * v == Abs(v) * Abs(v)
  {
    if v < 0 {
      assert v * v == (-v) * (-v);
    }
  }

  lemma SquareMonotone(p: nat, m: nat)
    requires p <= m
    ensures p * p <= m * m
  {
    var d := m - p;
    assert m * m == p * p + 2 * p * d + d * d;
    assert p * d >= 0 && d * d >= 0;
  }

  /** On one axis: the offset to either edge squared is at most the larger
      offset squared, and the farther edge attains it. */
  lemma AxisOffsetSquared(c: int, a: int, b: int)
    ensures (c - a) * (c - a) <= Max(Abs(c - a), Abs(c - b)) * Max(Abs(c - a), Abs(c - b))
    ensures (c - b) * (c - b) <= Max(Abs(c - a), Abs(c - b)) * Max(Abs(c - a), Abs(c - b))
    ensures Max((c - a) * (c - a), (c - b) * (c - b)) == Max(Abs(c - a), Abs(c - b)) * Max(Abs(c - a), Abs(c - b))
  {
    var p, q := Abs(c - a), Abs(c - b);
    var m := Max(p, q);
    SquareOfAbs(c - a);
    SquareOfAbs(c - b);
    SquareMonotone(p, m);
    SquareMonotone(q, m);
  }

  /** The squared radius is the squared distance from the centre to the
      farthest of the four corners: no corner is farther, and one is that
      far. */
  lemma RadiusIsFarthestCorner(center: Point, r: Rectangle)
    ensures forall i :: 0 <= i < 4 ==> DistanceSquared(center, Corners(r)[i]) <= CalculateRadiusSquared(center, r)
    ensures exists i :: 0 <= i < 4 && DistanceSquared(center, Corners(r)[i]) == CalculateRadiusSquared(center, r)
  {
    AxisOffsetSquared(center.x, r.Left(), r.Right());
    AxisOffsetSquared(center.y, r.Top(), r.Bottom());
    var i := (if (center.x - r.Left()) * (center.x - r.Left()) < (center.x - r.Right()) * (center.x - r.Right()) then 1 else 0)
           + (if (center.y - r.Top()) * (center.y - r.Top()) < (center.y - r.Bottom()) * (center.y - r.Bottom()) then 2 else 0);
    assert DistanceSquared(center, Corners(r)[i]) == CalculateRadiusSquared(center, r);
  }

  /** `CalculateСircumcircleRadius`, squared: `Max` of the per-rectangle
      radii, which throws on an empty list.  The square root is monotone, so
      the maximum of the squares is the square of the maximum. */
  function CalculateCircumcircleRadiusSquared(center: Point, rectangles: seq<Rectangle>): (r: Result<nat>)
    ensures rectangles == [] <==> r.Err?
    ensures r.Err? ==> r.error == InvalidOperationException
    ensures r.Ok? ==> forall i :: 0 <= i < |rectangles| ==>
                        CalculateRadiusSquared(center, rectangles[i]) <= r.value
    ensures r.Ok? ==> exists i :: 0 <= i < |rectangles| &&
                        CalculateRadiusSquared(center, rectangles[i]) == r.value
  {
    if rectangles == [] then Err(InvalidOperationException)
    else
      var head := CalculateRadiusSquared(center, rectangles[0]);
      match CalculateCircumcircleRadiusSquared(center, rectangles[1..])
      case Err(_) => Ok(head)
      case Ok(rest) =>
        var m := Max(head, rest);
        assert exists i :: 0 <= i < |rectangles| && CalculateRadiusSquared(center, rectangles[i]) == m by {
          if m != head {
            var j :| 0 <= j < |rectangles[1..]| && CalculateRadiusSquared(center, rectangles[1..][j]) == rest;
            assert rectangles[j + 1] == rectangles[1..][j];
          }
        }
        Ok(m)
  }

  /** `CalculateRectangleArea`; see "Left out" for the 32-bit product. */
  function CalculateRectangleArea(rectangle: Rectangle): int {
    rectangle.height * rectangle.width
  }

  /** The areas summed over the list, as an unbounded integer. */
  function TotalArea(rectangles: seq<Rectangle>): int {
    if rectangles == [] then 0
    else CalculateRectangleArea(rectangles[0]) + TotalArea(rectangles[1..])
  }

  /** The covered area of a concatenation is the sum of the two parts'. */
  lemma {:induction false} RectanglesAreaAppend(a: seq<Rectangle>, b: seq<Rectangle>)
    ensures TotalArea(a + b) == TotalArea(a) + TotalArea(b)
  {
    if a == [] {
      assert a + b == b;
    } else {
      assert (a + b)[1..] == a[1..] + b;
      RectanglesAreaAppend(a[1..], b);
    }
  }

  /** Rectangles of non-negative size never cover a negative area, and each
      contributes no more than the total. */
  lemma {:induction false} RectanglesAreaBounds(rectangles: seq<Rectangle>)
    requires forall i :: 0 <= i < |rectangles| ==> rectangles[i].width >= 0 && rectangles[i].height >= 0
    ensures TotalArea(rectangles) >= 0
    ensures forall i :: 0 <= i < |rectangles| ==>
              CalculateRectangleArea(rectangles[i]) <= TotalArea(rectangles)
  {
    if rectangles != [] {
      RectanglesAreaBounds(rectangles[1..]);
      assert rectangles[0].height * rectangles[0].width >= 0;
      forall i | 1 <= i < |rectangles|
        ensures CalculateRectangleArea(rectangles[i]) <= TotalArea(rectangles)
      {
        assert rectangles[i] == rectangles[1..][i - 1];
      }
    }
  }

  /** Every running total of the areas, from the empty prefix to the whole
      list, fits in an `int`. */
  predicate RunningTotalsFit(rectangles: seq<Rectangle>) {
    forall k :: 0 <= k <= |rectangles| ==> IsInt32(TotalArea(rectangles[..k]))
  }

  /** `CalculateRectanglesArea`: LINQ's `Sum` over `int` adds in a `checked`
      context, so it throws `OverflowException` as soon as a running total
      leaves the 32-bit range, and otherwise returns the whole sum. */
  function CalculateRectanglesArea(rectangles: seq<Rectangle>): (r: Result<int>)
    ensures r.Ok? <==> RunningTotalsFit(rectangles)
    ensures r.Ok? ==> r.value == TotalArea(rectangles)
    ensures r.Err? ==> r.error == OverflowException
  {
    if rectangles == [] then
      assert rectangles[..0] == [];
      Ok(0)
    else
      var front := rectangles[..|rectangles| - 1];
      var last := rectangles[|rectangles| - 1];
      assert rectangles == front + [last];
      RectanglesAreaAppend(front, [last]);
      assert TotalArea([last]) == CalculateRectangleArea(last) by {
        assert [last][1..] == [];
      }
      assert forall k :: 0 <= k <= |front| ==> rectangles[..k] == front[..k];
      assert rectangles[..|rectangles|] == rectangles;
      match CalculateRectanglesArea(front)
      case Err(e) => Err(e)
      case Ok(sum) =>
        var total := sum + CalculateRectangleArea(last);
        if IsInt32(total) then Ok(total) else Err(OverflowException)
  }

  /** For rectangles of non-negative size the running totals only grow, so
      the sum throws exactly when the whole area is past `int.MaxValue`. */
  lemma {:induction false} AreaSumThrowsIffTotalTooLarge(rectangles: seq<Rectangle>)
    requires forall i :: 0 <= i < |rectangles| ==> rectangles[i].width >= 0 && rectangles[i].height >= 0
    ensures CalculateRectanglesArea(rectangles).Err? <==> TotalArea(rectangles) > IntMax
  {
    if TotalArea(rectangles) <= IntMax {
      forall k | 0 <= k <= |rectangles| ensures IsInt32(TotalArea(rectangles[..k])) {
        assert rectangles == rectangles[..k] + rectangles[k..];
        RectanglesAreaAppend(rectangles[..k], rectangles[k..]);
        RectanglesAreaBounds(rectangles[..k]);
        RectanglesAreaBounds(rectangles[k..]);
      }
    } else {
      assert rectangles[..|rectangles|] == rectangles;
    }
  }

  /** Two 40000 by 40000 rectangles: each area fits in an `int`, their sum
      does not, and `Sum` throws. */
  lemma TwoLargeRectanglesOverflow()
    ensures var big := Rectangle(0, 0, 40000, 40000);
            CalculateRectanglesArea([big, big]) == Err(OverflowException)
  {
    var big := Rectangle(0, 0, 40000, 40000);
    AreaSumThrowsIffTotalTooLarge([big, big]);
    assert [big, big][1..] == [big];
    assert [big][1..] == [];
  }

  // ------------------------------------------------------------- the finding

  /** `CalculateRadius` as written: `maxX * maxX + maxY * maxY` is `int`
      arithmetic, which wraps around past 2^31 - 1. */
  function CalculateRadiusSquaredInt32(center: Point, rectangle: Rectangle): int {
    var maxX := Max(Abs(center.x - rectangle.Left()), Abs(center.x - rectangle.Right()));
    var maxY := Max(Abs(center.y - rectangle.Top()), Abs(center.y - rectangle.Bottom()));
    Wrap32(Wrap32(maxX * maxX) + Wrap32(maxY * maxY))
  }

  /** A rectangle 46341 wide with a corner on the centre: the 32-bit square
      is negative, so `Math.Sqrt` yields NaN, while the true squared radius
      is positive. */
  lemma RadiusSquaredOverflows()
    ensures CalculateRadiusSquaredInt32(Point(0, 0), Rectangle(0, 0, 46341, 0)) < 0
    ensures CalculateRadiusSquared(Point(0, 0), Rectangle(0, 0, 46341, 0)) == 46341 * 46341
  {
    assert Wrap32(46341 * 46341) == 46341 * 46341 - 0x1_0000_0000;
  }

  // --------------------------------------------------------- size generator

  /** The range `min + Next(max - min)` can produce: `[min, max)`, or `min`
      alone when the bounds are equal. */
  predicate InDrawRange(v: int, min: int, max: int) {
    if min < max then min <= v < max else v == min
  }

  /** `GenerateRectangleSizes`: `rectangleCount` random sizes.  `Next` throws
      on a negative bound, which happens in the first round when a maximum is
      below its minimum; with no rounds nothing is drawn and nothing thrown. */
  method GenerateRectangleSizes(rectangleCount: int, minRectangleWidth: int, minRectangleHeight: int,
                                maxRectangleWidth: int, maxRectangleHeight: int)
    returns (r: Result<seq<Size>>)
    ensures r.Err? <==> rectangleCount > 0 &&
                        (maxRectangleWidth < minRectangleWidth || maxRectangleHeight < minRectangleHeight)
    ensures r.Err? ==> r.error == ArgumentOutOfRangeException
    ensures r.Ok? ==> |r.value| == (if rectangleCount < 0 then 0 else rectangleCount)
    ensures r.Ok? ==> forall i :: 0 <= i < |r.value| ==>
                        && InDrawRange(r.value[i].width, minRectangleWidth, maxRectangleWidth)
                        && InDrawRange(r.value[i].height, minRectangleHeight, maxRectangleHeight)
  {
    var rectangles: seq<Size> := [];
    var i := 0;
    while i < rectangleCount
      invariant 0 <= i && (rectangleCount >= 0 ==> i <= rectangleCount)
      invariant rectangleCount < 0 ==> i == 0
      invariant i > 0 ==> minRectangleWidth <= maxRectangleWidth && minRectangleHeight <= maxRectangleHeight
      invariant |rectangles| == i
      invariant forall k :: 0 <= k < i ==>
                  && InDrawRange(rectangles[k].width, minRectangleWidth, maxRectangleWidth)
                  && InDrawRange(rectangles[k].height, minRectangleHeight, maxRectangleHeight)
    {
      var widthSpan := maxRectangleWidth - minRectangleWidth;
      if widthSpan < 0 {
        return Err(ArgumentOutOfRangeException);
      }
      var dw := 0;
      if widthSpan > 0 {
        dw :| 0 <= dw < widthSpan;
      }
      var heightSpan := maxRectangleHeight - minRectangleHeight;
      if heightSpan < 0 {
        return Err(ArgumentOutOfRangeException);
      }
      var dh := 0;
      if heightSpan > 0 {
        dh :| 0 <= dh < heightSpan;
      }
      rectangles := rectangles + [Size(minRectangleWidth + dw, minRectangleHeight + dh)];
      i := i + 1;
    }
    r := Ok(rectangles);
  }

  /** `GenerateRectangleSizes(rectangleCount)` with its default bounds:
      widths from 50 up to 299, heights from 25 up to 89; it never throws. */
  method GenerateDefaultRectangleSizes(rectangleCount: int) returns (sizes: seq<Size>)
    ensures |sizes| == (if rectangleCount < 0 then 0 else rectangleCount)
    ensures forall i :: 0 <= i < |sizes| ==>
              50 <= sizes[i].width < 300 && 25 <= sizes[i].height < 90
  {
    var r := GenerateRectangleSizes(rectangleCount, 50, 25, 300, 90);
    sizes := r.value;
  }

  // ----------------------------------------------------------------- layout

  /** `DoLayout`: every size goes through `PutNextRectangle` in order and
      each returned rectangle is added to the fixture's own list. */
  method DoLayout(layouter: CircularCloudLayouter, sizedRects: seq<Size>, placedBefore: seq<Rectangle>)
    returns (placed: seq<Rectangle>)
    requires layouter.Valid()
    modifies layouter
    ensures layouter.Valid()
    ensures |placed| == |placedBefore| + |sizedRects| && placed[..|placedBefore|] == placedBefore
    ensures forall i :: 0 <= i < |sizedRects| ==>
              placed[|placedBefore| + i] == RectangleAt(layouter.cloudCenter, sizedRects[i])
    ensures layouter.placedRectangles == old(layouter.placedRectangles) + placed[|placedBefore|..]
  {
    placed := placedBefore;
    for i := 0 to |sizedRects|
      invariant layouter.Valid()
      invariant |placed| == |placedBefore| + i && placed[..|placedBefore|] == placedBefore
      invariant forall k :: 0 <= k < i ==>
                  placed[|placedBefore| + k] == RectangleAt(layouter.cloudCenter, sizedRects[k])
      invariant layouter.placedRectangles == old(layouter.placedRectangles) + placed[|placedBefore|..]
    {
      var r := layouter.PutNextRectangle(sizedRects[i]);
      placed := placed + [r];
    }
  }
}
