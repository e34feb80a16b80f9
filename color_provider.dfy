/** `RectangleColorProvider`: colours a rectangle by its height.  The
    constructor tabulates one saturation per distinct height; the lookup
    clamps to 0 and 1 at the extreme heights and otherwise walks down to the
    nearest recorded height. */
module ColorProvider {
  import opened DotNet
  import opened Drawing
  import opened StepTable

  /** The colour before its conversion to RGB: hue, saturation, luminosity
      and alpha. */
  datatype HslColor = HslColor(hue: int, saturation: real, luminosity: real, alpha: real)

  /** The smallest table value, `1f/5`. */
  const LowestSaturation: real := 1.0 / 5.0

  datatype RectangleColorProvider = RectangleColorProvider(
    rectanglesColorDictonary: map<int, real>,
    maxRectangleHeight: int,
    minRectangleHeight: int,
    colorHue: int,
    colorLuminosity: real)
  {
    /** What the constructor guarantees of every provider it returns. */
    ghost predicate Valid() {
      && minRectangleHeight in rectanglesColorDictonary && maxRectangleHeight in rectanglesColorDictonary
      && (forall k :: k in rectanglesColorDictonary ==> minRectangleHeight <= k <= maxRectangleHeight)
      && ValuesWithin(rectanglesColorDictonary, LowestSaturation, 1.0)
      && Monotone(rectanglesColorDictonary)
    }
  }

  /** `rectangles.Select(rect => rect.Height)`. */
  function Heights(rectangles: seq<Rectangle>): (heights: seq<int>)
    ensures |heights| == |rectangles|
    ensures forall i :: 0 <= i < |rectangles| ==> heights[i] == rectangles[i].height
  {
    seq(|rectangles|, i requires 0 <= i < |rectangles| => rectangles[i].height)
  }

  /** The constructor: a null sequence throws, and so does an empty one,
      whose `Max()` has nothing to return.  Hue and luminosity start at their
      defaults, 240 and 0.5. */
  function NewRectangleColorProvider(rectangles: Option<seq<Rectangle>>): (r: Result<RectangleColorProvider>)
    ensures rectangles.None? ==> r == Err(ArgumentNullException)
    ensures rectangles.Some? && rectangles.value == [] ==> r == Err(InvalidOperationException)
    ensures rectangles.Some? && rectangles.value != [] ==> r.Ok?
    ensures r.Ok? ==>
              && r.value.Valid()
              && r.value.minRectangleHeight == Min(Heights(rectangles.value))
              && r.value.maxRectangleHeight == Max(Heights(rectangles.value))
              && r.value.rectanglesColorDictonary.Keys == Elements(Heights(rectangles.value))
              && r.value.colorHue == 240 && r.value.colorLuminosity == 0.5
    ensures r.Ok? ==>
              var keys := SortedDistinct(Heights(rectangles.value));
              forall i :: 0 <= i < |keys| ==>
                r.value.rectanglesColorDictonary[keys[i]] == Interpolate(LowestSaturation, 1.0, i, |keys|)
  {
    if rectangles.None? then Err(ArgumentNullException)
    else if rectangles.value == [] then Err(InvalidOperationException)
    else
      var heights := Heights(rectangles.value);
      var rectanglesHeightArray := SortedDistinct(heights);
      var table := BuildTable(rectanglesHeightArray, LowestSaturation, 1.0);
      assert heights[0] in Elements(heights);
      assert Min(heights) in Elements(heights) && Max(heights) in Elements(heights);
      BuildTableProperties(rectanglesHeightArray, LowestSaturation, 1.0);
      Ok(RectangleColorProvider(table, Max(heights), Min(heights), 240, 0.5))
  }

  // ----------------------------------------------------- the specification

  /** The saturation the provider gives a height. */
  ghost function SaturationFor(p: RectangleColorProvider, height: int): real
    requires p.Valid()
  {
    if height <= p.minRectangleHeight then 0.0
    else if height >= p.maxRectangleHeight then 1.0
    else p.rectanglesColorDictonary[FloorKey(p.rectanglesColorDictonary.Keys, p.minRectangleHeight, height)]
  }

  /** `GetSaturationByHeight`, with its `do … while` walk. */
  method GetSaturationByHeight(p: RectangleColorProvider, height: int) returns (s: real)
    requires p.Valid()
    ensures s == SaturationFor(p, height)
  {
    var saturation: real := 0.0;
    if height <= p.minRectangleHeight {
      return 0.0;
    }
    if height >= p.maxRectangleHeight {
      return 1.0;
    }
    var h := height;
    var fontSizeIsSet: bool;
    fontSizeIsSet, saturation := TryGetValue(p.rectanglesColorDictonary, h);
    h := h - 1;
    while !fontSizeIsSet && h >= p.minRectangleHeight
      invariant p.minRectangleHeight - 1 <= h < height
      invariant forall j :: h + 1 < j <= height ==> j !in p.rectanglesColorDictonary
      invariant fontSizeIsSet <==> h + 1 in p.rectanglesColorDictonary
      invariant fontSizeIsSet ==> saturation == p.rectanglesColorDictonary[h + 1]
      decreases h - p.minRectangleHeight + 1
    {
      fontSizeIsSet, saturation := TryGetValue(p.rectanglesColorDictonary, h);
      h := h - 1;
    }
    // The smallest height is a key, so the walk always stops on a key.
    assert fontSizeIsSet;
    assert IsFloorKey(p.rectanglesColorDictonary.Keys, height, h + 1);
    if !fontSizeIsSet {
      saturation := 0.0;
    }
    s := saturation;
  }

  /** `GetRectangleColor`, up to the HSL colour it converts to RGB. */
  method GetRectangleColor(p: RectangleColorProvider, rectangle: Rectangle) returns (color: HslColor)
    requires p.Valid()
    ensures color == HslColor(p.colorHue, SaturationFor(p, rectangle.height), p.colorLuminosity, 1.0)
  {
    var saturation := GetSaturationByHeight(p, rectangle.height);
    color := HslColor(p.colorHue, saturation, p.colorLuminosity, 1.0);
  }

  /** `ColorHue` and `ColorLuminosity` have public setters; setting them is
      a datatype update, which keeps the provider valid and changes no
      saturation. */
  lemma SettersKeepSaturation(p: RectangleColorProvider, hue: int, luminosity: real, height: int)
    requires p.Valid()
    ensures var q := p.(colorHue := hue, colorLuminosity := luminosity);
            q.Valid() && SaturationFor(q, height) == SaturationFor(p, height)
  {
  }

  // ------------------------------------------------------------- properties

  /** Every saturation is a valid one. */
  lemma SaturationInUnitInterval(p: RectangleColorProvider, height: int)
    requires p.Valid()
    ensures 0.0 <= SaturationFor(p, height) <= 1.0
  {
  }

  /** A taller rectangle is never less saturated. */
  lemma SaturationMonotone(p: RectangleColorProvider, g: int, h: int)
    requires p.Valid() && g <= h
    ensures SaturationFor(p, g) <= SaturationFor(p, h)
  {
    var keys := p.rectanglesColorDictonary.Keys;
    if p.minRectangleHeight < g && h < p.maxRectangleHeight {
      FloorKeyMonotone(keys, p.minRectangleHeight, g, h);
    }
  }

  /** A height recorded by the constructor, strictly between the extremes,
      gets its own table entry: the saturation of its position among the
      distinct heights. */
  lemma {:induction false} RecordedHeightGetsItsEntry(rectangles: seq<Rectangle>, i: int)
    requires rectangles != []
    requires 0 <= i < |SortedDistinct(Heights(rectangles))|
    requires NewRectangleColorProvider(Some(rectangles)).Ok?
    requires var p := NewRectangleColorProvider(Some(rectangles)).value;
             p.minRectangleHeight < SortedDistinct(Heights(rectangles))[i] < p.maxRectangleHeight
    ensures var p := NewRectangleColorProvider(Some(rectangles)).value;
            var keys := SortedDistinct(Heights(rectangles));
            SaturationFor(p, keys[i]) == Interpolate(LowestSaturation, 1.0, i, |keys|)
  {
    var p := NewRectangleColorProvider(Some(rectangles)).value;
    var keys := SortedDistinct(Heights(rectangles));
    assert keys[i] in Elements(keys);
    var k := FloorKey(p.rectanglesColorDictonary.Keys, p.minRectangleHeight, keys[i]);
    assert IsFloorKey(p.rectanglesColorDictonary.Keys, keys[i], keys[i]);
    FloorKeyUnique(p.rectanglesColorDictonary.Keys, keys[i], k, keys[i]);
  }
}
