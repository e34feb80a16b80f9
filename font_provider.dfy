/** `TagCloudFontProvider`: maps a word's frequency to a font.  The
    constructor validates its arguments in a fixed order and tabulates one
    interpolated size per distinct word count; the lookup clamps to the
    extreme counts and otherwise walks down to the nearest recorded count. */
module FontProvider {
  import opened DotNet
  import opened StepTable

  /** `System.Drawing.Font`, reduced to its family name and size. */
  datatype Font = Font(name: string, size: int)

  const FontNames: seq<string> := ["Arial", "Calibri", "Times New Roman", "Courier"]

  /** The provider's read-only fields. */
  datatype TagCloudFontProvider = TagCloudFontProvider(
    fontSizeDictonary: map<int, real>,
    minWordCount: int,
    maxWordCount: int,
    minFontSize: int,
    maxFontSize: int)
  {
    /** What the constructor guarantees of every provider it returns. */
    ghost predicate Valid() {
      && minFontSize < maxFontSize
      && minWordCount in fontSizeDictonary && maxWordCount in fontSizeDictonary
      && (forall k :: k in fontSizeDictonary ==> minWordCount <= k <= maxWordCount)
      && fontSizeDictonary[minWordCount] == minFontSize as real
      && ValuesWithin(fontSizeDictonary, minFontSize as real, maxFontSize as real)
      && Monotone(fontSizeDictonary)
    }
  }

  /** `words.Select(group => group.Value)`. */
  function WordCounts(words: seq<(string, int)>): (counts: seq<int>)
    ensures |counts| == |words|
    ensures forall i :: 0 <= i < |words| ==> counts[i] == words[i].1
  {
    seq(|words|, i requires 0 <= i < |words| => words[i].1)
  }

  /** The constructor: a null word list, then an empty one, then a font
      range that is not strictly increasing are rejected, in that order. */
  function NewTagCloudFontProvider(words: Option<seq<(string, int)>>, minFontSize: int, maxFontSize: int)
    : (r: Result<TagCloudFontProvider>)
    ensures words.None? ==> r == Err(ArgumentNullException)
    ensures words.Some? && words.value == [] ==> r == Err(ArgumentException)
    ensures words.Some? && words.value != [] && minFontSize >= maxFontSize ==> r == Err(ArgumentOutOfRangeException)
    ensures words.Some? && words.value != [] && minFontSize < maxFontSize ==> r.Ok?
    ensures r.Ok? ==>
              && r.value.Valid()
              && r.value.minFontSize == minFontSize && r.value.maxFontSize == maxFontSize
              && r.value.minWordCount == Min(WordCounts(words.value))
              && r.value.maxWordCount == Max(WordCounts(words.value))
              && r.value.fontSizeDictonary.Keys == Elements(WordCounts(words.value))
    ensures r.Ok? ==>
              var keys := SortedDistinct(WordCounts(words.value));
              forall i :: 0 <= i < |keys| ==>
                r.value.fontSizeDictonary[keys[i]] == Interpolate(minFontSize as real, maxFontSize as real, i, |keys|)
  {
    if words.None? then Err(ArgumentNullException)
    else if words.value == [] then Err(ArgumentException)
    else if minFontSize >= maxFontSize then Err(ArgumentOutOfRangeException)
    else
      var counts := WordCounts(words.value);
      var wordCounters := SortedDistinct(counts);
      var table := BuildTable(wordCounters, minFontSize as real, maxFontSize as real);
      AscendingEnds(wordCounters, counts);
      BuildTableProperties(wordCounters, minFontSize as real, maxFontSize as real);
      Ok(TagCloudFontProvider(table, Min(counts), Max(counts), minFontSize, maxFontSize))
  }

  /** `fontNames[index % fontNames.Length]`: C#'s `%` keeps the sign of a
      negative index, and a negative array index throws. */
  function GetFontName(index: int): (r: Result<string>)
    ensures r.Ok? <==> index >= 0 || index % 4 == 0
    ensures r.Ok? ==> r.value == FontNames[index % 4]
    ensures r.Err? ==> r.error == IndexOutOfRangeException
  {
    var i := Remainder(index, |FontNames|);
    if 0 <= i then Ok(FontNames[i]) else Err(IndexOutOfRangeException)
  }

  /** `new Font(name, size)` after the name lookup, which may have thrown. */
  function MakeFont(name: Result<string>, size: int): (r: Result<Font>)
    ensures r.Ok? <==> name.Ok?
    ensures r.Ok? ==> r.value == Font(name.value, size)
    ensures r.Err? ==> r.error == name.error
  {
    match name
    case Ok(n) => Ok(Font(n, size))
    case Err(e) => Err(e)
  }

  // ----------------------------------------------------- the specification

  /** Frequencies strictly between the extreme counts: the lookup settles on
      the largest recorded count not above the frequency. */
  predicate InLookupRange(p: TagCloudFontProvider, frequency: int) {
    p.minWordCount < frequency < p.maxWordCount
  }

  /** The size the provider gives a frequency. */
  ghost function FontSizeFor(p: TagCloudFontProvider, frequency: int): int
    requires p.Valid()
  {
    if frequency <= p.minWordCount then p.minFontSize
    else if frequency >= p.maxWordCount then p.maxFontSize
    else Ceiling(p.fontSizeDictonary[FloorKey(p.fontSizeDictonary.Keys, p.minWordCount, frequency)])
  }

  /** The index the font name is chosen by: the frequency itself on the
      clamped branches, and one below the matched count after the walk (the
      loop decrements once more after its hit).  That decrement is unchecked
      `int` arithmetic: below `int.MinValue` it wraps to `int.MaxValue`. */
  ghost function NameIndexFor(p: TagCloudFontProvider, frequency: int): int
    requires p.Valid()
  {
    if !InLookupRange(p, frequency) then frequency
    else Wrap32(FloorKey(p.fontSizeDictonary.Keys, p.minWordCount, frequency) - 1)
  }

  ghost function FontFor(p: TagCloudFontProvider, frequency: int): Result<Font>
    requires p.Valid()
  {
    MakeFont(GetFontName(NameIndexFor(p, frequency)), FontSizeFor(p, frequency))
  }

  /** `GetFontForFrequency`, with its `do … while` walk.  `frequency` and
      the smallest count are C# `int`s; `probe` is the count the last
      `TryGetValue` looked up, one above `f` until the decrement wraps. */
  method GetFontForFrequency(p: TagCloudFontProvider, frequency: int) returns (font: Result<Font>)
    requires p.Valid()
    requires IsInt32(frequency) && IsInt32(p.minWordCount)
    ensures font == FontFor(p, frequency)
  {
    var fontSize: real := 1.0;
    if frequency <= p.minWordCount {
      return MakeFont(GetFontName(frequency), p.minFontSize);
    }
    if frequency >= p.maxWordCount {
      return MakeFont(GetFontName(frequency), p.maxFontSize);
    }
    var f := frequency;
    ghost var probe := f;
    var fontSizeIsSet: bool;
    fontSizeIsSet, fontSize := TryGetValue(p.fontSizeDictonary, f);
    f := Wrap32(f - 1);
    while !fontSizeIsSet && f >= p.minWordCount
      invariant p.minWordCount <= probe <= frequency
      invariant f == Wrap32(probe - 1)
      invariant forall j :: probe < j <= frequency ==> j !in p.fontSizeDictonary
      invariant fontSizeIsSet <==> probe in p.fontSizeDictonary
      invariant fontSizeIsSet ==> fontSize == p.fontSizeDictonary[probe]
      decreases probe - p.minWordCount
    {
      probe := f;
      fontSizeIsSet, fontSize := TryGetValue(p.fontSizeDictonary, f);
      f := Wrap32(f - 1);
    }
    // The smallest count is a key, so the walk always stops on a key.
    assert fontSizeIsSet;
    assert IsFloorKey(p.fontSizeDictonary.Keys, frequency, probe);
    if !fontSizeIsSet {
      fontSize := p.minFontSize as real;
    }
    font := MakeFont(GetFontName(f), Ceiling(fontSize));
  }

  // ------------------------------------------------------------- properties

  /** Every size lies between the two font sizes given to the constructor. */
  lemma FontSizeWithinRange(p: TagCloudFontProvider, frequency: int)
    requires p.Valid()
    ensures p.minFontSize <= FontSizeFor(p, frequency) <= p.maxFontSize
  {
    if InLookupRange(p, frequency) {
      var k := FloorKey(p.fontSizeDictonary.Keys, p.minWordCount, frequency);
      CeilingWithin(p.fontSizeDictonary[k], p.minFontSize, p.maxFontSize);
    }
  }

  /** A more frequent word never gets a smaller font. */
  lemma FontSizeMonotone(p: TagCloudFontProvider, f: int, g: int)
    requires p.Valid() && f <= g
    ensures FontSizeFor(p, f) <= FontSizeFor(p, g)
  {
    FontSizeWithinRange(p, f);
    FontSizeWithinRange(p, g);
    if InLookupRange(p, f) && InLookupRange(p, g) {
      var keys := p.fontSizeDictonary.Keys;
      FloorKeyMonotone(keys, p.minWordCount, f, g);
      var kf, kg := FloorKey(keys, p.minWordCount, f), FloorKey(keys, p.minWordCount, g);
      assert p.fontSizeDictonary[kf] <= p.fontSizeDictonary[kg];
      CeilingMonotone(p.fontSizeDictonary[kf], p.fontSizeDictonary[kg]);
    }
  }

  /** The extreme counts get exactly the extreme sizes. */
  lemma ExtremeCountsGetExtremeSizes(p: TagCloudFontProvider)
    requires p.Valid()
    ensures FontSizeFor(p, p.minWordCount) == p.minFontSize
    ensures FontSizeFor(p, p.maxWordCount) == p.maxFontSize || p.minWordCount == p.maxWordCount
  {
  }

  /** The decrement after the hit wraps: when the walk ends on the count
      `int.MinValue`, the name index becomes `int.MaxValue`, whose remainder
      by 4 is 3, so the font is "Courier" rather than a thrown
      `IndexOutOfRangeException`. */
  lemma DecrementWrapsAtIntMin(p: TagCloudFontProvider)
    requires p.Valid()
    requires p.minWordCount == IntMin && InLookupRange(p, IntMin + 1)
    requires IntMin + 1 !in p.fontSizeDictonary
    ensures FontFor(p, IntMin + 1) == Ok(Font("Courier", p.minFontSize))
  {
    var keys := p.fontSizeDictonary.Keys;
    var k := FloorKey(keys, IntMin, IntMin + 1);
    assert IsFloorKey(keys, IntMin + 1, IntMin);
    FloorKeyUnique(keys, IntMin + 1, k, IntMin);
    IntMaxNamesCourier();
    assert NameIndexFor(p, IntMin + 1) == IntMax;
    CeilingOfInteger(p.minFontSize);
    assert FontSizeFor(p, IntMin + 1) == p.minFontSize;
  }

  /** One below `int.MinValue` wraps to `int.MaxValue`, which names "Courier". */
  lemma IntMaxNamesCourier()
    ensures Wrap32(IntMin - 1) == IntMax
    ensures GetFontName(IntMax) == Ok("Courier")
  {
    assert (IntMin - 1) % 0x1_0000_0000 == IntMax;
    assert IntMax % 4 == 3;
  }

  /** The words ("a", `int.MinValue`) and ("b", `int.MaxValue`) with sizes 1
      and 2: frequency `int.MinValue + 1` walks down to `int.MinValue` and
      gets a Courier font of size 1. */
  lemma ExtremeCountsWrapToCourier()
    ensures var p := NewTagCloudFontProvider(Some([("a", IntMin), ("b", IntMax)]), 1, 2);
            p.Ok? && FontFor(p.value, IntMin + 1) == Ok(Font("Courier", 1))
  {
    var words := [("a", IntMin), ("b", IntMax)];
    var p := NewTagCloudFontProvider(Some(words), 1, 2).value;
    var counts := WordCounts(words);
    assert counts == [IntMin, IntMax];
    assert Elements(counts) == {IntMin, IntMax};
    DecrementWrapsAtIntMin(p);
  }

  /** A count recorded by the constructor, strictly between the extremes,
      gets its own table entry rounded up: the size of its position among
      the distinct counts. */
  lemma {:induction false} RecordedCountGetsItsEntry(words: seq<(string, int)>, minFontSize: int, maxFontSize: int, i: int)
    requires words != [] && minFontSize < maxFontSize
    requires 0 <= i < |SortedDistinct(WordCounts(words))|
    requires NewTagCloudFontProvider(Some(words), minFontSize, maxFontSize).Ok?
    requires InLookupRange(NewTagCloudFontProvider(Some(words), minFontSize, maxFontSize).value,
                           SortedDistinct(WordCounts(words))[i])
    ensures var p := NewTagCloudFontProvider(Some(words), minFontSize, maxFontSize).value;
            var keys := SortedDistinct(WordCounts(words));
            FontSizeFor(p, keys[i]) == Ceiling(Interpolate(minFontSize as real, maxFontSize as real, i, |keys|))
  {
    var p := NewTagCloudFontProvider(Some(words), minFontSize, maxFontSize).value;
    var keys := SortedDistinct(WordCounts(words));
    assert keys[i] in Elements(keys);
    var k := FloorKey(p.fontSizeDictonary.Keys, p.minWordCount, keys[i]);
    assert IsFloorKey(p.fontSizeDictonary.Keys, keys[i], keys[i]);
    FloorKeyUnique(p.fontSizeDictonary.Keys, keys[i], k, keys[i]);
  }
}
