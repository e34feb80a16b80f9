# Tag cloud layouter, modelled in Dafny

This project models the core of a C# tag-cloud generator. The generator reads a text, counts its interesting words, gives each word a font size by frequency, places one rectangle per word around a cloud centre and colours each rectangle by its height. The model covers five pieces.

- **The layouter** (`CircularCloudLayouter`).
  - A class with a fixed cloud centre and an append-only list of placed rectangles.
  - Its placement step moves a by-value copy of the new rectangle, so every rectangle it hands out sits with its top-left corner on the centre.
  - The test fixture sets `CompactRequired`, `SpiralStepSize` and `SpiralStepAngleRadians` and calls `GetCurrentLayout` (`CircularCloudLayouter_Should.cs:100`, `:102`, `:106`, `:149-151`). The class has none of them, and the model follows the class.
- **The geometry helpers of its test fixture.**
  - The closed overlap test and the scan over the other placed rectangles.
  - The circumcircle radius, kept squared as an integer.
  - The covered area.
  - The random size generator and the loop that feeds the layouter.
- **The font-size table** (`TagCloudFontProvider`).
  - The constructor checks its arguments in a fixed order and maps each distinct word count to an interpolated size.
  - `GetFontForFrequency` clamps at the extreme counts. Otherwise its `do … while` loop walks down to the nearest recorded count.
- **The saturation table** (`RectangleColorProvider`). It has the same shape, keyed by rectangle height, and clamps to 0 and 1.
- **Word preprocessing.**
  - `SimpleWordTransformer` blanks out boring words, ignoring case.
  - `SimpleWordPreprocessor` splits, transforms, drops blank words and counts.
  - `SimplePreprocessor` does the same, then sorts by decreasing count and keeps the first N.

Modules:

| module | file | models |
|---|---|---|
| `DotNet` | `dotnet.dfy` | `Result` for thrown exceptions, `Option` for null, 32-bit wrap-around, C#'s `%`, `Math.Ceiling`, `Char.IsWhiteSpace`, `ToLower` |
| `Drawing` | `drawing.dfy` | `System.Drawing` `Point`, `Size`, `Rectangle` as values |
| `CloudLayouter` | `cloud_layouter.dfy` | `CircularCloudLayouter` |
| `CloudLayouterFixture` | `cloud_layouter_fixture.dfy` | the fixture's helpers |
| `StepTable` | `step_table.dfy` | the interpolated lookup table shared by the two providers |
| `FontProvider` | `font_provider.dfy` | `TagCloudFontProvider` |
| `ColorProvider` | `color_provider.dfy` | `RectangleColorProvider` |
| `WordTransformer` | `word_transformer.dfy` | `SimpleWordTransformer` |
| `WordCounting` | `word_counting.dfy` | the split, transform, filter and count steps shared by both preprocessors |
| `WordPreprocessor` | `word_preprocessor.dfy` | `SimpleWordPreprocessor` |
| `TextPreprocessor` | `simple_preprocessor.dfy` | `SimplePreprocessor` |

How C# is modelled:

- A thrown exception is an `Err` value of `Result`, and a possibly-null argument is an `Option`.
- `Rectangle` is a struct, so it is a datatype. The layouter changes its list in place, so it is a class.
- The providers are datatypes built by functions returning `Result`. Their tables and bounds are `readonly`. `RectangleColorProvider`'s `ColorHue` and `ColorLuminosity` have public setters, and a set is a datatype update `p.(colorHue := h)`.
- Each lookup loop is a method proved equal to a ghost specification function. That function is defined by the largest key not above the argument.
- A dictionary returned to the caller is the sequence of its entries, in enumeration order.

## Model

| member | source | states |
|---|---|---|
| CloudLayouter.RandomNext | cs/TagCloudLayouter/CircularCloudLayouter.cs:30-31 | `Random.Next(0)` is 0; a positive bound gives a draw below it |
| CloudLayouter.CircularCloudLayouter.constructor | cs/TagCloudLayouter/CircularCloudLayouter.cs:74-77 | the centre is the one given, no rectangle is placed yet, and `circleRadius` is 0 |
| CloudLayouter.CircularCloudLayouter.NextRandom | cs/TagCloudLayouter/CircularCloudLayouter.cs:30-31 | one draw of the layouter's generator, which changes nothing but the generator's state |
| CloudLayouter.CircularCloudLayouter.FindRectaglePlace | cs/TagCloudLayouter/CircularCloudLayouter.cs:28-32 | with `circleRadius` at 0 both draws are 0, so the copy moves to (−centre.X, −centre.Y) (wrapped to 32 bits); the layouter changes nothing but its generator state |
| CloudLayouter.CircularCloudLayouter.PutNextRectangle | cs/TagCloudLayouter/CircularCloudLayouter.cs:20-26 | the result has the requested size, of any sign, and its top-left corner on the centre; it is appended once at the end, with earlier entries unchanged; `circleRadius` stays 0 |
| CloudLayouter.PlaceTwice | cs/TagCloudLayouter/CircularCloudLayouter.cs:20-26 | two placements of equal sizes return equal rectangles and append exactly those two |
| CloudLayouterFixture.IntersectionIsSymmetric | cs/TagCloudLayouter/CircularCloudLayouter_Should.cs:241-247 | the overlap test does not depend on the order of its arguments |
| CloudLayouterFixture.IntersectionMeansCommonPoint | cs/TagCloudLayouter/CircularCloudLayouter_Should.cs:241-247 | for non-negative sizes, the test holds if and only if the closed regions share a point |
| CloudLayouterFixture.TouchingRectanglesIntersect | cs/TagCloudLayouter/CircularCloudLayouter_Should.cs:243-246 | the test is closed: rectangles that only share an edge count as intersecting |
| CloudLayouterFixture.NonNegativeRectangleIntersectsItself | cs/TagCloudLayouter/CircularCloudLayouter_Should.cs:243-246 | a rectangle of non-negative size intersects itself |
| CloudLayouterFixture.HasIntersectWithOthers | cs/TagCloudLayouter/CircularCloudLayouter_Should.cs:226-230 | true if and only if some placed rectangle that differs from the current one by value intersects it |
| CloudLayouterFixture.DuplicatesNeverFlag | cs/TagCloudLayouter/CircularCloudLayouter_Should.cs:226-230 | adding any number of exact copies of the current rectangle never changes the answer |
| CloudLayouterFixture.StubLayoutIntersects | cs/TagCloudLayouter/CircularCloudLayouter_Should.cs:134 | on rectangles that share one top-left corner and have non-negative sizes, some rectangle is reported as intersecting if and only if two of them differ |
| CloudLayouterFixture.RadiusIsFarthestCorner | cs/TagCloudLayouter/CircularCloudLayouter_Should.cs:232-239 | the squared radius is at least the squared distance from the centre to each corner and equals it for one corner |
| CloudLayouterFixture.CalculateCircumcircleRadiusSquared | cs/TagCloudLayouter/CircularCloudLayouter_Should.cs:221-224 | an empty list throws (`Max` of nothing); otherwise the result is at least every rectangle's radius and equals one of them |
| CloudLayouterFixture.CalculateRectanglesArea | cs/TagCloudLayouter/CircularCloudLayouter_Should.cs:205-208 | LINQ's checked `Sum`: `OverflowException` if and only if some running total leaves the `int` range; otherwise the exact total area |
| CloudLayouterFixture.AreaSumThrowsIffTotalTooLarge | cs/TagCloudLayouter/CircularCloudLayouter_Should.cs:205-213 | for non-negative sizes the sum throws if and only if the total area exceeds `int.MaxValue` |
| CloudLayouterFixture.TwoLargeRectanglesOverflow | cs/TagCloudLayouter/CircularCloudLayouter_Should.cs:205-213 | two 40000 × 40000 rectangles make the sum throw `OverflowException` |
| CloudLayouterFixture.RectanglesAreaAppend | cs/TagCloudLayouter/CircularCloudLayouter_Should.cs:205-208 | the unbounded total area is additive over concatenation |
| CloudLayouterFixture.RectanglesAreaBounds | cs/TagCloudLayouter/CircularCloudLayouter_Should.cs:205-213 | for non-negative sizes the area of a list is non-negative and at least each rectangle's area |
| CloudLayouterFixture.RadiusSquaredOverflows | cs/TagCloudLayouter/CircularCloudLayouter_Should.cs:232-239 | as written, the 32-bit squared radius of a 46341-wide rectangle at the centre is negative while the true value is 46341² |
| CloudLayouterFixture.GenerateRectangleSizes | cs/TagCloudLayouter/CircularCloudLayouter_Should.cs:27-37 | it throws exactly when some round is drawn with a maximum below its minimum; otherwise it returns max(count, 0) sizes, each width in [minW, maxW) and each height in [minH, maxH), or equal to the minimum when the bounds are equal |
| CloudLayouterFixture.GenerateDefaultRectangleSizes | cs/TagCloudLayouter/CircularCloudLayouter_Should.cs:27 | with the default bounds it never throws and returns max(count, 0) sizes, widths in [50, 300) and heights in [25, 90) |
| CloudLayouterFixture.DoLayout | cs/TagCloudLayouter/CircularCloudLayouter_Should.cs:173-179 | each size is placed in order; the fixture's list and the layouter's list both gain exactly the rectangles returned |
| StepTable.Min | cs/TagCloudLayouter/TagCloudFontProvider.cs:49 | LINQ `Min` returns an element that no element is below |
| StepTable.Max | cs/TagCloudLayouter/TagCloudFontProvider.cs:48 | LINQ `Max` returns an element that no element is above |
| StepTable.SortedDistinct | cs/TagCloudLayouter/TagCloudFontProvider.cs:42 | `Distinct().OrderBy()` is strictly ascending and has the same values as its input |
| StepTable.AscendingEnds | cs/TagCloudLayouter/TagCloudFontProvider.cs:42-49 | the first and last of the ascending distinct counts are the `Min` and `Max` of the counts |
| StepTable.BuildTable | cs/TagCloudLayouter/TagCloudFontProvider.cs:43-46 | the keys are exactly the distinct values, and the key at position pos maps to lo + (hi − lo)·pos/len |
| StepTable.BuildTableProperties | cs/TagCloudLayouter/TagCloudFontProvider.cs:42-46 | the smallest key maps to lo, every value lies in [lo, hi), and values grow with the key |
| StepTable.FloorKeyExists | cs/TagCloudLayouter/TagCloudFontProvider.cs:66-76 | when the minimum is a key, walking down from any value above it meets the largest key not above that value, so the loop's fallback is unreachable |
| FontProvider.NewTagCloudFontProvider | cs/TagCloudLayouter/TagCloudFontProvider.cs:24-52 | null words throw `ArgumentNullException` first, then empty words `ArgumentException`, then min ≥ max `ArgumentOutOfRangeException`; otherwise the table's keys are the distinct counts, each interpolated by position, with min and max counts and sizes recorded |
| FontProvider.GetFontName | cs/TagCloudLayouter/TagCloudFontProvider.cs:55-58 | the name at index mod 4; a negative index not divisible by 4 gives a negative remainder and throws `IndexOutOfRangeException` |
| FontProvider.GetFontForFrequency | cs/TagCloudLayouter/TagCloudFontProvider.cs:60-78 | the min size at or below the min count and the max size at or above the max count; in between, the ceiling of the value of the largest recorded count not above the frequency, named by that count − 1 with 32-bit wrap-around |
| FontProvider.FontSizeWithinRange | cs/TagCloudLayouter/TagCloudFontProvider.cs:60-78 | every font size lies between the min and max sizes |
| FontProvider.FontSizeMonotone | cs/TagCloudLayouter/TagCloudFontProvider.cs:60-78 | a higher frequency never gets a smaller font size |
| FontProvider.ExtremeCountsGetExtremeSizes | cs/TagCloudLayouter/TagCloudFontProvider.cs:63-64 | the min count gets the min size; the max count gets the max size unless it equals the min count, since the `<=` test comes first |
| FontProvider.DecrementWrapsAtIntMin | cs/TagCloudLayouter/TagCloudFontProvider.cs:67-77 | when the walk ends on the count `int.MinValue`, `frequency--` wraps to `int.MaxValue` and the font is Courier at the min size, not an `IndexOutOfRangeException` |
| FontProvider.ExtremeCountsWrapToCourier | cs/TagCloudLayouter/TagCloudFontProvider.cs:24-77 | with counts `int.MinValue` and `int.MaxValue` and sizes 1 and 2, the constructor succeeds and frequency `int.MinValue + 1` gets Courier at size 1 |
| FontProvider.RecordedCountGetsItsEntry | cs/TagCloudLayouter/TagCloudFontProvider.cs:42-77 | a recorded count strictly between the extremes gets the ceiling of its own interpolated size |
| ColorProvider.NewRectangleColorProvider | cs/TagCloudLayouter/RectangleColorProvider.cs:51-70 | null throws `ArgumentNullException` and empty throws `InvalidOperationException`; otherwise the keys are the distinct heights, each mapped to 1/5 + 4/5·pos/len, with hue 240 and luminosity 0.5 |
| ColorProvider.GetSaturationByHeight | cs/TagCloudLayouter/RectangleColorProvider.cs:31-49 | 0 at or below the min height and 1 at or above the max height; in between, the value of the largest recorded height not above the height |
| ColorProvider.GetRectangleColor | cs/TagCloudLayouter/RectangleColorProvider.cs:18-29 | an HSL colour with the provider's hue and luminosity, the height's saturation and alpha 1 |
| ColorProvider.SettersKeepSaturation | cs/TagCloudLayouter/RectangleColorProvider.cs:15-16 | setting the hue or luminosity keeps the provider valid and changes no saturation |
| ColorProvider.SaturationInUnitInterval | cs/TagCloudLayouter/RectangleColorProvider.cs:31-49 | every saturation lies in [0, 1] |
| ColorProvider.SaturationMonotone | cs/TagCloudLayouter/RectangleColorProvider.cs:31-49 | a taller rectangle is never less saturated |
| ColorProvider.RecordedHeightGetsItsEntry | cs/TagCloudLayouter/RectangleColorProvider.cs:62-69 | a recorded height strictly between the extremes gets its own interpolated saturation |
| WordTransformer.NewSimpleWordTransformer | cs/TagCloudLayouter/SimpleWordTransformer.cs:13-16 | null throws `ArgumentNullException`; otherwise every boring word is kept in lower case |
| WordTransformer.GetTransformedWord | cs/TagCloudLayouter/SimpleWordTransformer.cs:18-21 | the empty string for a boring word and the word unchanged otherwise |
| WordTransformer.TransformIdempotent | cs/TagCloudLayouter/SimpleWordTransformer.cs:20 | transforming the result again changes nothing |
| WordTransformer.SameLowerCaseSameDecision | cs/TagCloudLayouter/SimpleWordTransformer.cs:20 | words with the same lower-case form are both boring or both kept |
| WordTransformer.BlankedIffBoringIgnoringCase | cs/TagCloudLayouter/SimpleWordTransformer.cs:15-20 | a non-empty word is blanked if and only if it equals some listed word once both are lowered |
| WordCounting.Split | cs/TagCloudLayouter/SimplePreprocessor.cs:26 | `String.Split` gives one piece more than there are separators, and no piece holds a separator; an empty separator list splits on white space |
| WordCounting.SplitRoundTrip | cs/TagCloudLayouter/SimplePreprocessor.cs:26 | putting each separator back between the pieces gives back the string |
| WordCounting.NonBlank | cs/TagCloudLayouter/SimplePreprocessor.cs:28 | no kept word is blank, and each non-blank word keeps its number of occurrences |
| WordCounting.TransformedCount | cs/TagCloudLayouter/SimplePreprocessor.cs:27 | a non-empty word occurs among the transformed pieces as often as among the pieces, or not at all when it is boring |
| WordCounting.CountWords | cs/TagCloudLayouter/SimplePreprocessor.cs:29-30 | `GroupBy` then `ToDictionary`: distinct keys, exactly the words given, each word's count its number of occurrences, and counts summing to the number of words |
| WordCounting.CountWordsEntries | cs/TagCloudLayouter/SimplePreprocessor.cs:29-30 | each entry's count is its word's number of occurrences, at least 1 |
| WordCounting.CountedWords | cs/TagCloudLayouter/SimplePreprocessor.cs:25-30 | the keys are distinct, non-blank, non-boring and free of separators; each count is the number of pieces equal to the key; every non-blank, non-boring piece is a key; and the counts sum to the number of non-blank transformed pieces |
| WordPreprocessor.ProcessStrings | cs/TagCloudLayouter/SimpleWordPreprocessor.cs:16-24 | with the eight fixed splitters: distinct non-blank, non-boring keys holding no splitter; each count is the key's number of occurrences among the pieces; every interesting piece is a key; and the counts sum to the number of non-blank transformed pieces |
| TextPreprocessor.NewSimplePreprocessor | cs/TagCloudLayouter/SimplePreprocessor.cs:11-21 | null splitters select the thirteen defaults; any given list, even an empty one, is kept |
| TextPreprocessor.EmptySplittersSplitOnWhiteSpace | cs/TagCloudLayouter/SimplePreprocessor.cs:20 | an empty splitter list, which does not fall back to the defaults, makes `Split` cut at white space |
| TextPreprocessor.SortByCountDescending | cs/TagCloudLayouter/SimplePreprocessor.cs:31 | `OrderByDescending` returns a permutation of its input |
| TextPreprocessor.SortByCountDescendingProperties | cs/TagCloudLayouter/SimplePreprocessor.cs:31 | the sorted counts never increase, and distinct keys stay distinct |
| TextPreprocessor.Take | cs/TagCloudLayouter/SimplePreprocessor.cs:32 | a prefix of length min(count, length), empty for a count of 0 or less |
| TextPreprocessor.TakeKeepsMostFrequent | cs/TagCloudLayouter/SimplePreprocessor.cs:31-32 | a prefix of the sorted counts is sorted, distinct and drawn from the counts, and no entry left out is more frequent than one kept |
| TextPreprocessor.ProcessStrings | cs/TagCloudLayouter/SimplePreprocessor.cs:23-33 | the result is drawn from the counted words (see `WordCounting.CountedWords`) and has distinct keys, non-increasing counts and min(max(amount, 0), #words) entries; no word left out is more frequent than a kept one; all words are kept when they number at most the amount |

## Left out

- Spiral placement and compaction. The test fixture sets `CompactRequired`, `SpiralStepSize`, `SpiralStepAngleRadians` and `GetCurrentLayout`, but the layouter has none of them.
- The fixture's layout expectations (distinct positions, no intersections, shrinking circumcircle) are not claimed of the layouter, which does not meet them. `StubLayoutIntersects` states what the intersection verdict is on its output.
- `Draw`, `Save` and the `CircularCloudLayouterSould` fixture in `CircularCloudLayouter.cs`: screen capture, bitmaps and the file system.
- The layouter's private `HasIntersectWithOthers` and `HasIntersectWithOne` stubs only throw `NotImplementedException` and are never called.
- `System.Random`'s algorithm.
  - The layouter's generator is a counter, and `RandomNext` fixes each draw as the counter modulo the bound. This choice is harmless, because the layouter only ever calls `Next(0)`, which is 0.
  - `GenerateRectangleSizes` picks each draw nondeterministically within the bounds of `Next`.
- Floating point.
  - `Math.Sqrt`, π, the circumcircle area and the coverage ratios appear only through the integer squared radius.
  - The `float` interpolations and `Math.Ceiling` are computed on reals, without single-precision rounding.
- The HSL-to-RGB conversion and `Color.FromArgb` in `GetRectangleColor`. The model stops at the HSL colour.
- `System.Drawing.Font` is a (name, size) pair; the model does not reject non-positive sizes.
- `ToLower` lowers ASCII letters only. Culture-sensitive case mapping of other letters is not modelled.
- Null inputs other than the ones the constructors check: a null text array, null lines or words, and a null transformer.
- 32-bit wrap-around:
  - `Right`, `Bottom` and `Height * Width` are unbounded integers. So `CalculateRectanglesArea` checks the running totals of exact areas, not of wrapped ones.
  - `max − min` in `GenerateRectangleSizes` is unbounded.
  - `Math.Abs(int.MinValue)` in `CalculateRadius` would throw `OverflowException`; the model does not.
  - `height--` in `GetSaturationByHeight` is unbounded. The wrapped value is never read, because the loop exits on a hit.
  - Modelled: the wrap of `frequency--` in `GetFontForFrequency`, the checked `Sum` in `CalculateRectanglesArea`, the coordinates of `FindRectaglePlace`, and the squared radius (see Findings).
- The dead null check on a `Rectangle` struct in `GetRectangleColor`.
- TextPreprocessor.SortByCountDescending: the contract does not state stability. The function inserts entries with equal counts in input order, as `OrderByDescending` does. The input order is the dictionary's insertion order, which .NET does not guarantee.
- The laziness of the returned `IEnumerable`; the model computes the whole sequence.
- Aliasing of the caller's collections.
  - `SimpleWordTransformer` keeps a deferred `Select` over the caller's boring words (`SimpleWordTransformer.cs:15`).
  - `SimplePreprocessor` keeps the caller's splitter enumerable (`SimplePreprocessor.cs:20`).
  - Both see later changes to those collections. The model takes a snapshot at construction.
- The presenters, `ExtendedCloudPresenter.CalculateRadius` (the same formula as the fixture's), `WordRectangleGenerator`, `SimpleTextFileReader`, `SimpleTagCloud`, the console program and the interfaces. They are drawing, file I/O, dependency wiring and declarations, and are not part of this model.

## Findings

| source | as written | input that shows it | evidently intended | confidence | as-written member | corrected member |
|---|---|---|---|---|---|---|
| cs/TagCloudLayouter/CircularCloudLayouter_Should.cs:238 | `maxX * maxX + maxY * maxY` is 32-bit `int` arithmetic and wraps once maxX² + maxY² exceeds `int.MaxValue`, already at offsets (32768, 32768) | centre (0, 0) and a rectangle at (0, 0) of width 46341: the sum wraps to a negative number, so `Math.Sqrt` gives NaN | the true squared distance to the farthest corner, computed without overflow | not executed | CloudLayouterFixture.CalculateRadiusSquaredInt32 (shown by CloudLayouterFixture.RadiusSquaredOverflows) | CloudLayouterFixture.CalculateRadiusSquared (proved by CloudLayouterFixture.RadiusIsFarthestCorner) |
