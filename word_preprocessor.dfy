/** `SimpleWordPreprocessor`: counts the interesting words of a text, split
    on a fixed set of eight characters. */
module WordPreprocessor {
  import opened DotNet
  import opened WordTransformer
  import opened WordCounting

  const WordSplitters: seq<char> := [' ', ',', '.', ';', ':', '\'', '-', '\n']

  datatype SimpleWordPreprocessor = SimpleWordPreprocessor(wordTransformer: SimpleWordTransformer)

  /** `ProcessStrings`: one entry per distinct word that is neither blank nor
      boring, holding its number of occurrences; no word contains one of the
      eight splitters, and the counts add up to the number of pieces kept. */
  function ProcessStrings(p: SimpleWordPreprocessor, text: seq<string>): (d: Entries)
    ensures DistinctKeys(d)
    ensures forall i, j :: 0 <= i < |d| && 0 <= j < |d[i].0| ==> d[i].0[j] !in WordSplitters
    ensures forall i :: 0 <= i < |d| ==>
              && !IsNullOrWhiteSpace(d[i].0)
              && !IsBoring(p.wordTransformer, d[i].0)
              && d[i].1 == multiset(SplitAll(text, WordSplitters))[d[i].0] >= 1
    ensures forall w :: w in SplitAll(text, WordSplitters) && !IsNullOrWhiteSpace(w) && !IsBoring(p.wordTransformer, w) ==>
              w in Keys(d)
    ensures Total(d) == |NonBlank(TransformAll(p.wordTransformer, SplitAll(text, WordSplitters)))|
  {
    CountedWords(p.wordTransformer, text, WordSplitters)
  }
}
