/** The steps both text preprocessors chain together: split every line into
    pieces, transform each piece, drop the blank ones, and count each
    distinct word (`GroupBy(w => w).ToDictionary(g => g.Key, g => g.Count())`).
    A dictionary is modelled by its entries in enumeration order. */
module WordCounting {
  import opened DotNet
  import opened WordTransformer

  // -------------------------------------------------------------- splitting

  /** `String.Split(char[])` splits on the given characters, or on white
      space when the array is empty. */
  predicate IsSeparator(c: char, separators: seq<char>) {
    if separators == [] then IsWhiteSpace(c) else c in separators
  }

  /** The separator characters of `s`, in order. */
  function SeparatorsIn(s: string, separators: seq<char>): string {
    if s == [] then []
    else (if IsSeparator(s[0], separators) then [s[0]] else []) + SeparatorsIn(s[1..], separators)
  }

  predicate FreeOf(piece: string, separators: seq<char>) {
    forall i :: 0 <= i < |piece| ==> !IsSeparator(piece[i], separators)
  }

  /** `String.Split(separators)`: the runs between separator characters,
      empty runs included.  There is one piece more than there are
      separators, and no piece holds a separator. */
  function Split(s: string, separators: seq<char>): (pieces: seq<string>)
    ensures |pieces| == |SeparatorsIn(s, separators)| + 1
    ensures forall i :: 0 <= i < |pieces| ==> FreeOf(pieces[i], separators)
  {
    if s == [] then [""]
    else
      var rest := Split(s[1..], separators);
      if IsSeparator(s[0], separators) then [""] + rest
      else [[s[0]] + rest[0]] + rest[1..]
  }

  /** The pieces glued back together, the i-th glue character between
      piece i and piece i + 1. */
  function Interleave(pieces: seq<string>, glue: string): string
    requires |pieces| == |glue| + 1
  {
    if glue == [] then pieces[0]
    else pieces[0] + [glue[0]] + Interleave(pieces[1..], glue[1..])
  }

  /** Splitting loses nothing: putting each separator back between the
      pieces it separated gives back the string. */
  lemma {:induction false} SplitRoundTrip(s: string, separators: seq<char>)
    ensures Interleave(Split(s, separators), SeparatorsIn(s, separators)) == s
  {
    if s != [] {
      var rest := Split(s[1..], separators);
      var glue := SeparatorsIn(s[1..], separators);
      SplitRoundTrip(s[1..], separators);
      assert s == [s[0]] + s[1..];
      if IsSeparator(s[0], separators) {
        assert Split(s, separators) == [""] + rest;
        assert SeparatorsIn(s, separators) == [s[0]] + glue;
        assert ([""] + rest)[1..] == rest;
      } else {
        var pieces := [[s[0]] + rest[0]] + rest[1..];
        assert Split(s, separators) == pieces;
        assert SeparatorsIn(s, separators) == glue;
        if glue != [] {
          assert pieces[1..] == rest[1..];
          assert Interleave(pieces, glue) == [s[0]] + (rest[0] + [glue[0]] + Interleave(rest[1..], glue[1..]));
        }
      }
    }
  }

  /** `SelectMany(str => str.Split(separators))`. */
  function SplitAll(text: seq<string>, separators: seq<char>): (pieces: seq<string>)
    ensures forall i :: 0 <= i < |pieces| ==> FreeOf(pieces[i], separators)
  {
    if text == [] then [] else Split(text[0], separators) + SplitAll(text[1..], separators)
  }

  /** `Select(w => wordTransformer.GetTransformedWord(w))`. */
  function TransformAll(t: SimpleWordTransformer, words: seq<string>): (r: seq<string>)
    ensures |r| == |words|
    ensures forall i :: 0 <= i < |words| ==> r[i] == GetTransformedWord(t, words[i])
  {
    seq(|words|, i requires 0 <= i < |words| => GetTransformedWord(t, words[i]))
  }

  /** `Where(w => !string.IsNullOrWhiteSpace(w))`: the same words in the same
      order, less the blank ones. */
  function NonBlank(words: seq<string>): (r: seq<string>)
    ensures forall i :: 0 <= i < |r| ==> !IsNullOrWhiteSpace(r[i])
    ensures forall w :: !IsNullOrWhiteSpace(w) ==> multiset(r)[w] == multiset(words)[w]
    ensures forall w :: IsNullOrWhiteSpace(w) ==> multiset(r)[w] == 0
  {
    if words == [] then []
    else
      var last := words[|words| - 1];
      assert words == words[..|words| - 1] + [last];
      var front := NonBlank(words[..|words| - 1]);
      if IsNullOrWhiteSpace(last) then front else front + [last]
  }

  // --------------------------------------------------------------- counting

  /** A dictionary from words to counts, as its entries. */
  type Entries = seq<(string, nat)>

  function Keys(d: Entries): set<string> {
    set i | 0 <= i < |d| :: d[i].0
  }

  predicate DistinctKeys(d: Entries) {
    forall i, j :: 0 <= i < j < |d| ==> d[i].0 != d[j].0
  }

  /** The count stored for `k`, or 0 when `k` has no entry. */
  function Lookup(d: Entries, k: string): nat {
    if d == [] then 0 else if d[0].0 == k then d[0].1 else Lookup(d[1..], k)
  }

  function Total(d: Entries): nat {
    if d == [] then 0 else d[0].1 + Total(d[1..])
  }

  lemma {:induction false} KeysCons(e: (string, nat), d: Entries)
    ensures Keys([e] + d) == {e.0} + Keys(d)
  {
    var r := [e] + d;
    forall x | x in Keys(r) ensures x in {e.0} + Keys(d) {
      var i :| 0 <= i < |r| && r[i].0 == x;
      if i > 0 { assert d[i - 1].0 == x; }
    }
    forall x | x in Keys(d) ensures x in Keys(r) {
      var i :| 0 <= i < |d| && d[i].0 == x;
      assert r[i + 1].0 == x;
    }
    assert r[0].0 == e.0;
  }

  lemma {:induction false} LookupAt(d: Entries, i: int)
    requires DistinctKeys(d) && 0 <= i < |d|
    ensures Lookup(d, d[i].0) == d[i].1
  {
    if i > 0 {
      LookupAt(d[1..], i - 1);
    }
  }

  /** Counts one more occurrence of `w`: its entry goes up by one, or a new
      entry `(w, 1)` is appended. */
  function AddWord(d: Entries, w: string): (r: Entries)
    requires DistinctKeys(d)
    ensures DistinctKeys(r)
    ensures Keys(r) == Keys(d) + {w}
    ensures forall k :: Lookup(r, k) == Lookup(d, k) + (if k == w then 1 else 0)
    ensures Total(r) == Total(d) + 1
  {
    if d == [] then
      assert Keys([(w, 1)]) == {w} by { KeysCons((w, 1), []); }
      [(w, 1)]
    else if d[0].0 == w then
      assert d == [d[0]] + d[1..];
      KeysCons(d[0], d[1..]);
      var r := [(w, d[0].1 + 1)] + d[1..];
      assert r[1..] == d[1..];
      KeysCons((w, d[0].1 + 1), d[1..]);
      forall k | k != w ensures Lookup(r, k) == Lookup(d, k) { }
      r
    else
      var tail := AddWord(d[1..], w);
      var r := [d[0]] + tail;
      assert r[1..] == tail;
      assert d == [d[0]] + d[1..];
      KeysCons(d[0], d[1..]);
      KeysCons(d[0], tail);
      assert d[0].0 !in Keys(d[1..]);
      r
  }

  /** `GroupBy(w => w).ToDictionary(g => g.Key, g => g.Count())`: one entry
      per distinct word, holding the number of times it occurs; the counts
      add up to the number of words. */
  function CountWords(words: seq<string>): (d: Entries)
    ensures DistinctKeys(d)
    ensures Keys(d) == set w | w in words
    ensures forall k :: Lookup(d, k) == multiset(words)[k]
    ensures Total(d) == |words|
  {
    if words == [] then []
    else
      var front := words[..|words| - 1];
      var last := words[|words| - 1];
      assert words == front + [last];
      assert (set w | w in words) == (set w | w in front) + {last};
      AddWord(CountWords(front), last)
  }

  /** Each entry of a count holds the number of occurrences of its word,
      which is at least one. */
  lemma {:induction false} CountWordsEntries(words: seq<string>)
    ensures forall i :: 0 <= i < |CountWords(words)| ==>
              CountWords(words)[i].1 == multiset(words)[CountWords(words)[i].0] >= 1
  {
    var d := CountWords(words);
    forall i | 0 <= i < |d|
      ensures d[i].1 == multiset(words)[d[i].0] >= 1
    {
      LookupAt(d, i);
      assert d[i].0 in Keys(d);
    }
  }

  /** With distinct keys, there are as many keys as entries. */
  lemma {:induction false} DistinctKeysCount(d: Entries)
    requires DistinctKeys(d)
    ensures |Keys(d)| == |d|
  {
    if d != [] {
      var front := d[..|d| - 1];
      assert Keys(d) == Keys(front) + {d[|d| - 1].0};
      assert d[|d| - 1].0 !in Keys(front);
      DistinctKeysCount(front);
    }
  }

  // --------------------------------------------------------------- pipeline

  /** A non-empty word is counted once for every piece equal to it, unless
      it is boring; a boring piece turns into the empty string. */
  lemma {:induction false} TransformedCount(t: SimpleWordTransformer, pieces: seq<string>, w: string)
    requires w != ""
    ensures multiset(TransformAll(t, pieces))[w] == if IsBoring(t, w) then 0 else multiset(pieces)[w]
  {
    if pieces != [] {
      var front := pieces[..|pieces| - 1];
      var last := pieces[|pieces| - 1];
      assert pieces == front + [last];
      assert TransformAll(t, pieces) == TransformAll(t, front) + [GetTransformedWord(t, last)];
      TransformedCount(t, front, w);
    }
  }

  /** The dictionary both preprocessors build: split every line, transform
      every piece, drop the blank results and count each distinct word.
      Its keys are exactly the pieces that are neither blank nor boring,
      each counted as often as it occurs among the pieces. */
  function CountedWords(t: SimpleWordTransformer, text: seq<string>, separators: seq<char>): (d: Entries)
    ensures DistinctKeys(d)
    ensures forall i :: 0 <= i < |d| ==>
              && !IsNullOrWhiteSpace(d[i].0)
              && !IsBoring(t, d[i].0)
              && FreeOf(d[i].0, separators)
              && d[i].1 == multiset(SplitAll(text, separators))[d[i].0] >= 1
    ensures forall w :: w in SplitAll(text, separators) && !IsNullOrWhiteSpace(w) && !IsBoring(t, w) ==>
              w in Keys(d)
    ensures Total(d) == |NonBlank(TransformAll(t, SplitAll(text, separators)))|
  {
    var pieces := SplitAll(text, separators);
    CountedWordsFacts(t, pieces, separators);
    CountWords(NonBlank(TransformAll(t, pieces)))
  }

  /** One entry of the count: its word is a piece that is neither blank
      nor boring, and its count is the number of such pieces. */
  lemma {:induction false} CountedEntry(t: SimpleWordTransformer, pieces: seq<string>, i: int)
    requires 0 <= i < |CountWords(NonBlank(TransformAll(t, pieces)))|
    ensures var e := CountWords(NonBlank(TransformAll(t, pieces)))[i];
            && !IsNullOrWhiteSpace(e.0)
            && !IsBoring(t, e.0)
            && e.0 in pieces
            && e.1 == multiset(pieces)[e.0] >= 1
  {
    var words := NonBlank(TransformAll(t, pieces));
    var d := CountWords(words);
    var k := d[i].0;
    assert k in Keys(d);
    var j :| 0 <= j < |words| && words[j] == k;
    assert !IsNullOrWhiteSpace(k);
    assert k != "";
    LookupAt(d, i);
    TransformedCount(t, pieces, k);
    assert k in multiset(pieces);
  }

  /** Every piece that is neither blank nor boring gets an entry. */
  lemma {:induction false} CountedPiece(t: SimpleWordTransformer, pieces: seq<string>, w: string)
    requires w in pieces && !IsNullOrWhiteSpace(w) && !IsBoring(t, w)
    ensures w in Keys(CountWords(NonBlank(TransformAll(t, pieces))))
  {
    assert w != "";
    TransformedCount(t, pieces, w);
    assert w in multiset(NonBlank(TransformAll(t, pieces)));
  }

  lemma {:induction false} CountedWordsFacts(t: SimpleWordTransformer, pieces: seq<string>, separators: seq<char>)
    requires forall i :: 0 <= i < |pieces| ==> FreeOf(pieces[i], separators)
    ensures var d := CountWords(NonBlank(TransformAll(t, pieces)));
            forall i :: 0 <= i < |d| ==>
              && !IsNullOrWhiteSpace(d[i].0)
              && !IsBoring(t, d[i].0)
              && FreeOf(d[i].0, separators)
              && d[i].1 == multiset(pieces)[d[i].0] >= 1
    ensures var d := CountWords(NonBlank(TransformAll(t, pieces)));
            forall w :: w in pieces && !IsNullOrWhiteSpace(w) && !IsBoring(t, w) ==> w in Keys(d)
  {
    var d := CountWords(NonBlank(TransformAll(t, pieces)));
    forall i | 0 <= i < |d|
      ensures && !IsNullOrWhiteSpace(d[i].0)
              && !IsBoring(t, d[i].0)
              && FreeOf(d[i].0, separators)
              && d[i].1 == multiset(pieces)[d[i].0] >= 1
    {
      CountedEntry(t, pieces, i);
    }
    forall w | w in pieces && !IsNullOrWhiteSpace(w) && !IsBoring(t, w)
      ensures w in Keys(d)
    {
      CountedPiece(t, pieces, w);
    }
  }
}
