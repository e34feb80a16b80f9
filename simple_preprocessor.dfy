/** `SimplePreprocessor`: the most frequent interesting words of a text,
    most frequent first, at most a given number of them. */
module TextPreprocessor {
  import opened DotNet
  import opened WordTransformer
  import opened WordCounting

  /** The splitters used when none are given: the eight of the word
      preprocessor, then the no-break space, the right single quote, both
      double quotes and the em dash. */
  const DefaultWordSplitters: seq<char> :=
    [' ', ',', '.', ';', ':', '\'', '-', '\n', '\U{00A0}', '\U{2019}', '\U{201D}', '\U{201C}', '\U{2014}']

  datatype SimplePreprocessor = SimplePreprocessor(
    wordTransformer: SimpleWordTransformer,
    tagCloudWordAmount: int,
    wordSplitters: seq<char>)

  /** The constructor: a null splitter list keeps the defaults. */
  function NewSimplePreprocessor(t: SimpleWordTransformer, tagCloudWordAmount: int, wordSplitters: Option<seq<char>>)
    : (p: SimplePreprocessor)
    ensures p.wordTransformer == t && p.tagCloudWordAmount == tagCloudWordAmount
    ensures wordSplitters.None? ==> p.wordSplitters == DefaultWordSplitters
    ensures wordSplitters.Some? ==> p.wordSplitters == wordSplitters.value
  {
    SimplePreprocessor(t, tagCloudWordAmount, if wordSplitters.Some? then wordSplitters.value else DefaultWordSplitters)
  }

  /** An empty splitter list is not the defaults: `String.Split` then
      splits on white space. */
  lemma EmptySplittersSplitOnWhiteSpace(t: SimpleWordTransformer, tagCloudWordAmount: int, c: char)
    ensures var p := NewSimplePreprocessor(t, tagCloudWordAmount, Some([]));
            IsSeparator(c, p.wordSplitters) <==> IsWhiteSpace(c)
  {
  }

  // ---------------------------------------------------------------- sorting

  predicate NonIncreasing(d: Entries) {
    forall i, j :: 0 <= i < j < |d| ==> d[i].1 >= d[j].1
  }

  /** A permutation has the same keys. */
  lemma {:induction false} PermutationKeys(a: Entries, b: Entries)
    requires multiset(a) == multiset(b)
    ensures Keys(a) == Keys(b)
  {
    forall x | x in Keys(a) ensures x in Keys(b) {
      var i :| 0 <= i < |a| && a[i].0 == x;
      assert a[i] in multiset(b);
      var j :| 0 <= j < |b| && b[j] == a[i];
    }
    forall x | x in Keys(b) ensures x in Keys(a) {
      var j :| 0 <= j < |b| && b[j].0 == x;
      assert b[j] in multiset(a);
      var i :| 0 <= i < |a| && a[i] == b[j];
    }
  }

  /** Puts `e` after every entry whose count is at least its own. */
  function InsertByCount(sorted: Entries, e: (string, nat)): (r: Entries)
    ensures multiset(r) == multiset(sorted) + multiset{e}
    ensures |r| == |sorted| + 1
  {
    if sorted == [] then [e]
    else if sorted[0].1 >= e.1 then
      assert sorted == [sorted[0]] + sorted[1..];
      [sorted[0]] + InsertByCount(sorted[1..], e)
    else [e] + sorted
  }

  /** Inserting into a list sorted by decreasing count keeps it sorted. */
  lemma {:induction false} InsertByCountOrdered(sorted: Entries, e: (string, nat))
    requires NonIncreasing(sorted)
    ensures NonIncreasing(InsertByCount(sorted, e))
  {
    if sorted != [] && sorted[0].1 >= e.1 {
      var tail := InsertByCount(sorted[1..], e);
      InsertByCountOrdered(sorted[1..], e);
      forall j | 0 <= j < |tail| ensures sorted[0].1 >= tail[j].1 {
        assert tail[j] in multiset(tail);
        if tail[j] != e {
          assert tail[j] in multiset(sorted[1..]);
          var m :| 0 <= m < |sorted[1..]| && sorted[1..][m] == tail[j];
          assert sorted[m + 1] == tail[j];
        }
      }
      var r := [sorted[0]] + tail;
      assert r == InsertByCount(sorted, e);
      forall i, j | 0 <= i < j < |r| ensures r[i].1 >= r[j].1 {
        if i > 0 {
          assert r[i] == tail[i - 1] && r[j] == tail[j - 1];
        } else {
          assert r[j] == tail[j - 1];
        }
      }
    }
  }

  /** Inserting an entry with a new key keeps the keys distinct. */
  lemma {:induction false} InsertByCountDistinct(sorted: Entries, e: (string, nat))
    requires DistinctKeys(sorted) && e.0 !in Keys(sorted)
    ensures DistinctKeys(InsertByCount(sorted, e))
  {
    if sorted == [] {
    } else if sorted[0].1 >= e.1 {
      var tail := InsertByCount(sorted[1..], e);
      assert sorted == [sorted[0]] + sorted[1..];
      KeysCons(sorted[0], sorted[1..]);
      InsertByCountDistinct(sorted[1..], e);
      PermutationKeys(tail, sorted[1..] + [e]);
      KeysCons(e, []);
      assert Keys(sorted[1..] + [e]) == Keys(sorted[1..]) + {e.0} by {
        var s := sorted[1..] + [e];
        forall x | x in Keys(s) ensures x in Keys(sorted[1..]) + {e.0} {
          var i :| 0 <= i < |s| && s[i].0 == x;
          if i < |s| - 1 { assert sorted[1..][i].0 == x; }
        }
        forall x | x in Keys(sorted[1..]) ensures x in Keys(s) {
          var i :| 0 <= i < |sorted[1..]| && sorted[1..][i].0 == x;
          assert s[i].0 == x;
        }
        assert s[|s| - 1].0 == e.0;
      }
      var r := [sorted[0]] + tail;
      assert r == InsertByCount(sorted, e);
      forall i, j | 0 <= i < j < |r| ensures r[i].0 != r[j].0 {
        if i == 0 {
          assert r[j].0 in Keys(tail);
        } else {
          assert r[i] == tail[i - 1] && r[j] == tail[j - 1];
        }
      }
    } else {
      KeysCons(e, sorted);
      var r := [e] + sorted;
      forall i, j | 0 <= i < j < |r| ensures r[i].0 != r[j].0 {
        if i == 0 {
          assert r[j] == sorted[j - 1];
        } else {
          assert r[i] == sorted[i - 1] && r[j] == sorted[j - 1];
        }
      }
    }
  }

  /** `OrderByDescending(g => g.Value)`: a stable sort, so entries with
      equal counts keep their order. */
  function SortByCountDescending(d: Entries): (r: Entries)
    ensures multiset(r) == multiset(d)
    ensures |r| == |d|
  {
    if d == [] then []
    else
      var front := d[..|d| - 1];
      assert d == front + [d[|d| - 1]];
      InsertByCount(SortByCountDescending(front), d[|d| - 1])
  }

  /** The sort orders by decreasing count and keeps distinct keys distinct. */
  lemma {:induction false} SortByCountDescendingProperties(d: Entries)
    ensures NonIncreasing(SortByCountDescending(d))
    ensures DistinctKeys(d) ==> DistinctKeys(SortByCountDescending(d))
  {
    if d != [] {
      var front := d[..|d| - 1];
      var last := d[|d| - 1];
      var sortedFront := SortByCountDescending(front);
      SortByCountDescendingProperties(front);
      InsertByCountOrdered(sortedFront, last);
      if DistinctKeys(d) {
        assert DistinctKeys(front);
        PermutationKeys(sortedFront, front);
        forall x | x in Keys(front) ensures x != last.0 {
          var i :| 0 <= i < |front| && front[i].0 == x;
          assert front[i] == d[i];
        }
        InsertByCountDistinct(sortedFront, last);
      }
    }
  }

  /** LINQ `Take(count)`: the first `count` entries, none when `count` is not
      positive, all of them when there are fewer. */
  function Take(d: Entries, count: int): (r: Entries)
    ensures |r| == if count <= 0 then 0 else if count < |d| then count else |d|
    ensures r == d[..|r|]
  {
    if count <= 0 then [] else if count < |d| then d[..count] else d
  }

  // -------------------------------------------------------------- the query

  /** `ProcessStrings`: the counted words (see `CountedWords`), most
      frequent first, cut to `tagCloudWordAmount` entries.  Every word left
      out is at most as frequent as every word kept, and when there are no
      more distinct words than the amount, all of them are kept. */
  function ProcessStrings(p: SimplePreprocessor, text: seq<string>): (r: Entries)
    ensures var counted := CountedWords(p.wordTransformer, text, p.wordSplitters);
            && DistinctKeys(r)
            && NonIncreasing(r)
            && |r| == (if p.tagCloudWordAmount <= 0 then 0
                       else if p.tagCloudWordAmount < |counted| then p.tagCloudWordAmount
                       else |counted|)
            && (forall i :: 0 <= i < |r| ==> r[i] in counted)
            && (forall e :: e in counted && e.0 !in Keys(r) ==> forall i :: 0 <= i < |r| ==> e.1 <= r[i].1)
            && (|Keys(counted)| <= p.tagCloudWordAmount ==> Keys(r) == Keys(counted))
  {
    var counted := CountedWords(p.wordTransformer, text, p.wordSplitters);
    var sorted := SortByCountDescending(counted);
    var r := Take(sorted, p.tagCloudWordAmount);
    TakeKeepsMostFrequent(counted, sorted, r);
    DistinctKeysCount(counted);
    r
  }

  /** A prefix of the sorted counts: sorted, distinct, drawn from the
      counts, and no entry left behind is more frequent than one kept. */
  lemma {:induction false} TakeKeepsMostFrequent(counted: Entries, sorted: Entries, r: Entries)
    requires DistinctKeys(counted)
    requires sorted == SortByCountDescending(counted)
    requires |r| <= |sorted| && r == sorted[..|r|]
    ensures DistinctKeys(r) && NonIncreasing(r)
    ensures forall i :: 0 <= i < |r| ==> r[i] in counted
    ensures forall e :: e in counted && e.0 !in Keys(r) ==> forall i :: 0 <= i < |r| ==> e.1 <= r[i].1
    ensures |r| == |sorted| ==> Keys(r) == Keys(counted)
  {
    SortByCountDescendingProperties(counted);
    forall i | 0 <= i < |r| ensures r[i] in counted {
      assert r[i] == sorted[i];
      assert sorted[i] in multiset(sorted);
    }
    forall e | e in counted && e.0 !in Keys(r)
      ensures forall i :: 0 <= i < |r| ==> e.1 <= r[i].1
    {
      assert e in multiset(sorted);
      LeftOutNotMoreFrequent(sorted, r, e);
    }
    if |r| == |sorted| {
      assert r == sorted;
      PermutationKeys(sorted, counted);
    }
  }

  lemma {:induction false} LeftOutNotMoreFrequent(sorted: Entries, r: Entries, e: (string, nat))
    requires NonIncreasing(sorted)
    requires |r| <= |sorted| && r == sorted[..|r|]
    requires e in sorted && e.0 !in Keys(r)
    ensures forall i :: 0 <= i < |r| ==> e.1 <= r[i].1
  {
    var j :| 0 <= j < |sorted| && sorted[j] == e;
    assert forall i :: 0 <= i < |r| ==> r[i] == sorted[i] && r[i].0 in Keys(r);
    assert |r| <= j;
  }
}
