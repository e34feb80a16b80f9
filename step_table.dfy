/** The lookup table shared by the font-size and the colour providers: the
    distinct keys in ascending order, each mapped to a value interpolated by
    its position, and a lookup that falls back to the nearest key below. */
module StepTable {

  function Elements(s: seq<int>): set<int> {
    set x | x in s
  }

  predicate StrictlyIncreasing(s: seq<int>) {
    forall i, j :: 0 <= i < j < |s| ==> s[i] < s[j]
  }

  /** LINQ `Min()` of a non-empty sequence. */
  function Min(s: seq<int>): (m: int)
    requires s != []
    ensures m in s && forall i :: 0 <= i < |s| ==> m <= s[i]
  {
    if |s| == 1 then s[0]
    else var rest := Min(s[1..]); if s[0] <= rest then s[0] else rest
  }

  /** LINQ `Max()` of a non-empty sequence. */
  function Max(s: seq<int>): (m: int)
    requires s != []
    ensures m in s && forall i :: 0 <= i < |s| ==> s[i] <= m
  {
    if |s| == 1 then s[0]
    else var rest := Max(s[1..]); if s[0] >= rest then s[0] else rest
  }

  /** Adds `x` to an ascending list of distinct values, unless present. */
  function Insert(s: seq<int>, x: int): (r: seq<int>)
    requires StrictlyIncreasing(s)
    ensures StrictlyIncreasing(r)
    ensures Elements(r) == Elements(s) + {x}
  {
    if s == [] then [x]
    else if x < s[0] then [x] + s
    else if x == s[0] then s
    else
      var tail := Insert(s[1..], x);
      assert Elements(s) == {s[0]} + Elements(s[1..]);
      assert Elements([s[0]] + tail) == {s[0]} + Elements(tail);
      [s[0]] + tail
  }

  /** `Distinct().OrderBy(x => x)`: the values of `s`, each once, ascending. */
  function SortedDistinct(s: seq<int>): (r: seq<int>)
    ensures StrictlyIncreasing(r)
    ensures Elements(r) == Elements(s)
  {
    if s == [] then []
    else
      assert Elements(s) == Elements(s[..|s| - 1]) + {s[|s| - 1]};
      Insert(SortedDistinct(s[..|s| - 1]), s[|s| - 1])
  }

  /** An ascending list of distinct values starts with the smallest value of
      any list with the same elements and ends with the largest. */
  lemma {:induction false} AscendingEnds(keys: seq<int>, s: seq<int>)
    requires StrictlyIncreasing(keys) && Elements(keys) == Elements(s) && s != []
    ensures keys != []
    ensures keys[0] == Min(s) && keys[|keys| - 1] == Max(s)
  {
    assert s[0] in Elements(s);
    var last := |keys| - 1;
    var lo, hi := Min(s), Max(s);
    assert lo in Elements(keys) && hi in Elements(keys);
    var i :| 0 <= i < |keys| && keys[i] == lo;
    var j :| 0 <= j < |keys| && keys[j] == hi;
    assert keys[0] in Elements(s) && keys[last] in Elements(s);
    var a :| 0 <= a < |s| && s[a] == keys[0];
    var b :| 0 <= b < |s| && s[b] == keys[last];
    assert lo <= keys[0] && keys[last] <= hi;
    assert keys[0] <= keys[i] && keys[j] <= keys[last];
  }

  /** The value of position `pos` out of `len`: `lo + (hi - lo) * pos / len`. */
  function Interpolate(lo: real, hi: real, pos: int, len: int): real
    requires len > 0
  {
    lo + (hi - lo) * pos as real / len as real
  }

  lemma InterpolateBounds(lo: real, hi: real, pos: int, len: int)
    requires lo < hi && 0 <= pos < len
    ensures lo <= Interpolate(lo, hi, pos, len) < hi
  {
    var d := hi - lo;
    assert 0.0 <= d * pos as real < d * len as real;
    assert d * pos as real / len as real < d;
  }

  lemma InterpolateMonotone(lo: real, hi: real, p: int, q: int, len: int)
    requires lo <= hi && p <= q && len > 0
    ensures Interpolate(lo, hi, p, len) <= Interpolate(lo, hi, q, len)
  {
    assert (hi - lo) * p as real <= (hi - lo) * q as real;
  }

  /** `Select((key, pos) => (key, Interpolate(lo, hi, pos, len))).ToDictionary()`
      over the ascending distinct keys. */
  function BuildTable(keys: seq<int>, lo: real, hi: real): (t: map<int, real>)
    requires StrictlyIncreasing(keys)
    ensures t.Keys == Elements(keys)
    ensures forall i :: 0 <= i < |keys| ==> t[keys[i]] == Interpolate(lo, hi, i, |keys|)
  {
    map i | 0 <= i < |keys| :: keys[i] := Interpolate(lo, hi, i, |keys|)
  }

  /** Table values never decrease as the key grows. */
  ghost predicate Monotone(t: map<int, real>) {
    forall a, b :: a in t && b in t && a <= b ==> t[a] <= t[b]
  }

  /** Every table value lies in `[lo, hi)`. */
  ghost predicate ValuesWithin(t: map<int, real>, lo: real, hi: real) {
    forall k :: k in t ==> lo <= t[k] < hi
  }

  /** The table built from ascending keys starts at `lo`, stays below `hi`
      and grows with the key. */
  lemma {:induction false} BuildTableProperties(keys: seq<int>, lo: real, hi: real)
    requires StrictlyIncreasing(keys) && keys != [] && lo < hi
    ensures BuildTable(keys, lo, hi)[keys[0]] == lo
    ensures ValuesWithin(BuildTable(keys, lo, hi), lo, hi)
    ensures Monotone(BuildTable(keys, lo, hi))
  {
    var t := BuildTable(keys, lo, hi);
    assert t[keys[0]] == Interpolate(lo, hi, 0, |keys|);
    forall k | k in t
      ensures lo <= t[k] < hi
    {
      var i :| 0 <= i < |keys| && keys[i] == k;
      InterpolateBounds(lo, hi, i, |keys|);
    }
    forall a, b | a in t && b in t && a <= b
      ensures t[a] <= t[b]
    {
      var i :| 0 <= i < |keys| && keys[i] == a;
      var j :| 0 <= j < |keys| && keys[j] == b;
      InterpolateMonotone(lo, hi, i, j, |keys|);
    }
  }

  // ---------------------------------------------------------------- lookup

  /** `Dictionary.TryGetValue`: whether the key is there, and through the
      out-parameter its value or the default `0`. */
  method TryGetValue(table: map<int, real>, key: int) returns (found: bool, value: real)
    ensures found <==> key in table
    ensures found ==> value == table[key]
    ensures !found ==> value == 0.0
  {
    found := key in table;
    value := if found then table[key] else 0.0;
  }

  /** `k` is the largest key not above `f`. */
  ghost predicate IsFloorKey(keys: set<int>, f: int, k: int) {
    k in keys && k <= f && forall j :: j in keys && j <= f ==> j <= k
  }

  /** Walking down from `f` one step at a time reaches a key no later than
      the key `lo`, and the first key met is the largest not above `f`. */
  lemma {:induction false} FloorKeyExists(keys: set<int>, lo: int, f: int)
    requires lo in keys && lo <= f
    ensures exists k :: IsFloorKey(keys, f, k)
    decreases f - lo
  {
    if f in keys {
      assert IsFloorKey(keys, f, f);
    } else {
      FloorKeyExists(keys, lo, f - 1);
      var k :| IsFloorKey(keys, f - 1, k);
      assert IsFloorKey(keys, f, k);
    }
  }

  ghost function FloorKey(keys: set<int>, lo: int, f: int): (k: int)
    requires lo in keys && lo <= f
    ensures IsFloorKey(keys, f, k)
  {
    FloorKeyExists(keys, lo, f);
    var k :| IsFloorKey(keys, f, k); k
  }

  /** There is only one largest key not above `f`. */
  lemma FloorKeyUnique(keys: set<int>, f: int, k1: int, k2: int)
    requires IsFloorKey(keys, f, k1) && IsFloorKey(keys, f, k2)
    ensures k1 == k2
  {
  }

  /** A larger bound never gives a smaller floor key. */
  lemma FloorKeyMonotone(keys: set<int>, lo: int, f: int, g: int)
    requires lo in keys && lo <= f <= g
    ensures FloorKey(keys, lo, f) <= FloorKey(keys, lo, g)
  {
  }
}
