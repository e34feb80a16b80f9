/** The few .NET runtime behaviours the tag cloud code relies on: its
    exceptions, 32-bit integer wrap-around, the truncating `%`,
    `Math.Ceiling`, `Char.IsWhiteSpace` and `String.ToLower`. */
module DotNet {

  /** The exceptions the modelled code throws. */
  datatype Exception =
    | ArgumentNullException
    | ArgumentException
    | ArgumentOutOfRangeException
    | InvalidOperationException
    | IndexOutOfRangeException
    | OverflowException

  /** A value, or the exception thrown instead of returning one. */
  datatype Result<+T> = Ok(value: T) | Err(error: Exception)

  /** A reference that may be null. */
  datatype Option<+T> = None | Some(value: T)

  const IntMin: int := -0x8000_0000
  const IntMax: int := 0x7FFF_FFFF

  predicate IsInt32(x: int) {
    IntMin <= x <= IntMax
  }

  /** Unchecked `int` arithmetic: the result is reduced modulo 2^32 into the
      signed 32-bit range. */
  function Wrap32(x: int): (r: int)
    ensures IsInt32(r)
    ensures (x - r) % 0x1_0000_0000 == 0
    ensures IsInt32(x) ==> r == x
  {
    var m := x % 0x1_0000_0000;
    if m <= IntMax then m else m - 0x1_0000_0000
  }

  /** C#'s `a % b` for a positive divisor: it truncates toward zero, so the
      remainder takes the sign of `a`. */
  function Remainder(a: int, b: int): (r: int)
    requires b > 0
    ensures a >= 0 ==> r == a % b
    ensures a < 0 ==> -b < r <= 0
  {
    if a >= 0 then a % b else -((-a) % b)
  }

  /** `Math.Ceiling`: the least integer not below `x`. */
  function Ceiling(x: real): (r: int)
    ensures x <= r as real < x + 1.0
  {
    -((-x).Floor)
  }

  /** An integer is its own ceiling. */
  lemma CeilingOfInteger(n: int)
    ensures Ceiling(n as real) == n
  {
  }

  lemma CeilingMonotone(x: real, y: real)
    requires x <= y
    ensures Ceiling(x) <= Ceiling(y)
  {
  }

  /** Rounding up keeps every integer bound of the argument. */
  lemma CeilingWithin(x: real, lo: int, hi: int)
    requires lo as real <= x <= hi as real
    ensures lo <= Ceiling(x) <= hi
  {
  }

  /** `Char.IsWhiteSpace`: the Unicode space, line and paragraph separators
      plus U+0009..U+000D, U+0085 and U+00A0. */
  predicate IsWhiteSpace(c: char) {
    || c == ' '
    || '\t' <= c <= '\r'
    || c == '\U{0085}'
    || c == '\U{00A0}'
    || c == '\U{1680}'
    || '\U{2000}' <= c <= '\U{200A}'
    || c == '\U{2028}'
    || c == '\U{2029}'
    || c == '\U{202F}'
    || c == '\U{205F}'
    || c == '\U{3000}'
  }

  /** `String.IsNullOrWhiteSpace` on a non-null string: empty, or white space
      only. */
  predicate IsNullOrWhiteSpace(s: string) {
    forall i :: 0 <= i < |s| ==> IsWhiteSpace(s[i])
  }

  /** `Char.ToLower`, restricted to the ASCII letters. */
  function ToLowerChar(c: char): (r: char)
    ensures 'A' <= c <= 'Z' ==> 'a' <= r <= 'z' && r as int == c as int + 32
    ensures !('A' <= c <= 'Z') ==> r == c
  {
    if 'A' <= c <= 'Z' then (c as int + 32) as char else c
  }

  /** `String.ToLower`, letter by letter. */
  function ToLower(s: string): (r: string)
    ensures |r| == |s|
    ensures forall i :: 0 <= i < |s| ==> r[i] == ToLowerChar(s[i])
  {
    seq(|s|, i requires 0 <= i < |s| => ToLowerChar(s[i]))
  }
}
