/** Small helpers shared by every module of the model. */
module Common {

  datatype Option<T> = None | Some(value: T)

  /** The outcome of a step that can throw: `Err` carries the error message. */
  datatype Result<T> = Ok(value: T) | Err(error: string)

  /**
   * The start of the message of a JavaScript TypeError raised by reading a property of null; the
   * property named after it, in parentheses, depends on the site and is not modelled.
   */
  const TypeError: string := "Cannot read properties of null"

  /** The smallest element of a non-empty sequence (JavaScript's Math.min over its arguments). */
  function MinOf(s: seq<int>): (m: int)
    requires |s| > 0
    ensures m in s
    ensures forall i :: 0 <= i < |s| ==> m <= s[i]
  {
    if |s| == 1 then s[0]
    else
      var rest := MinOf(s[1..]);
      assert s == [s[0]] + s[1..];
      if s[0] <= rest then s[0] else rest
  }

  /** Number of occurrences of x in s. */
  function Occurrences<T(==)>(s: seq<T>, x: T): nat
  {
    if s == [] then 0 else (if s[0] == x then 1 else 0) + Occurrences(s[1..], x)
  }

  predicate NoDuplicates<T(==)>(s: seq<T>)
  {
    forall i, j :: 0 <= i < j < |s| ==> s[i] != s[j]
  }

  /** Every element of s with the value x removed, order kept (a JavaScript `filter(e => e != x)`). */
  function Without<T(==,!new)>(s: seq<T>, x: T): (r: seq<T>)
    ensures forall e :: e in r <==> e in s && e != x
    ensures |r| <= |s|
  {
    if s == [] then []
    else (if s[0] == x then [] else [s[0]]) + Without(s[1..], x)
  }

  /** floor(x) for a real x, as JavaScript's Math.floor. */
  function Floor(x: real): (r: int)
    ensures r as real <= x < r as real + 1.0
  {
    x.Floor
  }
}
