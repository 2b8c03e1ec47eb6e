/**
 * Small vocabulary shared by the rest of the model: an optional value, bytes,
 * string prefix/suffix tests and the first-match search that JavaScript's
 * `Array.prototype.find` performs.
 */
module Basics {

  datatype Option<+T> = None | Some(value: T)

  type byte = b: int | 0 <= b < 256

  /** The contents of a Node.js `Buffer`. */
  type Bytes = seq<byte>

  /** `s.startsWith(prefix)`, case-sensitive. */
  predicate StartsWith(s: string, prefix: string)
  {
    |prefix| <= |s| && s[..|prefix|] == prefix
  }

  /** `s.endsWith(suffix)`, case-sensitive. */
  predicate EndsWith(s: string, suffix: string)
  {
    |suffix| <= |s| && s[|s| - |suffix|..] == suffix
  }

  /**
   * The index of the first element of `s` that satisfies `p`, or `None` when
   * no element does (JavaScript's `find` then yields `undefined`).
   */
  function First<T>(s: seq<T>, p: T -> bool): (r: Option<nat>)
    ensures r.Some? ==> r.value < |s| && p(s[r.value])
    ensures r.Some? ==> forall j :: 0 <= j < r.value ==> !p(s[j])
    ensures r.None? <==> forall j :: 0 <= j < |s| ==> !p(s[j])
  {
    if |s| == 0 then None
    else if p(s[0]) then Some(0)
    else
      match First(s[1..], p)
      case None => None
      case Some(i) => Some(i + 1)
  }
}
