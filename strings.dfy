/**
 * The searches the lock drivers use from java.lang.String and java.util.List,
 * specified by what they find rather than by how they scan.
 */
module Strings {

  /** `pat` occurs in `s` at position `k` (Java's `s.startsWith(pat, k)`). */
  predicate OccursAt(s: string, pat: string, k: int) {
    0 <= k && k + |pat| <= |s| && s[k..k + |pat|] == pat
  }

  /** Java's `s.startsWith(prefix)`. */
  predicate StartsWith(s: string, prefix: string) {
    OccursAt(s, prefix, 0)
  }

  /** Java's `s.contains(pat)`; the empty string is contained in every string. */
  predicate Contains(s: string, pat: string) {
    exists k | 0 <= k <= |s| - |pat| :: OccursAt(s, pat, k)
  }

  /** `r` is a suffix of `s`. */
  predicate IsSuffix(r: string, s: string) {
    |r| <= |s| && s[|s| - |r|..] == r
  }

  /**
   * Java's `s.lastIndexOf(pat)`: the largest position at which `pat` occurs,
   * or -1 when it does not occur at all.
   */
  function LastIndexOf(s: string, pat: string): (r: int)
    ensures r == -1 || OccursAt(s, pat, r)
    ensures forall k :: OccursAt(s, pat, k) ==> k <= r
    ensures r == -1 <==> !Contains(s, pat)
  {
    LastIndexAtOrBefore(s, pat, |s| - |pat|)
  }

  /** The largest position `<= from` at which `pat` occurs, or -1. */
  function LastIndexAtOrBefore(s: string, pat: string, from: int): (r: int)
    decreases from + 1
    ensures r == -1 || (0 <= r <= from && OccursAt(s, pat, r))
    ensures forall k :: k <= from && OccursAt(s, pat, k) ==> k <= r
  {
    if from < 0 then -1
    else if OccursAt(s, pat, from) then from
    else LastIndexAtOrBefore(s, pat, from - 1)
  }

  /**
   * Java's `xs.indexOf(x)` on a list: the first position holding `x`, or -1
   * when `x` is not in the list.
   */
  function IndexOf<T(==)>(xs: seq<T>, x: T): (r: int)
    ensures r == -1 <==> x !in xs
    ensures r != -1 ==> 0 <= r < |xs| && xs[r] == x
    ensures forall j :: 0 <= j < r ==> xs[j] != x
  {
    if xs == [] then -1
    else if xs[0] == x then 0
    else
      var i := IndexOf(xs[1..], x);
      if i == -1 then -1 else i + 1
  }
}
