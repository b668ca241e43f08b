/**
 * Substring search as `strstr` performs it: `strstr(haystack, needle)` is
 * non-NULL exactly when `needle` occurs somewhere in `haystack` (the empty
 * needle occurs everywhere).
 */
module Strings {

  /** `needle` occurs in `haystack` starting at index `i`. */
  predicate OccursAt(haystack: string, needle: string, i: int)
  {
    0 <= i && i + |needle| <= |haystack| && haystack[i..i + |needle|] == needle
  }

  /**
   * `strstr(haystack, needle) != NULL`. The empty needle is always found, a
   * needle longer than the haystack never is, and one of the same length
   * only when the two are equal.
   */
  predicate Contains(haystack: string, needle: string): (b: bool)
    ensures needle == [] ==> b
    ensures b ==> |needle| <= |haystack|
    ensures |needle| == |haystack| ==> (b <==> needle == haystack)
  {
    assert OccursAt(haystack, needle, 0) <== needle == [] || needle == haystack;
    exists i | 0 <= i <= |haystack| - |needle| :: OccursAt(haystack, needle, i)
  }

  /** An occurrence of an occurrence is an occurrence. */
  lemma ContainsTransitive(haystack: string, middle: string, needle: string)
    requires Contains(haystack, middle) && Contains(middle, needle)
    ensures Contains(haystack, needle)
  {
    var i :| 0 <= i <= |haystack| - |middle| && OccursAt(haystack, middle, i);
    var j :| 0 <= j <= |middle| - |needle| && OccursAt(middle, needle, j);
    forall k | 0 <= k < |needle|
      ensures haystack[i + j + k] == needle[k]
    {
      assert middle[j + k] == needle[k];
      assert haystack[i + (j + k)] == middle[j + k];
    }
    assert OccursAt(haystack, needle, i + j);
  }
}
