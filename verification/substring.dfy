/** JavaScript's `String.prototype.includes` on plain strings: does `needle`
    occur as a contiguous run of characters somewhere inside `haystack`? */
module Substring {

  /** `needle` occurs in `haystack` starting at index `i`. */
  ghost predicate OccursAt(haystack: string, needle: string, i: int) {
    0 <= i && i + |needle| <= |haystack| && haystack[i..i + |needle|] == needle
  }

  /** An occurrence that does not start at index 0 is an occurrence in the
      tail, one position to the left, and vice versa. */
  lemma OccursInTail(haystack: string, needle: string)
    requires |haystack| > 0
    requires !OccursAt(haystack, needle, 0)
    ensures (exists i :: OccursAt(haystack, needle, i)) <==>
            (exists j :: OccursAt(haystack[1..], needle, j))
  {
    var tail := haystack[1..];
    if i :| OccursAt(haystack, needle, i) {
      assert tail[i - 1..i - 1 + |needle|] == haystack[i..i + |needle|];
      assert OccursAt(tail, needle, i - 1);
    }
    if j :| OccursAt(tail, needle, j) {
      assert tail[j..j + |needle|] == haystack[j + 1..j + 1 + |needle|];
      assert OccursAt(haystack, needle, j + 1);
    }
  }

  /** `haystack.includes(needle)`: true exactly when some occurrence exists.
      The empty needle occurs in every haystack. */
  function Includes(haystack: string, needle: string): (b: bool)
    ensures b <==> exists i :: OccursAt(haystack, needle, i)
    decreases |haystack|
  {
    if |needle| > |haystack| then
      false
    else if haystack[..|needle|] == needle then
      assert OccursAt(haystack, needle, 0);
      true
    else
      OccursInTail(haystack, needle);
      Includes(haystack[1..], needle)
  }
}
