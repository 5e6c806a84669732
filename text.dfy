/** The two string operations the search uses: `str.lower()` and the substring test `needle in haystack`. */
module Text {

  predicate IsUpper(c: char) {
    'A' <= c <= 'Z'
  }

  /** Lower-cases one ASCII letter and leaves every other character alone. */
  function LowerChar(c: char): char {
    if IsUpper(c) then (c as int + 32) as char else c
  }

  /** `s.lower()`, restricted to the ASCII alphabet. */
  function Lower(s: string): (r: string)
    ensures |r| == |s|
    ensures forall i :: 0 <= i < |s| ==> r[i] == LowerChar(s[i])
    ensures forall i :: 0 <= i < |r| ==> !IsUpper(r[i])
  {
    seq(|s|, i requires 0 <= i < |s| => LowerChar(s[i]))
  }

  /** Lower-casing twice is lower-casing once. */
  lemma LowerIdempotent(s: string)
    ensures Lower(Lower(s)) == Lower(s)
  {
  }

  /** `needle` occurs in `haystack` starting at index `i`. */
  predicate OccursAt(haystack: string, needle: string, i: int) {
    0 <= i && i + |needle| <= |haystack| && haystack[i..i + |needle|] == needle
  }

  /** Python's `needle in haystack` on strings: `needle` occurs at some index. */
  predicate Contains(haystack: string, needle: string) {
    exists i :: 0 <= i <= |haystack| - |needle| && OccursAt(haystack, needle, i)
  }

  /** A string occurs in `haystack` only if each of its characters does. */
  lemma ContainsOnlyIfCharOccurs(haystack: string, needle: string, c: char)
    requires Contains(haystack, needle) && c in needle
    ensures c in haystack
  {
    var i :| 0 <= i <= |haystack| - |needle| && OccursAt(haystack, needle, i);
    var k :| 0 <= k < |needle| && needle[k] == c;
    assert haystack[i + k] == haystack[i..i + |needle|][k];
  }

  /** A lower-cased string misses any query with a character that no character
      of the original string lower-cases to. */
  lemma LowerMissesQuery(s: string, query: string, c: char)
    requires c in query
    requires forall x :: x in s ==> LowerChar(x) != c
    ensures !Contains(Lower(s), query)
  {
    if Contains(Lower(s), query) {
      ContainsOnlyIfCharOccurs(Lower(s), query, c);
      assert false;
    }
  }

  /** The empty string occurs in every string. */
  lemma ContainsEmpty(haystack: string)
    ensures Contains(haystack, "")
  {
    assert OccursAt(haystack, "", 0);
  }
}
