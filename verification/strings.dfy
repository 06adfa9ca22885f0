/** The string operations the harness relies on: `str.startswith`, the
    substring test `needle in s` and `str.lower`. */
module Strings {

  /** `s.startswith(prefix)` */
  predicate StartsWith(s: string, prefix: string) {
    |prefix| <= |s| && s[..|prefix|] == prefix
  }

  /** `needle` occurs in `s` starting at position `i`. */
  ghost predicate OccursAt(s: string, needle: string, i: int) {
    0 <= i && i + |needle| <= |s| && s[i..i + |needle|] == needle
  }

  /** `startswith` compares the prefix character by character: it is an
      occurrence at position 0. */
  lemma StartsWithChars(s: string, prefix: string)
    ensures StartsWith(s, prefix) <==> |prefix| <= |s| && forall i :: 0 <= i < |prefix| ==> s[i] == prefix[i]
    ensures StartsWith(s, prefix) <==> OccursAt(s, prefix, 0)
  {
  }

  /** `needle in s`, decided by scanning `s` from the left. */
  function Contains(s: string, needle: string): (found: bool)
    ensures found <==> exists i :: OccursAt(s, needle, i)
    decreases |s|
  {
    if StartsWith(s, needle) then
      assert OccursAt(s, needle, 0);
      true
    else if |s| == 0 then
      false
    else
      var rest := Contains(s[1..], needle);
      assert !OccursAt(s, needle, 0);
      assert forall i :: OccursAt(s[1..], needle, i) <==> OccursAt(s, needle, i + 1);
      assert forall i :: OccursAt(s, needle, i) ==> i >= 1 && OccursAt(s[1..], needle, i - 1);
      rest
  }

  /** ASCII lower-casing of one character. */
  function LowerChar(c: char): char {
    if 'A' <= c <= 'Z' then (c as int + 32) as char else c
  }

  /** `s.lower()`, restricted to ASCII letters. */
  function Lower(s: string): (r: string)
    ensures |r| == |s|
    ensures forall i :: 0 <= i < |r| ==> !('A' <= r[i] <= 'Z')
    ensures forall i :: 0 <= i < |r| && !('A' <= s[i] <= 'Z') ==> r[i] == s[i]
    ensures forall i :: 0 <= i < |r| && 'A' <= s[i] <= 'Z' ==> r[i] as int == s[i] as int + 32
  {
    seq(|s|, i requires 0 <= i < |s| => LowerChar(s[i]))
  }
}
