/** The few PHP built-ins and language rules the webhook controller relies on:
    truthiness of `!$x`, `strtolower` and `str_contains`. */
module Php {

  /** An optional value: `None` is PHP's `null` or a missing key. */
  datatype Option<+T> = None | Some(value: T)

  /** PHP's `!$x` on a value that is null or a string: null, "" and "0" are falsy. */
  predicate Falsy(x: Option<string>) {
    x.None? || x.value == "" || x.value == "0"
  }

  /** `strtolower` on one character: only the ASCII letters A-Z change. */
  function LowerChar(c: char): (d: char)
    ensures 'A' <= c <= 'Z' ==> d as int == c as int + 32
    ensures !('A' <= c <= 'Z') ==> d == c
    ensures !('A' <= d <= 'Z')
  {
    if 'A' <= c <= 'Z' then (c as int + 32) as char else c
  }

  /** `strtolower`: every character lowered, length kept. */
  function Lower(s: string): (r: string)
    ensures |r| == |s|
    ensures forall i :: 0 <= i < |s| ==> r[i] == LowerChar(s[i])
  {
    if s == [] then [] else [LowerChar(s[0])] + Lower(s[1..])
  }

  /** The needle occurs in the haystack starting at position i. */
  predicate OccursAt(haystack: string, needle: string, i: int) {
    0 <= i && i + |needle| <= |haystack| && haystack[i..i + |needle|] == needle
  }

  /** `str_contains`: true exactly when the needle occurs somewhere in the haystack. */
  function Contains(haystack: string, needle: string): (b: bool)
    ensures b <==> exists i :: OccursAt(haystack, needle, i)
    decreases |haystack|
  {
    if |needle| > |haystack| then false
    else if haystack[..|needle|] == needle then assert OccursAt(haystack, needle, 0); true
    else
      OccursShift(haystack, needle);
      Contains(haystack[1..], needle)
  }

  /** An occurrence past the first position is an occurrence in the tail. */
  lemma OccursShift(haystack: string, needle: string)
    requires |haystack| > 0
    requires !OccursAt(haystack, needle, 0)
    ensures (exists i :: OccursAt(haystack, needle, i)) <==> (exists i :: OccursAt(haystack[1..], needle, i))
  {
    forall i | OccursAt(haystack, needle, i)
      ensures OccursAt(haystack[1..], needle, i - 1)
    {
      assert haystack[1..][i - 1..i - 1 + |needle|] == haystack[i..i + |needle|];
    }
    forall i | OccursAt(haystack[1..], needle, i)
      ensures OccursAt(haystack, needle, i + 1)
    {
      assert haystack[1..][i..i + |needle|] == haystack[i + 1..i + 1 + |needle|];
    }
  }

  /** Lowering works piece by piece. */
  lemma LowerAppend(a: string, b: string)
    ensures Lower(a + b) == Lower(a) + Lower(b)
  {
  }

  /** A string with the needle in it contains it. */
  lemma ContainsInfix(before: string, needle: string, after: string)
    ensures Contains(before + needle + after, needle)
  {
    assert (before + needle + after)[|before|..|before| + |needle|] == needle;
    assert OccursAt(before + needle + after, needle, |before|);
  }

  /** Matching a lowered string ignores ASCII case: strings that agree up to case lower to the same string. */
  lemma LowerIgnoresCase(a: string, b: string)
    requires |a| == |b|
    requires forall i :: 0 <= i < |a| ==> LowerChar(a[i]) == LowerChar(b[i])
    ensures Lower(a) == Lower(b)
  {
  }
}
