/** The string primitives the Python code relies on: `str.lower()`, the substring test
    `p in t` and `str.strip()`, restricted to ASCII. */
module Strings {

  predicate IsUpper(c: char)
  {
    'A' <= c <= 'Z'
  }

  /** `str.lower()` on one character: ASCII upper-case letters move to lower case. */
  function LowerChar(c: char): (d: char)
    ensures !IsUpper(d)
  {
    if IsUpper(c) then (c as int + 32) as char else c
  }

  function Lower(s: string): (r: string)
    ensures |r| == |s|
    ensures forall i :: 0 <= i < |s| ==> r[i] == LowerChar(s[i])
  {
    seq(|s|, i requires 0 <= i < |s| => LowerChar(s[i]))
  }

  /** Lower-casing twice is lower-casing once. */
  lemma LowerIdempotent(s: string)
    ensures Lower(Lower(s)) == Lower(s)
  {
    assert forall i :: 0 <= i < |s| ==> Lower(Lower(s))[i] == Lower(s)[i];
  }

  /** Python's `p in t` on strings: `p` occurs as a contiguous block of `t`
      (the empty string occurs in every string). */
  predicate Occurs(p: string, t: string)
    decreases |t|
  {
    p <= t || (t != [] && Occurs(p, t[1..]))
  }

  /** `p` sits in `t` starting at index `i`. */
  predicate OccursAtIndex(p: string, t: string, i: int)
  {
    0 <= i <= |t| - |p| && t[i..i + |p|] == p
  }

  /** `Occurs` agrees with the index-based definition of a substring. */
  lemma OccursAt(p: string, t: string)
    ensures Occurs(p, t) <==> exists i :: OccursAtIndex(p, t, i)
  {
    if Occurs(p, t) {
      var i := IndexOfOccurrence(p, t);
    }
    if exists i :: OccursAtIndex(p, t, i) {
      var i :| OccursAtIndex(p, t, i);
      OccurrenceAtIndex(p, t, i);
    }
  }

  /** Where `Occurs` finds the pattern. */
  lemma {:induction false} IndexOfOccurrence(p: string, t: string) returns (i: int)
    requires Occurs(p, t)
    ensures OccursAtIndex(p, t, i)
    decreases |t|
  {
    if p <= t {
      i := 0;
      assert t[0..|p|] == p;
    } else {
      var j := IndexOfOccurrence(p, t[1..]);
      i := j + 1;
      assert t[i..i + |p|] == t[1..][j..j + |p|];
    }
  }

  /** A pattern sitting at some index is found by `Occurs`. */
  lemma {:induction false} OccurrenceAtIndex(p: string, t: string, i: int)
    requires OccursAtIndex(p, t, i)
    ensures Occurs(p, t)
    decreases i
  {
    if i == 0 {
      assert p <= t;
    } else {
      assert t[1..][i - 1..i - 1 + |p|] == t[i..i + |p|];
      OccurrenceAtIndex(p, t[1..], i - 1);
    }
  }

  /** The ASCII characters Python's `str.isspace()` accepts: space, tab, newline,
      vertical tab, form feed, carriage return and the four separator controls 0x1C-0x1F. */
  predicate IsSpace(c: char)
  {
    c == ' ' || ('\t' <= c <= '\r') || ('\U{001C}' <= c <= '\U{001F}')
  }

  /** Neither the first nor the last character is white space. */
  predicate IsTrimmed(s: string)
  {
    s == [] || (!IsSpace(s[0]) && !IsSpace(s[|s| - 1]))
  }

  /** The first index at or after `i` that does not hold white space (or `|s|`). */
  function SkipSpaceForward(s: string, i: nat): (j: nat)
    requires i <= |s|
    ensures i <= j <= |s|
    ensures forall k :: i <= k < j ==> IsSpace(s[k])
    ensures j < |s| ==> !IsSpace(s[j])
    decreases |s| - i
  {
    if i == |s| || !IsSpace(s[i]) then i else SkipSpaceForward(s, i + 1)
  }

  /** Going down from `j`, the end of the last character at or above `lo` that is not white
      space (or `lo`). */
  function SkipSpaceBackward(s: string, lo: nat, j: nat): (e: nat)
    requires lo <= j <= |s|
    ensures lo <= e <= j
    ensures forall k :: e <= k < j ==> IsSpace(s[k])
    ensures lo < e ==> !IsSpace(s[e - 1])
    decreases j
  {
    if j == lo || !IsSpace(s[j - 1]) then j else SkipSpaceBackward(s, lo, j - 1)
  }

  /** Where the text kept by `str.strip()` starts. */
  function StripStart(s: string): (lo: nat)
    ensures lo <= |s|
  {
    SkipSpaceForward(s, 0)
  }

  /** Where the text kept by `str.strip()` ends. */
  function StripEnd(s: string): (hi: nat)
    ensures StripStart(s) <= hi <= |s|
  {
    SkipSpaceBackward(s, StripStart(s), |s|)
  }

  /** `str.strip()`: the block of `s` between its leading and its trailing white space. What is
      cut off on either side is white space, and the block neither starts nor ends with it. */
  function Strip(s: string): (r: string)
    ensures IsTrimmed(r)
    ensures |r| == StripEnd(s) - StripStart(s)
    ensures forall i :: 0 <= i < |r| ==> r[i] == s[StripStart(s) + i]
    ensures forall k :: 0 <= k < StripStart(s) ==> IsSpace(s[k])
    ensures forall k :: StripEnd(s) <= k < |s| ==> IsSpace(s[k])
  {
    s[StripStart(s)..StripEnd(s)]
  }

}
