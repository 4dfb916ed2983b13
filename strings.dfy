/**
 * The few `java.lang.String` operations the cache and the class loader rely
 * on, over strings as sequences of characters.
 */
module Strings {

  /** `pat` occurs in `s` starting at index `k`. */
  predicate OccursAt(s: string, pat: string, k: int) {
    0 <= k <= |s| - |pat| && s[k..k + |pat|] == pat
  }

  /**
   * `s.lastIndexOf(pat)`: the largest index at which `pat` occurs in `s`,
   * or -1 when it does not occur (for an empty `pat`, `|s|`).
   */
  function LastIndexOf(s: string, pat: string): (r: int)
    ensures r == -1 || 0 <= r <= |s| - |pat|
    ensures r >= 0 ==> OccursAt(s, pat, r)
    ensures forall j :: r < j ==> !OccursAt(s, pat, j)
  {
    LastIndexOfAtMost(s, pat, |s| - |pat|)
  }

  /** The last occurrence of `pat` in `s` that starts at or before `j`. */
  function LastIndexOfAtMost(s: string, pat: string, j: int): (r: int)
    requires j <= |s| - |pat|
    ensures r == -1 || 0 <= r <= j
    ensures r >= 0 ==> OccursAt(s, pat, r)
    ensures forall k :: r < k <= j ==> !OccursAt(s, pat, k)
    decreases j + 1
  {
    if j < 0 then -1
    else if s[j..j + |pat|] == pat then j
    else LastIndexOfAtMost(s, pat, j - 1)
  }

  /** A one-character pattern is found exactly when the character occurs. */
  lemma LastIndexOfChar(s: string, c: char)
    ensures LastIndexOf(s, [c]) >= 0 <==> c in s
    ensures LastIndexOf(s, [c]) >= 0 ==> s[LastIndexOf(s, [c])] == c
    ensures forall j :: LastIndexOf(s, [c]) < j < |s| ==> s[j] != c
  {
    var r := LastIndexOf(s, [c]);
    forall j | r < j < |s|
      ensures s[j] != c
    {
      assert s[j..j + 1] == [s[j]];
      assert !OccursAt(s, [c], j);
    }
    if r >= 0 {
      assert s[r..r + 1] == [s[r]];
    }
  }

  /** `s.chars().filter(ch -> ch == c).count()`. */
  function CountChar(s: string, c: char): (n: nat)
    ensures n <= |s|
    ensures n == 0 <==> c !in s
  {
    if s == [] then 0
    else (if s[0] == c then 1 else 0) + CountChar(s[1..], c)
  }

  /** Counting is additive over concatenation. */
  lemma {:induction false} CountCharAppend(a: string, b: string, c: char)
    ensures CountChar(a + b, c) == CountChar(a, c) + CountChar(b, c)
  {
    if a == [] {
      assert a + b == b;
    } else {
      assert (a + b)[1..] == a[1..] + b;
      CountCharAppend(a[1..], b, c);
    }
  }

  /** `s.replace(from, to)` for single characters. */
  function ReplaceChar(s: string, from: char, to: char): (r: string)
    ensures |r| == |s|
    ensures forall i :: 0 <= i < |s| ==> r[i] == if s[i] == from then to else s[i]
  {
    if s == [] then []
    else [if s[0] == from then to else s[0]] + ReplaceChar(s[1..], from, to)
  }

  /** Replacing `a` by `b` and then `b` back by `a` restores a string free of `b`. */
  lemma ReplaceCharBack(s: string, a: char, b: char)
    requires b !in s
    ensures ReplaceChar(ReplaceChar(s, a, b), b, a) == s
  {
  }
}
