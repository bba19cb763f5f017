/** Generic sequence operations the JavaScript code relies on: `Array.prototype.slice(0, n)`
    and the "kept in order" relation a filter establishes. */
module Sequences {

  /** `s.slice(0, n)`: the first `n` elements, or all of them when there are fewer. */
  function Take<T>(s: seq<T>, n: nat): (r: seq<T>)
    ensures r <= s
    ensures |r| == if |s| < n then |s| else n
  {
    if |s| <= n then s else s[..n]
  }

  /** `a` is `b` with some elements left out, the rest in the same order. */
  predicate IsSubsequence<T(==)>(a: seq<T>, b: seq<T>)
    decreases |b|
  {
    |a| == 0 || (|b| > 0 && ((a[0] == b[0] && IsSubsequence(a[1..], b[1..])) || IsSubsequence(a, b[1..])))
  }

  /** A prefix of a subsequence is a subsequence. */
  lemma {:induction false} PrefixIsSubsequence<T>(a: seq<T>, b: seq<T>, c: seq<T>)
    requires a <= b && IsSubsequence(b, c)
    ensures IsSubsequence(a, c)
    decreases |c|
  {
    if |a| > 0 {
      assert b[0] == a[0];
      if b[0] == c[0] && IsSubsequence(b[1..], c[1..]) {
        assert a[1..] <= b[1..];
        PrefixIsSubsequence(a[1..], b[1..], c[1..]);
      } else {
        PrefixIsSubsequence(a, b, c[1..]);
      }
    }
  }
}
