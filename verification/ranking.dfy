/** Scored incident cases and the stable descending sort the client applies to them
    (`scored.sort((a, b) => b.score - a.score)`; `Array.prototype.sort` is stable). */
module Ranking {
  import opened Sequences

  /** A catalog case `{ ...c, score }`: the case's own fields with a score added. */
  datatype ScoredCase = ScoredCase(title: string, description: string, score: nat)

  /** Scores never increase from left to right. */
  ghost predicate SortedByScore(s: seq<ScoredCase>) {
    forall i, j :: 0 <= i < j < |s| ==> s[i].score >= s[j].score
  }

  /** The cases of `s` whose score is `k`, in their order in `s`. */
  function WithScore(s: seq<ScoredCase>, k: nat): seq<ScoredCase>
    decreases |s|
  {
    if |s| == 0 then []
    else (if s[0].score == k then [s[0]] else []) + WithScore(s[1..], k)
  }

  lemma {:induction false} WithScoreAppend(a: seq<ScoredCase>, b: seq<ScoredCase>, k: nat)
    ensures WithScore(a + b, k) == WithScore(a, k) + WithScore(b, k)
    decreases |a|
  {
    if |a| == 0 {
      assert a + b == b;
    } else {
      var h := if a[0].score == k then [a[0]] else [];
      assert (a + b)[0] == a[0];
      assert (a + b)[1..] == a[1..] + b;
      WithScoreAppend(a[1..], b, k);
      assert WithScore(a + b, k) == h + (WithScore(a[1..], k) + WithScore(b, k));
      assert WithScore(a, k) == h + WithScore(a[1..], k);
    }
  }

  /** Everything `WithScore` keeps is an element of `s` with score `k`. */
  lemma {:induction false} WithScoreMembers(s: seq<ScoredCase>, k: nat)
    ensures forall x :: x in WithScore(s, k) ==> x in s && x.score == k
    decreases |s|
  {
    if |s| > 0 {
      WithScoreMembers(s[1..], k);
    }
  }

  lemma SortedTail(s: seq<ScoredCase>)
    requires |s| > 0 && SortedByScore(s)
    ensures SortedByScore(s[1..])
  {
  }

  lemma WithScoreSingle(x: ScoredCase, k: nat)
    ensures WithScore([x], k) == if x.score == k then [x] else []
  {
    assert [x][1..] == [];
  }

  /** The first case of a non-empty sequence is kept by the filter for its own score. */
  lemma WithScoreHead(s: seq<ScoredCase>)
    requires |s| > 0
    ensures WithScore(s, s[0].score) == [s[0]] + WithScore(s[1..], s[0].score)
  {
  }

  /** Places `x` before the first case whose score is not greater than its own, so that
      among equal scores `x` comes first. */
  function Insert(x: ScoredCase, s: seq<ScoredCase>): (r: seq<ScoredCase>)
    ensures |r| == |s| + 1
    decreases |s|
  {
    if |s| == 0 || x.score >= s[0].score then [x] + s
    else [s[0]] + Insert(x, s[1..])
  }

  /** Insertion adds `x` and loses nothing. */
  lemma {:induction false} InsertPermutes(x: ScoredCase, s: seq<ScoredCase>)
    ensures multiset(Insert(x, s)) == multiset(s) + multiset{x}
    ensures forall y :: y in Insert(x, s) ==> y == x || y in s
    decreases |s|
  {
    if |s| > 0 && x.score < s[0].score {
      InsertPermutes(x, s[1..]);
      assert Insert(x, s) == [s[0]] + Insert(x, s[1..]);
      assert s == [s[0]] + s[1..];
    }
  }

  lemma {:induction false} InsertSorted(x: ScoredCase, s: seq<ScoredCase>)
    requires SortedByScore(s)
    ensures SortedByScore(Insert(x, s))
    decreases |s|
  {
    if |s| > 0 && x.score < s[0].score {
      SortedTail(s);
      InsertSorted(x, s[1..]);
      var t := Insert(x, s[1..]);
      assert Insert(x, s) == [s[0]] + t;
      InsertPermutes(x, s[1..]);
      forall j | 0 <= j < |t| ensures s[0].score >= t[j].score {
        assert t[j] in t;
        if t[j] != x {
          var q :| 0 <= q < |s[1..]| && s[1..][q] == t[j];
          assert s[q + 1] == t[j];
        }
      }
    }
  }

  /** Insertion moves `x` only past cases with a strictly higher score, so it stays ahead
      of every case with its own score. */
  lemma {:induction false} InsertStable(x: ScoredCase, s: seq<ScoredCase>, k: nat)
    ensures WithScore(Insert(x, s), k) == WithScore([x] + s, k)
    decreases |s|
  {
    if |s| > 0 && x.score < s[0].score {
      var t := Insert(x, s[1..]);
      var hx, hs := WithScore([x], k), WithScore([s[0]], k);
      WithScoreSingle(x, k);
      WithScoreSingle(s[0], k);
      calc {
        WithScore(Insert(x, s), k);
        { assert Insert(x, s) == [s[0]] + t; WithScoreAppend([s[0]], t, k); }
        hs + WithScore(t, k);
        { InsertStable(x, s[1..], k); WithScoreAppend([x], s[1..], k); }
        hs + (hx + WithScore(s[1..], k));
        hx + (hs + WithScore(s[1..], k));
        { assert s == [s[0]] + s[1..]; WithScoreAppend([s[0]], s[1..], k); }
        hx + WithScore(s, k);
        { WithScoreAppend([x], s, k); }
        WithScore([x] + s, k);
      }
    }
  }

  /** Insertion sort from the back: `s[0]` is inserted ahead of every later case with the
      same score, which is what makes the sort stable. */
  function SortByScore(s: seq<ScoredCase>): (r: seq<ScoredCase>)
    ensures |r| == |s|
    ensures SortedByScore(r)
    ensures multiset(r) == multiset(s)
    ensures forall k :: WithScore(r, k) == WithScore(s, k)
    decreases |s|
  {
    if |s| == 0 then []
    else
      var r := Insert(s[0], SortByScore(s[1..]));
      InsertSorted(s[0], SortByScore(s[1..]));
      InsertPermutes(s[0], SortByScore(s[1..]));
      assert multiset(s) == multiset{s[0]} + multiset(s[1..]) by {
        assert s == [s[0]] + s[1..];
      }
      forall k ensures WithScore(r, k) == WithScore(s, k) {
        InsertKeepsStable(s, SortByScore(s[1..]), k);
      }
      r
  }

  /** Inserting `s[0]` into a stable sort of `s[1..]` gives a stable sort of `s`. */
  lemma InsertKeepsStable(s: seq<ScoredCase>, sortedTail: seq<ScoredCase>, k: nat)
    requires |s| > 0
    requires WithScore(sortedTail, k) == WithScore(s[1..], k)
    ensures WithScore(Insert(s[0], sortedTail), k) == WithScore(s, k)
  {
    InsertStable(s[0], sortedTail, k);
    WithScoreAppend([s[0]], sortedTail, k);
    WithScoreAppend([s[0]], s[1..], k);
    assert s == [s[0]] + s[1..];
  }

  /** A sorted, stable arrangement is unique: two sorted sequences that agree on the
      subsequence of every score are equal. Hence any stable descending sort (such as
      the engine's) produces exactly `SortByScore`. */
  lemma {:induction false} StableSortUnique(r1: seq<ScoredCase>, r2: seq<ScoredCase>)
    requires SortedByScore(r1) && SortedByScore(r2)
    requires forall k :: WithScore(r1, k) == WithScore(r2, k)
    ensures r1 == r2
    decreases |r1|
  {
    if |r1| == 0 || |r2| == 0 {
      if |r1| > 0 {
        WithScoreHead(r1);
        assert false;
      } else if |r2| > 0 {
        WithScoreHead(r2);
        assert false;
      }
      return;
    }
    var a, b := r1[0], r2[0];
    assert a.score >= b.score by {
      var w := WithScore(r1, b.score);
      assert w == WithScore(r2, b.score);
      assert w != [];
      WithScoreMembers(r1, b.score);
      assert w[0] in r1;
    }
    assert b.score >= a.score by {
      var w := WithScore(r2, a.score);
      assert w == WithScore(r1, a.score);
      assert w != [];
      WithScoreMembers(r2, a.score);
      assert w[0] in r2;
    }
    assert a == b by {
      assert WithScore(r1, a.score)[0] == a;
      assert WithScore(r2, a.score)[0] == b;
    }
    forall k ensures WithScore(r1[1..], k) == WithScore(r2[1..], k) {
      assert WithScore(r1, k) == WithScore(r2, k);
      if k == a.score {
        assert WithScore(r1, k) == [a] + WithScore(r1[1..], k);
        assert WithScore(r2, k) == [a] + WithScore(r2[1..], k);
        assert ([a] + WithScore(r1[1..], k))[1..] == WithScore(r1[1..], k);
        assert ([a] + WithScore(r2[1..], k))[1..] == WithScore(r2[1..], k);
      } else {
        assert WithScore(r1, k) == WithScore(r1[1..], k);
        assert WithScore(r2, k) == WithScore(r2[1..], k);
      }
    }
    StableSortUnique(r1[1..], r2[1..]);
    assert r1 == [a] + r1[1..];
    assert r2 == [b] + r2[1..];
  }

  /** The cases of a prefix with a given score are a prefix of those of the whole. */
  lemma {:induction false} WithScorePrefix(s: seq<ScoredCase>, n: nat, k: nat)
    requires n <= |s|
    ensures WithScore(s[..n], k) <= WithScore(s, k)
  {
    assert s == s[..n] + s[n..];
    WithScoreAppend(s[..n], s[n..], k);
  }

  /** The first `n` cases of the sorted order are input cases, each taken no more often
      than it occurs in the input. */
  lemma SortedPrefixFromInput(s: seq<ScoredCase>, n: nat)
    ensures multiset(Take(SortByScore(s), n)) <= multiset(s)
    ensures forall x :: x in Take(SortByScore(s), n) ==> x in s
  {
    var sorted := SortByScore(s);
    var r := Take(sorted, n);
    assert sorted == r + sorted[|r|..];
    assert multiset(sorted) == multiset(r) + multiset(sorted[|r|..]);
    forall x | x in r ensures x in s {
      assert x in multiset(r);
      assert x in multiset(sorted);
    }
  }

  /** For every score, the first `n` cases of the sorted order hold a prefix of the
      input's cases with that score: ties are cut in input order. */
  lemma SortedPrefixStable(s: seq<ScoredCase>, n: nat, k: nat)
    ensures WithScore(Take(SortByScore(s), n), k) <= WithScore(s, k)
  {
    var sorted := SortByScore(s);
    var r := Take(sorted, n);
    WithScorePrefix(sorted, |r|, k);
    assert sorted[..|r|] == r;
  }

  /** The first `n` cases by descending score, ties in input order. */
  function TopN(s: seq<ScoredCase>, n: nat): (r: seq<ScoredCase>)
    ensures |r| == if |s| < n then |s| else n
    ensures SortedByScore(r)
    ensures multiset(r) <= multiset(s)
    ensures forall x :: x in r ==> x in s
    ensures forall k :: WithScore(r, k) <= WithScore(s, k)
  {
    var r := Take(SortByScore(s), n);
    SortedPrefixFromInput(s, n);
    forall k ensures WithScore(r, k) <= WithScore(s, k) {
      SortedPrefixStable(s, n, k);
    }
    r
  }

  /** A case the first `n` leave out scores no higher than any case they keep. */
  lemma TopNKeepsHighest(s: seq<ScoredCase>, n: nat, y: ScoredCase)
    requires y in s && y !in TopN(s, n)
    ensures forall x :: x in TopN(s, n) ==> x.score >= y.score
  {
    var sorted := SortByScore(s);
    var r := TopN(s, n);
    assert r == sorted[..|r|];
    assert y in multiset(sorted) by {
      assert y in multiset(s);
    }
    var p :| 0 <= p < |sorted| && sorted[p] == y;
    forall x | x in r ensures x.score >= y.score {
      var q :| 0 <= q < |r| && r[q] == x;
      assert sorted[q] == x;
    }
  }
}
