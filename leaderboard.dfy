/** The leaderboard ordering: the comparator, the sort it drives and `slice(0, n)`. Both
    revisions of the connector rank their own records with these. */
module Leaderboard {

  /** activityScoreSort, on the two scores: -1 puts `a` first. It never answers 0, so two
      equal scores compare as 1 in both orders and their relative order is left open. */
  function ActivityScoreSort(a: int, b: int): (c: int)
    ensures c == -1 <==> a > b
    ensures c == 1 <==> a <= b
  {
    if a > b then -1 else 1
  }

  ghost predicate NonIncreasing<T>(s: seq<T>, score: T -> int) {
    forall i, j :: 0 <= i < j < |s| ==> score(s[i]) >= score(s[j])
  }

  /** Places `x` in a ranked sequence before the first item the comparator puts after it. */
  function Insert<T>(x: T, s: seq<T>, score: T -> int): (r: seq<T>)
    requires NonIncreasing(s, score)
    ensures NonIncreasing(r, score)
    ensures multiset(r) == multiset(s) + multiset{x}
    ensures |r| == |s| + 1
    ensures forall k :: 0 <= k < |r| ==> r[k] == x || r[k] in s
  {
    if s == [] then [x]
    else if ActivityScoreSort(score(x), score(s[0])) < 0 then [x] + s
    else
      assert s == [s[0]] + s[1..];
      var rest := Insert(x, s[1..], score);
      ConsRanked(s, x, rest, score);
      assert multiset([s[0]] + rest) == multiset{s[0]} + multiset(rest);
      [s[0]] + rest
  }

  /** The head of a ranking stays first ahead of any reordering of its tail plus an item
      that scores no higher. */
  lemma ConsRanked<T>(s: seq<T>, x: T, rest: seq<T>, score: T -> int)
    requires s != [] && NonIncreasing(s, score) && NonIncreasing(rest, score)
    requires score(x) <= score(s[0])
    requires forall k :: 0 <= k < |rest| ==> rest[k] == x || rest[k] in s[1..]
    ensures NonIncreasing([s[0]] + rest, score)
  {
    var r := [s[0]] + rest;
    forall i, j | 0 <= i < j < |r| ensures score(r[i]) >= score(r[j]) {
      if i == 0 {
        assert r[j] == rest[j - 1];
        if rest[j - 1] != x {
          var m :| 0 <= m < |s| - 1 && s[1..][m] == rest[j - 1];
          assert s[m + 1] == rest[j - 1];
        }
      } else {
        assert r[i] == rest[i - 1] && r[j] == rest[j - 1];
      }
    }
  }

  /** `items.sort(activityScoreSort)`, as an insertion sort: a ranking by non-increasing
      score that is a permutation of the items. */
  function SortByScore<T>(s: seq<T>, score: T -> int): (r: seq<T>)
    ensures NonIncreasing(r, score)
    ensures multiset(r) == multiset(s)
    ensures |r| == |s|
  {
    if s == [] then []
    else
      assert s == [s[0]] + s[1..];
      Insert(s[0], SortByScore(s[1..], score), score)
  }

  /** `s.slice(0, n)`: a negative `n` counts back from the end. */
  function Slice<T>(s: seq<T>, n: int): (r: seq<T>)
    ensures 0 <= n ==> |r| == if n < |s| then n else |s|
    ensures n < 0 ==> |r| == if |s| + n > 0 then |s| + n else 0
    ensures r == s[..|r|]
  {
    var end := if n >= 0 then (if n < |s| then n else |s|) else (if |s| + n > 0 then |s| + n else 0);
    s[..end]
  }

  /** Every item left out of a prefix of a ranking scores at most every item kept. */
  lemma PrefixIsTop<T>(s: seq<T>, k: nat, score: T -> int)
    requires NonIncreasing(s, score) && k <= |s|
    ensures multiset(s) - multiset(s[..k]) == multiset(s[k..])
    ensures forall x, y :: x in s[..k] && y in s[k..] ==> score(y) <= score(x)
  {
    assert s == s[..k] + s[k..];
    forall x, y | x in s[..k] && y in s[k..] ensures score(y) <= score(x) {
      var i :| 0 <= i < k && s[..k][i] == x;
      var j :| 0 <= j < |s| - k && s[k..][j] == y;
      assert s[i] == x && s[k + j] == y;
    }
  }

  /** A prefix of a ranking is a ranking. */
  lemma PrefixRanked<T>(s: seq<T>, k: nat, score: T -> int)
    requires NonIncreasing(s, score) && k <= |s|
    ensures NonIncreasing(s[..k], score)
  {
    forall i, j | 0 <= i < j < k ensures score(s[..k][i]) >= score(s[..k][j]) {
      assert s[..k][i] == s[i] && s[..k][j] == s[j];
    }
  }

  /** getNMostActiveUsers' ranking step: sort, then keep the first `n`. */
  function TopN<T(!new)>(items: seq<T>, n: int, score: T -> int): (r: seq<T>)
    ensures NonIncreasing(r, score)
    ensures multiset(r) <= multiset(items)
    ensures forall x :: x in r ==> x in items
    ensures 0 <= n ==> |r| == if n < |items| then n else |items|
    ensures forall x, y :: x in r && y in items && y !in r ==> score(y) <= score(x)
  {
    var sorted := SortByScore(items, score);
    var r := Slice(sorted, n);
    var rest := sorted[|r|..];
    assert sorted == r + rest;
    assert multiset(sorted) == multiset(r) + multiset(rest);
    PrefixRanked(sorted, |r|, score);
    PrefixIsTop(sorted, |r|, score);
    assert forall x :: x in r ==> x in items by {
      forall x | x in r ensures x in items {
        assert x in multiset(sorted);
      }
    }
    assert forall y :: y in items && y !in r ==> y in rest by {
      forall y | y in items && y !in r ensures y in rest {
        assert y in multiset(sorted);
      }
    }
    r
  }
}
