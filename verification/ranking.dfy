/**
 * The fusion ranker's ordering of passages.
 *
 * `retrieve` builds `combined_scores` with one entry per passage index in ascending
 * index order and sorts its items by score with Python's stable `sorted(...,
 * reverse=True)`. A stable descending sort of items that start in ascending index
 * order puts a higher score first and, among equal scores, the lower index first.
 * That is the strict total order `Ahead` below, and `OrderedUnique` shows that it
 * determines the sorted sequence completely.
 */
module Ranking {

  /** Passage `a` ranks before passage `b`: a higher score, or an equal score and a lower index. */
  predicate Ahead(scores: seq<real>, a: nat, b: nat)
    requires a < |scores| && b < |scores|
  {
    scores[a] > scores[b] || (scores[a] == scores[b] && a < b)
  }

  /** Every element of `xs` is a passage index. */
  ghost predicate InRange(scores: seq<real>, xs: seq<nat>) {
    forall k :: 0 <= k < |xs| ==> xs[k] < |scores|
  }

  /** `xs` lists passage indices in strictly decreasing rank. */
  ghost predicate Ordered(scores: seq<real>, xs: seq<nat>) {
    && InRange(scores, xs)
    && forall i, j :: 0 <= i < j < |xs| ==> Ahead(scores, xs[i], xs[j])
  }

  /** `xs` is the complete ranking: every passage index exactly once, in rank order. */
  ghost predicate IsRanking(scores: seq<real>, xs: seq<nat>) {
    && |xs| == |scores|
    && Ordered(scores, xs)
    && forall y: nat :: y in xs <==> y < |scores|
  }

  /** Places passage `x` into an ordered list of other passages. */
  function Insert(scores: seq<real>, x: nat, xs: seq<nat>): (r: seq<nat>)
    requires x < |scores| && Ordered(scores, xs) && x !in xs
    ensures Ordered(scores, r)
    ensures |r| == |xs| + 1
    ensures forall y :: y in r <==> y == x || y in xs
    decreases |xs|
  {
    if xs == [] then [x]
    else if Ahead(scores, x, xs[0]) then
      var r := [x] + xs;
      assert forall j :: 1 <= j < |r| ==> Ahead(scores, x, r[j]) by {
        forall j | 1 <= j < |r| ensures Ahead(scores, x, r[j]) {
          if j > 1 { assert Ahead(scores, xs[0], xs[j - 1]); }
        }
      }
      r
    else
      var rest := Insert(scores, x, xs[1..]);
      var r := [xs[0]] + rest;
      assert forall y :: y in xs[1..] ==> Ahead(scores, xs[0], y) by {
        forall y | y in xs[1..] ensures Ahead(scores, xs[0], y) {
          var j :| 0 <= j < |xs[1..]| && xs[1..][j] == y;
          assert xs[j + 1] == y;
        }
      }
      assert forall j :: 1 <= j < |r| ==> Ahead(scores, xs[0], r[j]) by {
        forall j | 1 <= j < |r| ensures Ahead(scores, xs[0], r[j]) {
          assert r[j] in rest;
        }
      }
      r
  }

  /** The passages `0 .. n-1` in rank order. */
  function RankPrefix(scores: seq<real>, n: nat): (r: seq<nat>)
    requires n <= |scores|
    ensures Ordered(scores, r)
    ensures |r| == n
    ensures forall y: nat :: y in r <==> y < n
  {
    if n == 0 then [] else Insert(scores, n - 1, RankPrefix(scores, n - 1))
  }

  /** Python's `sorted(combined_scores.items(), key=score, reverse=True)`, as passage indices. */
  function Rank(scores: seq<real>): (r: seq<nat>)
    ensures IsRanking(scores, r)
  {
    RankPrefix(scores, |scores|)
  }

  function Min(a: int, b: int): int {
    if a <= b then a else b
  }

  /** `sorted(...)[:top_k]`: the first `topK` passages of the ranking. */
  function TopK(scores: seq<real>, topK: nat): (r: seq<nat>)
    ensures |r| == Min(topK, |scores|)
    ensures Ordered(scores, r)
    ensures forall y :: y in r ==> y < |scores|
    ensures forall a, b: nat :: a in r && b < |scores| && b !in r ==> Ahead(scores, a, b)
  {
    var all := Rank(scores);
    var r := all[..Min(topK, |scores|)];
    assert forall a, b: nat :: a in r && b < |scores| && b !in r ==> Ahead(scores, a, b) by {
      forall a, b: nat | a in r && b < |scores| && b !in r ensures Ahead(scores, a, b) {
        var i :| 0 <= i < |r| && r[i] == a;
        assert b in all;
        var j :| 0 <= j < |all| && all[j] == b;
        assert i < j;
      }
    }
    r
  }

  /** The head of an ordered list ranks before every other element of it. */
  lemma HeadIsAhead(scores: seq<real>, xs: seq<nat>)
    requires Ordered(scores, xs) && |xs| > 0
    ensures forall y :: y in xs && y != xs[0] ==> Ahead(scores, xs[0], y)
  {
    forall y | y in xs && y != xs[0] ensures Ahead(scores, xs[0], y) {
      var j :| 0 <= j < |xs| && xs[j] == y;
      assert j > 0;
    }
  }

  /** An ordered list holds each passage once. */
  lemma HeadNotInTail(scores: seq<real>, xs: seq<nat>)
    requires Ordered(scores, xs) && |xs| > 0
    ensures xs[0] !in xs[1..]
  {
    forall j | 0 <= j < |xs[1..]| ensures xs[1..][j] != xs[0] {
      assert Ahead(scores, xs[0], xs[j + 1]);
    }
  }

  /**
   * Two rank-ordered lists of the same passages are equal: the order `Ahead` leaves no
   * freedom, so any stable descending sort yields exactly `Rank`.
   */
  lemma {:induction false} OrderedUnique(scores: seq<real>, a: seq<nat>, b: seq<nat>)
    requires Ordered(scores, a) && Ordered(scores, b)
    requires forall y :: y in a <==> y in b
    ensures a == b
    decreases |a|
  {
    if a == [] {
      NonEmptyHasHead(b);
    } else {
      assert a[0] in b;
      assert b != [];
      assert a[0] == b[0] by {
        HeadIsAhead(scores, a);
        HeadIsAhead(scores, b);
        assert b[0] in a;
      }
      HeadNotInTail(scores, a);
      HeadNotInTail(scores, b);
      assert forall y :: y in a[1..] <==> y in b[1..] by {
        forall y ensures y in a[1..] <==> y in b[1..] {
          assert y in a <==> y == a[0] || y in a[1..] by { assert a == [a[0]] + a[1..]; }
          assert y in b <==> y == b[0] || y in b[1..] by { assert b == [b[0]] + b[1..]; }
        }
      }
      OrderedUnique(scores, a[1..], b[1..]);
      assert a == [a[0]] + a[1..] && b == [b[0]] + b[1..];
    }
  }

  lemma NonEmptyHasHead(xs: seq<nat>)
    ensures |xs| > 0 ==> xs[0] in xs
  {
  }

  /** Any complete ranking of the passages is the one `Rank` computes. */
  lemma RankIsUnique(scores: seq<real>, xs: seq<nat>)
    requires IsRanking(scores, xs)
    ensures xs == Rank(scores)
  {
    OrderedUnique(scores, xs, Rank(scores));
  }
}
