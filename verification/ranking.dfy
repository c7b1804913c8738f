/**
 * The ordering `recommend` builds from one row of the similarity matrix:
 * `sorted(list(enumerate(distances)), reverse=True, key=lambda x: x[1])`
 * followed by the slice `[1:6]`. Python's sort is stable even with
 * `reverse=True`, so equal scores keep ascending index order.
 */
module Ranking {
  import opened Results

  /** Index `a` is listed ahead of index `b`: a higher score, or an equal
      score and a smaller index. */
  predicate Before(scores: seq<real>, a: nat, b: nat)
    requires a < |scores| && b < |scores|
  {
    scores[a] > scores[b] || (scores[a] == scores[b] && a < b)
  }

  /** `order` lists valid indices, each one strictly ahead of every later one. */
  predicate Ranked(scores: seq<real>, order: seq<nat>) {
    && (forall i :: 0 <= i < |order| ==> order[i] < |scores|)
    && (forall i, j :: 0 <= i < j < |order| ==> Before(scores, order[i], order[j]))
  }

  /** Index `y` is ahead of every other index. */
  predicate IsLeader(scores: seq<real>, y: nat) {
    y < |scores| && forall z :: 0 <= z < |scores| && z != y ==> Before(scores, y, z)
  }

  /** One step of the stable sort: places `x`, which comes after every index
      already placed, behind all of those whose score is at least its own. */
  function Insert(scores: seq<real>, order: seq<nat>, x: nat): (r: seq<nat>)
    requires x < |scores|
    requires Ranked(scores, order)
    requires forall i :: 0 <= i < |order| ==> order[i] < x
    ensures Ranked(scores, r)
    ensures |r| == |order| + 1
    ensures forall y :: y in r <==> y in order || y == x
  {
    if |order| == 0 then [x]
    else if scores[order[0]] < scores[x] then [x] + order
    else
      var rest := Insert(scores, order[1..], x);
      assert forall j :: 0 <= j < |rest| ==> rest[j] in rest;
      assert forall y :: y in order[1..] ==> y in order;
      [order[0]] + rest
  }

  /** The stable descending sort of the indices `0 .. k-1`. */
  function RankUpTo(scores: seq<real>, k: nat): (r: seq<nat>)
    requires k <= |scores|
    ensures Ranked(scores, r)
    ensures |r| == k
    ensures forall y: nat :: y in r <==> y < k
  {
    if k == 0 then []
    else
      var prefix := RankUpTo(scores, k - 1);
      assert forall i :: 0 <= i < |prefix| ==> prefix[i] in prefix;
      Insert(scores, prefix, k - 1)
  }

  /** Every index of `scores`, by descending score, equal scores by index. */
  function Rank(scores: seq<real>): (r: seq<nat>)
    ensures Ranked(scores, r)
    ensures |r| == |scores|
    ensures forall y: nat :: y in r <==> y < |scores|
  {
    RankUpTo(scores, |scores|)
  }

  /** Python's `xs[lo:hi]` for non-negative bounds: both ends clamped to the length. */
  function Slice<T>(xs: seq<T>, lo: nat, hi: nat): (r: seq<T>)
    ensures |r| == if Min(hi, |xs|) <= lo then 0 else Min(hi, |xs|) - lo
    ensures forall i :: 0 <= i < |r| ==> r[i] == xs[lo + i]
  {
    if Min(hi, |xs|) <= lo then [] else xs[lo..Min(hi, |xs|)]
  }

  /** The indices `recommend` keeps: positions 1 to 5 of the ranking. The
      index ranked first is dropped, whichever it is. */
  function TopFive(scores: seq<real>): (r: seq<nat>)
    ensures |r| == if |scores| <= 1 then 0 else Min(5, |scores| - 1)
    ensures Ranked(scores, r)
    ensures forall i :: 0 <= i < |r| - 1 ==> scores[r[i]] >= scores[r[i + 1]]
    ensures forall p :: p in r ==> !IsLeader(scores, p)
    ensures forall y :: 0 <= y < |scores| && y !in r ==>
      IsLeader(scores, y) || forall p :: p in r ==> Before(scores, p, y)
  {
    var order := Rank(scores);
    var r := Slice(order, 1, 6);
    RankFacts(scores, order, r);
    r
  }

  /** The first index of a ranking is ahead of every other index. */
  lemma FirstIsLeader(scores: seq<real>, order: seq<nat>)
    requires Ranked(scores, order)
    requires |order| > 0
    requires forall y: nat :: y in order <==> y < |scores|
    ensures IsLeader(scores, order[0])
  {
    forall z | 0 <= z < |scores| && z != order[0]
      ensures Before(scores, order[0], z)
    {
      assert z in order;
      var j :| 0 <= j < |order| && order[j] == z;
    }
  }

  /** The facts `TopFive` promises, about a full ranking and its slice [1:6]. */
  lemma RankFacts(scores: seq<real>, order: seq<nat>, r: seq<nat>)
    requires Ranked(scores, order)
    requires |order| == |scores|
    requires forall y: nat :: y in order <==> y < |scores|
    requires r == Slice(order, 1, 6)
    ensures Ranked(scores, r)
    ensures forall p :: p in r ==> !IsLeader(scores, p)
    ensures forall y :: 0 <= y < |scores| && y !in r ==>
      IsLeader(scores, y) || forall p :: p in r ==> Before(scores, p, y)
  {
    if |order| > 0 {
      FirstIsLeader(scores, order);
      forall p | p in r
        ensures !IsLeader(scores, p)
      {
        var i :| 0 <= i < |r| && r[i] == p;
        assert Before(scores, order[0], order[i + 1]);
        assert order[0] != p && !Before(scores, p, order[0]);
      }
      forall y | 0 <= y < |scores| && y !in r && y != order[0]
        ensures forall p :: p in r ==> Before(scores, p, y)
      {
        assert y in order;
        var j :| 0 <= j < |order| && order[j] == y;
        assert forall t :: 1 <= t < |r| + 1 ==> r[t - 1] == order[t];
        assert j >= |r| + 1;
        forall p | p in r
          ensures Before(scores, p, y)
        {
          var i :| 0 <= i < |r| && r[i] == p;
          assert order[i + 1] == p;
        }
      }
    }
  }

  /** A ranking is unique: two rankings of the same indices are equal. So
      `Rank` is what any stable descending sort of `enumerate(scores)` lists. */
  lemma {:induction false} RankedUnique(scores: seq<real>, a: seq<nat>, b: seq<nat>)
    requires Ranked(scores, a) && Ranked(scores, b)
    requires |a| == |b|
    requires forall y :: y in a <==> y in b
    ensures a == b
    decreases |a|
  {
    if |a| > 0 {
      assert b[0] in a;
      var i :| 0 <= i < |a| && a[i] == b[0];
      assert a[0] in b;
      var j :| 0 <= j < |b| && b[j] == a[0];
      assert i == 0 || j == 0;
      assert a[0] == b[0];
      forall y | y in a[1..]
        ensures y in b[1..]
      {
        var i :| 1 <= i < |a| && a[i] == y;
        assert y in b;
        var j :| 0 <= j < |b| && b[j] == y;
        assert Before(scores, a[0], a[i]);
        assert j != 0;
      }
      forall y | y in b[1..]
        ensures y in a[1..]
      {
        var j :| 1 <= j < |b| && b[j] == y;
        assert y in a;
        var i :| 0 <= i < |a| && a[i] == y;
        assert Before(scores, b[0], b[j]);
        assert i != 0;
      }
      RankedUnique(scores, a[1..], b[1..]);
      assert a == [a[0]] + a[1..];
      assert b == [b[0]] + b[1..];
    }
  }

  /** The slice `recommend` takes agrees with positions 1 to 5 of any stable
      descending sort of the indices. */
  lemma TopFiveOfAnyStableSort(scores: seq<real>, order: seq<nat>)
    requires Ranked(scores, order)
    requires |order| == |scores|
    requires forall y: nat :: y in order <==> y < |scores|
    ensures TopFive(scores) == Slice(order, 1, 6)
  {
    RankedUnique(scores, order, Rank(scores));
  }

  /** The indices listed ahead of `k`. */
  function Ahead(scores: seq<real>, k: nat): set<nat>
    requires k < |scores|
  {
    set j: nat | j < |scores| && Before(scores, j, k)
  }

  /** The indices listed in `xs`. */
  function Elements(xs: seq<nat>): set<nat> {
    set x | x in xs
  }

  /** A sequence without repeats has as many distinct elements as entries. */
  lemma {:induction false} DistinctCard(xs: seq<nat>)
    requires forall i, j :: 0 <= i < j < |xs| ==> xs[i] != xs[j]
    ensures |Elements(xs)| == |xs|
    decreases |xs|
  {
    if |xs| > 0 {
      var rest := xs[1..];
      DistinctCard(rest);
      var tail := Elements(rest);
      assert Elements(xs) == tail + {xs[0]};
      forall x | x in tail
        ensures x != xs[0]
      {
        var i :| 0 <= i < |rest| && rest[i] == x;
        assert xs[i + 1] == x;
      }
      assert |tail + {xs[0]}| == |tail| + 1;
    }
  }

  /** The place of an index in a ranking is the number of indices ahead of it. */
  lemma PlaceIsCountAhead(scores: seq<real>, order: seq<nat>, p: nat)
    requires Ranked(scores, order)
    requires forall y: nat :: y in order <==> y < |scores|
    requires p < |order|
    ensures |Ahead(scores, order[p])| == p
  {
    var k := order[p];
    var prefix := order[..p];
    forall j: nat | j in Ahead(scores, k)
      ensures j in prefix
    {
      assert j in order;
      var q :| 0 <= q < |order| && order[q] == j;
      assert q < p;
      assert prefix[q] == j;
    }
    forall j | j in prefix
      ensures j in Ahead(scores, k)
    {
      var q :| 0 <= q < p && prefix[q] == j;
      assert Before(scores, order[q], order[p]);
    }
    assert Elements(prefix) == Ahead(scores, k);
    DistinctCard(prefix);
  }

  /** `recommend` returns an index exactly when one to five indices rank
      ahead of it. The queried movie itself is among the results whenever
      some movie is ranked ahead of it and no more than five are. */
  lemma ReturnedIffOneToFiveAhead(scores: seq<real>, k: nat)
    requires k < |scores|
    ensures k in TopFive(scores) <==> 1 <= |Ahead(scores, k)| <= 5
  {
    var order := Rank(scores);
    var r := TopFive(scores);
    assert r == Slice(order, 1, 6);
    assert k in order;
    var p :| 0 <= p < |order| && order[p] == k;
    PlaceIsCountAhead(scores, order, p);
    if k in r {
      var i :| 0 <= i < |r| && r[i] == k;
      assert order[1 + i] == k;
      assert 1 + i == p;
    }
    if 1 <= p <= 5 {
      assert r[p - 1] == k;
    }
  }

  /** When the queried row scores itself strictly above every other movie,
      it is not among the results. */
  lemma StrictSelfMatchIsExcluded(scores: seq<real>, k: nat)
    requires k < |scores|
    requires forall j :: 0 <= j < |scores| && j != k ==> scores[j] < scores[k]
    ensures k !in TopFive(scores)
  {
    assert IsLeader(scores, k);
  }
}
