/** The complete distance graph over the family (Graph.cs): nodes, an adjacency list of
    weighted edges, the build step, and the pair scans behind the statistics view. */
module Distances {
  import opened Wrappers
  import opened People

  /** DistanceCalculator.CalculateDistance(lat1, lon1, lat2, lon2): the Haversine distance
      in kilometres. Its trigonometry is not modelled; the graph is given the function. */
  type Metric = (real, real, real, real) -> real

  /** double.MaxValue, exactly. */
  const MaxDouble: real := 179769313486231570814527423731704356798070567525844996598917476803157260780028538760589558632766878171540458953514382464234321326889464182768467546703537516986049910576551282076245490090389328944075868508455133942304583236903222948165808559332123348274797826204144723168738177180919299881250404026184124858368.0

  /** The weight between two residences. */
  function Dist(dist: Metric, p: Person, q: Person): real
  {
    dist(p.latitude, p.longitude, q.latitude, q.longitude)
  }

  /** Graph.cs's Edge: the target id and the weight in km. */
  datatype Edge = Edge(toId: string, weight: real)

  /** The (Person, Person, double) tuple of GetFarthestPair and GetClosestPair. */
  datatype PairResult = PairResult(first: Option<Person>, second: Option<Person>, distance: real)

  /** `nodes.Values.ToList()`: the records of `keys`, in that order. */
  function Values(keys: seq<string>, m: map<string, Person>): (ps: seq<Person>)
    requires forall k :: k in keys ==> k in m
    ensures |ps| == |keys| && forall i :: 0 <= i < |keys| ==> ps[i] == m[keys[i]]
  {
    seq(|keys|, i requires 0 <= i < |keys| => m[keys[i]])
  }

  // ---------------------------------------------------------------------------------------
  // The pairs i < j of a person list, visited row by row as the scans do.

  function D(dist: Metric, ps: seq<Person>, i: int, j: int): real
    requires 0 <= i < |ps| && 0 <= j < |ps|
  {
    Dist(dist, ps[i], ps[j])
  }

  /** Pair (a, b) is visited before pair (i, j). */
  predicate LexBefore(a: int, b: int, i: int, j: int)
  {
    a < i || (a == i && b < j)
  }

  /** GetFarthestPair's promise: a distance no pair exceeds, (null, null, 0) when no pair
      is farther apart than 0, otherwise the first pair in scan order at that distance. */
  ghost predicate IsFarthest(dist: Metric, ps: seq<Person>, r: PairResult)
  {
    && r.distance >= 0.0
    && (forall a, b :: 0 <= a < b < |ps| ==> D(dist, ps, a, b) <= r.distance)
    && (r.first.None? ==> r == PairResult(None, None, 0.0))
    && (r.first.Some? ==>
          exists a, b :: 0 <= a < b < |ps| && r == PairResult(Some(ps[a]), Some(ps[b]), D(dist, ps, a, b))
                         && D(dist, ps, a, b) > 0.0
                         && forall a', b' :: 0 <= a' < b' < |ps| && LexBefore(a', b', a, b) ==>
                                              D(dist, ps, a', b') < D(dist, ps, a, b))
  }

  /** GetClosestPair's promise: a distance no pair undercuts, (null, null, double.MaxValue)
      when no pair is closer than that sentinel, otherwise the first pair in scan order at
      that distance. */
  ghost predicate IsClosest(dist: Metric, ps: seq<Person>, r: PairResult)
  {
    && r.distance <= MaxDouble
    && (forall a, b :: 0 <= a < b < |ps| ==> r.distance <= D(dist, ps, a, b))
    && (r.first.None? ==> r == PairResult(None, None, MaxDouble))
    && (r.first.Some? ==>
          exists a, b :: 0 <= a < b < |ps| && r == PairResult(Some(ps[a]), Some(ps[b]), D(dist, ps, a, b))
                         && D(dist, ps, a, b) < MaxDouble
                         && forall a', b' :: 0 <= a' < b' < |ps| && LexBefore(a', b', a, b) ==>
                                              D(dist, ps, a, b) < D(dist, ps, a', b'))
  }

  /** The farthest scan after visiting the pairs before (i, j); (bi, bj) is its current pair. */
  ghost predicate FarthestSoFar(dist: Metric, ps: seq<Person>, i: int, j: int, r: PairResult, bi: int, bj: int)
  {
    && r.distance >= 0.0
    && (forall a, b :: 0 <= a < b < |ps| && LexBefore(a, b, i, j) ==> D(dist, ps, a, b) <= r.distance)
    && (r.first.None? ==> r == PairResult(None, None, 0.0))
    && (r.first.Some? ==>
          && 0 <= bi < bj < |ps| && LexBefore(bi, bj, i, j)
          && r == PairResult(Some(ps[bi]), Some(ps[bj]), D(dist, ps, bi, bj))
          && D(dist, ps, bi, bj) > 0.0
          && forall a, b :: 0 <= a < b < |ps| && LexBefore(a, b, bi, bj) ==>
                              D(dist, ps, a, b) < D(dist, ps, bi, bj))
  }

  /** The closest scan after visiting the pairs before (i, j). */
  ghost predicate ClosestSoFar(dist: Metric, ps: seq<Person>, i: int, j: int, r: PairResult, bi: int, bj: int)
  {
    && r.distance <= MaxDouble
    && (forall a, b :: 0 <= a < b < |ps| && LexBefore(a, b, i, j) ==> r.distance <= D(dist, ps, a, b))
    && (r.first.None? ==> r == PairResult(None, None, MaxDouble))
    && (r.first.Some? ==>
          && 0 <= bi < bj < |ps| && LexBefore(bi, bj, i, j)
          && r == PairResult(Some(ps[bi]), Some(ps[bj]), D(dist, ps, bi, bj))
          && D(dist, ps, bi, bj) < MaxDouble
          && forall a, b :: 0 <= a < b < |ps| && LexBefore(a, b, bi, bj) ==>
                              D(dist, ps, bi, bj) < D(dist, ps, a, b))
  }

  /** One step of the farthest scan: pair (i, j) replaces the current pair only when
      strictly farther. */
  lemma FarthestStep(dist: Metric, ps: seq<Person>, i: int, j: int, r: PairResult, bi: int, bj: int)
    requires 0 <= i < j < |ps| && FarthestSoFar(dist, ps, i, j, r, bi, bj)
    ensures D(dist, ps, i, j) > r.distance ==>
              FarthestSoFar(dist, ps, i, j + 1, PairResult(Some(ps[i]), Some(ps[j]), D(dist, ps, i, j)), i, j)
    ensures D(dist, ps, i, j) <= r.distance ==> FarthestSoFar(dist, ps, i, j + 1, r, bi, bj)
  {
  }

  /** Moving from the end of row i to row i + 1 visits no new pair. */
  lemma FarthestRow(dist: Metric, ps: seq<Person>, i: int, r: PairResult, bi: int, bj: int)
    requires 0 <= i < |ps|
    ensures FarthestSoFar(dist, ps, i, 0, r, bi, bj) ==> FarthestSoFar(dist, ps, i, i + 1, r, bi, bj)
    ensures FarthestSoFar(dist, ps, i, |ps|, r, bi, bj) ==> FarthestSoFar(dist, ps, i + 1, 0, r, bi, bj)
  {
  }

  /** After the last row the scan satisfies IsFarthest. */
  lemma FarthestDone(dist: Metric, ps: seq<Person>, r: PairResult, bi: int, bj: int)
    requires FarthestSoFar(dist, ps, |ps|, 0, r, bi, bj)
    ensures IsFarthest(dist, ps, r)
  {
    if r.first.Some? {
      assert 0 <= bi < bj < |ps| && r == PairResult(Some(ps[bi]), Some(ps[bj]), D(dist, ps, bi, bj));
    }
  }

  lemma ClosestStep(dist: Metric, ps: seq<Person>, i: int, j: int, r: PairResult, bi: int, bj: int)
    requires 0 <= i < j < |ps| && ClosestSoFar(dist, ps, i, j, r, bi, bj)
    ensures D(dist, ps, i, j) < r.distance ==>
              ClosestSoFar(dist, ps, i, j + 1, PairResult(Some(ps[i]), Some(ps[j]), D(dist, ps, i, j)), i, j)
    ensures D(dist, ps, i, j) >= r.distance ==> ClosestSoFar(dist, ps, i, j + 1, r, bi, bj)
  {
  }

  lemma ClosestRow(dist: Metric, ps: seq<Person>, i: int, r: PairResult, bi: int, bj: int)
    requires 0 <= i < |ps|
    ensures ClosestSoFar(dist, ps, i, 0, r, bi, bj) ==> ClosestSoFar(dist, ps, i, i + 1, r, bi, bj)
    ensures ClosestSoFar(dist, ps, i, |ps|, r, bi, bj) ==> ClosestSoFar(dist, ps, i + 1, 0, r, bi, bj)
  {
  }

  lemma ClosestDone(dist: Metric, ps: seq<Person>, r: PairResult, bi: int, bj: int)
    requires ClosestSoFar(dist, ps, |ps|, 0, r, bi, bj)
    ensures IsClosest(dist, ps, r)
  {
    if r.first.Some? {
      assert 0 <= bi < bj < |ps| && r == PairResult(Some(ps[bi]), Some(ps[bj]), D(dist, ps, bi, bj));
    }
  }

  /** Sum of the distances of row i, pairs (i, i+1) .. (i, j-1). */
  function RowSum(dist: Metric, ps: seq<Person>, i: nat, j: nat): real
    requires i < |ps| && j <= |ps|
    decreases j
  {
    if j <= i + 1 then 0.0 else RowSum(dist, ps, i, j - 1) + D(dist, ps, i, j - 1)
  }

  /** Sum of the distances of all pairs in rows 0 .. i-1. */
  function SumRows(dist: Metric, ps: seq<Person>, i: nat): real
    requires i <= |ps|
  {
    if i == 0 then 0.0 else SumRows(dist, ps, i - 1) + RowSum(dist, ps, i - 1, |ps|)
  }

  /** Number of pairs in rows 0 .. i-1 of n persons. */
  function CountRows(n: nat, i: nat): nat
    requires i <= n
  {
    if i == 0 then 0 else CountRows(n, i - 1) + (n - i)
  }

  /** The pair count of the scans is n(n-1)/2. */
  lemma {:induction false} CountRowsClosedForm(n: nat, i: nat)
    requires i <= n
    ensures 2 * CountRows(n, i) == i * (2 * n - i - 1)
  {
    if i > 0 {
      CountRowsClosedForm(n, i - 1);
      calc {
        2 * CountRows(n, i);
        2 * CountRows(n, i - 1) + 2 * (n - i);
        (i - 1) * (2 * n - (i - 1) - 1) + 2 * (n - i);
        { assert (i - 1) * (2 * n - i) == i * (2 * n - i) - (2 * n - i); }
        i * (2 * n - i - 1);
      }
    }
  }

  /** GetAverageDistance's value: the mean over the n(n-1)/2 pairs, 0 below two persons. */
  function AverageOf(dist: Metric, ps: seq<Person>): real
  {
    if |ps| < 2 then 0.0
    else
      CountRowsPositive(|ps|);
      SumRows(dist, ps, |ps|) / (CountRows(|ps|, |ps|) as real)
  }

  lemma CountRowsPositive(n: nat)
    requires n >= 2
    ensures CountRows(n, n) > 0
  {
    CountRowsClosedForm(n, n);
    assert n * (n - 1) > 0;
  }

  lemma {:induction false} RowSumBounds(dist: Metric, ps: seq<Person>, i: nat, j: nat, lo: real, hi: real)
    requires i < |ps| && j <= |ps|
    requires forall b :: i < b < |ps| ==> lo <= D(dist, ps, i, b) <= hi
    ensures var c := if j <= i + 1 then 0 else j - i - 1;
            lo * (c as real) <= RowSum(dist, ps, i, j) <= hi * (c as real)
    decreases j
  {
    if j > i + 1 {
      RowSumBounds(dist, ps, i, j - 1, lo, hi);
    }
  }

  lemma {:induction false} SumRowsBounds(dist: Metric, ps: seq<Person>, i: nat, lo: real, hi: real)
    requires i <= |ps|
    requires forall a, b :: 0 <= a < b < |ps| ==> lo <= D(dist, ps, a, b) <= hi
    ensures lo * (CountRows(|ps|, i) as real) <= SumRows(dist, ps, i) <= hi * (CountRows(|ps|, i) as real)
  {
    if i > 0 {
      SumRowsBounds(dist, ps, i - 1, lo, hi);
      RowSumBounds(dist, ps, i - 1, |ps|, lo, hi);
    }
  }

  lemma QuotientBetween(lo: real, hi: real, s: real, c: real)
    requires c > 0.0 && lo * c <= s <= hi * c
    ensures lo <= s / c <= hi
  {
  }

  /** The average of distances that all lie in [lo, hi] lies in [lo, hi]. */
  lemma AverageBetween(dist: Metric, ps: seq<Person>, lo: real, hi: real)
    requires |ps| >= 2
    requires forall a, b :: 0 <= a < b < |ps| ==> lo <= D(dist, ps, a, b) <= hi
    ensures lo <= AverageOf(dist, ps) <= hi
  {
    var n := |ps|;
    SumRowsBounds(dist, ps, n, lo, hi);
    CountRowsPositive(n);
    QuotientBetween(lo, hi, SumRows(dist, ps, n), CountRows(n, n) as real);
  }

  /** With at least two persons: closest distance <= average distance <= farthest distance. */
  lemma AggregatesOrdered(dist: Metric, ps: seq<Person>, far: PairResult, close: PairResult)
    requires |ps| >= 2
    requires IsFarthest(dist, ps, far) && IsClosest(dist, ps, close)
    ensures close.distance <= AverageOf(dist, ps) <= far.distance
  {
    AverageBetween(dist, ps, close.distance, far.distance);
  }

  /** With exactly two persons at a distance below double.MaxValue: the closest pair is that
      pair, the average is its distance, and so is the farthest distance; the farthest pair
      is the same pair unless the two share a location (then it is (null, null, 0)). */
  lemma TwoPersonsDegenerate(dist: Metric, ps: seq<Person>, far: PairResult, close: PairResult)
    requires |ps| == 2 && 0.0 <= D(dist, ps, 0, 1) < MaxDouble
    requires IsFarthest(dist, ps, far) && IsClosest(dist, ps, close)
    ensures far.distance == close.distance == AverageOf(dist, ps) == D(dist, ps, 0, 1)
    ensures close == PairResult(Some(ps[0]), Some(ps[1]), D(dist, ps, 0, 1))
    ensures D(dist, ps, 0, 1) > 0.0 ==> far == close
  {
    assert CountRows(2, 2) == 1;
    assert RowSum(dist, ps, 0, 2) == D(dist, ps, 0, 1);
    assert SumRows(dist, ps, 1) == D(dist, ps, 0, 1);
    assert SumRows(dist, ps, 2) == SumRows(dist, ps, 1) + RowSum(dist, ps, 1, 2);
    assert AverageOf(dist, ps) == D(dist, ps, 0, 1);
  }

  /** IsFarthest leaves no choice: the scan's answer is the only one. */
  lemma FarthestUnique(dist: Metric, ps: seq<Person>, r1: PairResult, r2: PairResult)
    requires IsFarthest(dist, ps, r1) && IsFarthest(dist, ps, r2)
    ensures r1 == r2
  {
    if r1.first.Some? && r2.first.Some? {
      var a1, b1 :| 0 <= a1 < b1 < |ps| && r1 == PairResult(Some(ps[a1]), Some(ps[b1]), D(dist, ps, a1, b1))
                     && D(dist, ps, a1, b1) > 0.0
                     && forall a', b' :: 0 <= a' < b' < |ps| && LexBefore(a', b', a1, b1) ==>
                                          D(dist, ps, a', b') < D(dist, ps, a1, b1);
      var a2, b2 :| 0 <= a2 < b2 < |ps| && r2 == PairResult(Some(ps[a2]), Some(ps[b2]), D(dist, ps, a2, b2))
                     && D(dist, ps, a2, b2) > 0.0
                     && forall a', b' :: 0 <= a' < b' < |ps| && LexBefore(a', b', a2, b2) ==>
                                          D(dist, ps, a', b') < D(dist, ps, a2, b2);
      assert D(dist, ps, a1, b1) <= r2.distance && D(dist, ps, a2, b2) <= r1.distance;
      assert !LexBefore(a1, b1, a2, b2) && !LexBefore(a2, b2, a1, b1);
    }
  }

  /** IsClosest leaves no choice either. */
  lemma ClosestUnique(dist: Metric, ps: seq<Person>, r1: PairResult, r2: PairResult)
    requires IsClosest(dist, ps, r1) && IsClosest(dist, ps, r2)
    ensures r1 == r2
  {
    if r1.first.Some? && r2.first.Some? {
      var a1, b1 :| 0 <= a1 < b1 < |ps| && r1 == PairResult(Some(ps[a1]), Some(ps[b1]), D(dist, ps, a1, b1))
                     && D(dist, ps, a1, b1) < MaxDouble
                     && forall a', b' :: 0 <= a' < b' < |ps| && LexBefore(a', b', a1, b1) ==>
                                          D(dist, ps, a1, b1) < D(dist, ps, a', b');
      var a2, b2 :| 0 <= a2 < b2 < |ps| && r2 == PairResult(Some(ps[a2]), Some(ps[b2]), D(dist, ps, a2, b2))
                     && D(dist, ps, a2, b2) < MaxDouble
                     && forall a', b' :: 0 <= a' < b' < |ps| && LexBefore(a', b', a2, b2) ==>
                                          D(dist, ps, a2, b2) < D(dist, ps, a', b');
      assert r2.distance <= D(dist, ps, a1, b1) && r1.distance <= D(dist, ps, a2, b2);
      assert !LexBefore(a1, b1, a2, b2) && !LexBefore(a2, b2, a1, b1);
    }
  }

  /** With two or more persons whose distances are all below the sentinel, which a geodesic
      metric guarantees, the closest pair is found. */
  lemma ClosestFound(dist: Metric, ps: seq<Person>, r: PairResult)
    requires |ps| >= 2 && D(dist, ps, 0, 1) < MaxDouble
    requires IsClosest(dist, ps, r)
    ensures r.first.Some? && r.second.Some?
  {
  }

  // ---------------------------------------------------------------------------------------
  // Edges.

  /** The edges BuildDistanceGraph appends for `p`: one per other person of `ps`, in order. */
  function OutEdges(dist: Metric, ps: seq<Person>, p: Person): seq<Edge>
  {
    if |ps| == 0 then []
    else
      var q := ps[|ps| - 1];
      OutEdges(dist, ps[..|ps| - 1], p) + (if p.id != q.id then [Edge(q.id, Dist(dist, p, q))] else [])
  }

  lemma OutEdgesExtend(dist: Metric, ps: seq<Person>, j: nat, p: Person)
    requires j < |ps|
    ensures OutEdges(dist, ps[..j + 1], p)
         == OutEdges(dist, ps[..j], p) + (if p.id != ps[j].id then [Edge(ps[j].id, Dist(dist, p, ps[j]))] else [])
  {
    assert ps[..j + 1][..j] == ps[..j];
  }

  function Targets(es: seq<Edge>): set<string>
  {
    set e | e in es :: e.toId
  }

  lemma TargetsAppend(a: seq<Edge>, b: seq<Edge>)
    ensures Targets(a + b) == Targets(a) + Targets(b)
  {
  }

  /** How many edges of `es` lead to `t`. */
  function CountTo(es: seq<Edge>, t: string): nat
  {
    if |es| == 0 then 0 else CountTo(es[..|es| - 1], t) + (if es[|es| - 1].toId == t then 1 else 0)
  }

  /** GetDistancesFrom's dictionary: each edge in turn writes its weight under its target,
      so a later edge to the same target overwrites an earlier one. */
  function EdgeMap(es: seq<Edge>): (m: map<string, real>)
    ensures m.Keys == Targets(es)
  {
    if |es| == 0 then map[]
    else
      var e := es[|es| - 1];
      assert es == es[..|es| - 1] + [e];
      EdgeMap(es[..|es| - 1])[e.toId := e.weight]
  }

  /** No key occurs twice in `s`; stated from the back so that a context holding it does not
      compare every pair of positions. */
  predicate NoDuplicates(s: seq<string>)
    decreases |s|
  {
    |s| == 0 || (s[|s| - 1] !in s[..|s| - 1] && NoDuplicates(s[..|s| - 1]))
  }

  lemma {:induction false} NoDuplicatesDistinct(s: seq<string>)
    requires NoDuplicates(s)
    ensures forall i, j :: 0 <= i < j < |s| ==> s[i] != s[j]
    decreases |s|
  {
    if |s| > 0 {
      var init := s[..|s| - 1];
      NoDuplicatesDistinct(init);
      forall i, j | 0 <= i < j < |s| ensures s[i] != s[j] {
        if j < |s| - 1 {
          assert s[i] == init[i] && s[j] == init[j];
        } else {
          assert s[i] in init;
        }
      }
    }
  }

  lemma NoDuplicatesAppend(s: seq<string>, x: string)
    requires NoDuplicates(s) && x !in s
    ensures NoDuplicates(s + [x])
  {
    assert (s + [x])[..|s|] == s;
  }

  predicate DistinctIds(ps: seq<Person>)
  {
    forall i, j :: 0 <= i < j < |ps| ==> ps[i].id != ps[j].id
  }

  /** The ids of a person list, in order. */
  function IdsOf(ps: seq<Person>): (ids: seq<string>)
    ensures |ids| == |ps| && forall i :: 0 <= i < |ps| ==> ids[i] == ps[i].id
  {
    if |ps| == 0 then [] else IdsOf(ps[..|ps| - 1]) + [ps[|ps| - 1].id]
  }

  /** Every edge of OutEdges leads to another person of the list, weighted with the distance. */
  lemma {:induction false} OutEdgesSound(dist: Metric, ps: seq<Person>, p: Person)
    ensures forall e :: e in OutEdges(dist, ps, p) ==>
              e.toId != p.id && exists j :: 0 <= j < |ps| && ps[j].id == e.toId && e.weight == Dist(dist, p, ps[j])
  {
    if |ps| > 0 {
      var init, q := ps[..|ps| - 1], ps[|ps| - 1];
      OutEdgesSound(dist, init, p);
      forall e | e in OutEdges(dist, ps, p)
        ensures e.toId != p.id && exists j :: 0 <= j < |ps| && ps[j].id == e.toId && e.weight == Dist(dist, p, ps[j])
      {
        if e in OutEdges(dist, init, p) {
          var j :| 0 <= j < |init| && init[j].id == e.toId && e.weight == Dist(dist, p, init[j]);
          assert ps[j] == init[j];
        } else {
          assert ps[|ps| - 1] == q;
        }
      }
    }
  }

  /** OutEdges reaches every other id of the list. */
  lemma {:induction false} OutEdgesTargets(dist: Metric, ps: seq<Person>, p: Person)
    ensures Targets(OutEdges(dist, ps, p)) == (set t | t in IdsOf(ps)) - {p.id}
  {
    if |ps| > 0 {
      var init, q := ps[..|ps| - 1], ps[|ps| - 1];
      OutEdgesTargets(dist, init, p);
      assert IdsOf(ps) == IdsOf(init) + [q.id];
      assert (set t | t in IdsOf(ps)) == (set t | t in IdsOf(init)) + {q.id};
      var tail := if p.id != q.id then [Edge(q.id, Dist(dist, p, q))] else [];
      assert Targets(OutEdges(dist, init, p) + tail) == Targets(OutEdges(dist, init, p)) + Targets(tail);
    }
  }

  /** On distinct ids, OutEdges leads exactly once to each other id and never to `p` itself. */
  lemma {:induction false} OutEdgesCount(dist: Metric, ps: seq<Person>, p: Person, t: string)
    requires DistinctIds(ps)
    ensures CountTo(OutEdges(dist, ps, p), t) == if t != p.id && t in IdsOf(ps) then 1 else 0
  {
    if |ps| > 0 {
      var init, q := ps[..|ps| - 1], ps[|ps| - 1];
      assert DistinctIds(init);
      OutEdgesCount(dist, init, p, t);
      var es := OutEdges(dist, ps, p);
      var tail := if p.id != q.id then [Edge(q.id, Dist(dist, p, q))] else [];
      assert IdsOf(ps) == IdsOf(init) + [q.id];
      assert q.id !in IdsOf(init);
      assert es == OutEdges(dist, init, p) + tail;
      if tail != [] {
        assert es[..|es| - 1] == OutEdges(dist, init, p);
        assert es[|es| - 1].toId == q.id;
      } else {
        assert es == OutEdges(dist, init, p);
      }
    }
  }

  /** When every edge's weight is the distance to its target, the dictionary holds exactly
      that distance for each target, however many duplicate edges there are. */
  lemma {:induction false} EdgeMapOfConsistent(es: seq<Edge>, w: map<string, real>)
    requires forall e :: e in es ==> e.toId in w && e.weight == w[e.toId]
    ensures EdgeMap(es) == map t | t in Targets(es) :: w[t]
  {
    if |es| > 0 {
      var init := es[..|es| - 1];
      assert forall e :: e in init ==> e in es;
      EdgeMapOfConsistent(init, w);
      assert es == init + [es[|es| - 1]];
    }
  }

  /** A dictionary built from two edge lists in turn: later entries win. */
  lemma {:induction false} EdgeMapAppend(a: seq<Edge>, b: seq<Edge>)
    ensures EdgeMap(a + b) == EdgeMap(a) + EdgeMap(b)
    decreases |b|
  {
    if |b| == 0 {
      assert a + b == a;
    } else {
      var init := b[..|b| - 1];
      assert (a + b)[..|a + b| - 1] == a + init;
      EdgeMapAppend(a, init);
    }
  }

  /** Rebuilding appends a second copy of the same edges; to GetDistancesFrom that is
      invisible. */
  lemma EdgeMapDuplicated(es: seq<Edge>)
    ensures EdgeMap(es + es) == EdgeMap(es)
  {
    EdgeMapAppend(es, es);
  }

  /** The lists after BuildDistanceGraph's inner loop has run for `ps[i]`: its out-edges
      appended to its list when it has one. */
  function AddRow(dist: Metric, adj: map<string, seq<Edge>>, ps: seq<Person>, i: nat): map<string, seq<Edge>>
    requires i < |ps|
  {
    var key := ps[i].id;
    if key in adj then adj[key := adj[key] + OutEdges(dist, ps, ps[i])] else adj
  }

  /** The lists after the outer loop has run for the first `i` persons. */
  ghost function BuiltRows(dist: Metric, adj: map<string, seq<Edge>>, ps: seq<Person>, i: nat): map<string, seq<Edge>>
    requires i <= |ps|
  {
    if i == 0 then adj else AddRow(dist, BuiltRows(dist, adj, ps, i - 1), ps, i - 1)
  }

  lemma {:induction false} BuiltRowsShape(dist: Metric, adj: map<string, seq<Edge>>, ps: seq<Person>, i: nat)
    requires i <= |ps| && DistinctIds(ps) && forall a :: 0 <= a < |ps| ==> ps[a].id in adj
    ensures BuiltRows(dist, adj, ps, i).Keys == adj.Keys
    ensures forall a :: 0 <= a < i ==>
              BuiltRows(dist, adj, ps, i)[ps[a].id] == adj[ps[a].id] + OutEdges(dist, ps, ps[a])
    ensures forall a :: i <= a < |ps| ==> BuiltRows(dist, adj, ps, i)[ps[a].id] == adj[ps[a].id]
  {
    if i > 0 {
      BuiltRowsShape(dist, adj, ps, i - 1);
      forall a | 0 <= a < |ps| && a != i - 1
        ensures ps[a].id != ps[i - 1].id
      {
        if a < i - 1 {
          assert ps[a].id != ps[i - 1].id;
        } else {
          assert ps[i - 1].id != ps[a].id;
        }
      }
    }
  }

  /** Each id in `order` once, the nodes keyed by their ids and enumerated by `order`, and one
      edge list per node. */
  ghost predicate Indexed(nodes: map<string, Person>, order: seq<string>, adj: map<string, seq<Edge>>)
  {
    && NoDuplicates(order)
    && (forall k :: k in nodes <==> k in order)
    && adj.Keys == nodes.Keys
    && (forall k :: k in nodes ==> nodes[k].id == k)
  }

  /** Every edge of `adj` leads from a node to another node, weighted with their distance. */
  ghost predicate Consistent(dist: Metric, nodes: map<string, Person>, adj: map<string, seq<Edge>>)
  {
    forall k, e :: k in adj && e in adj[k] ==>
      k in nodes && e.toId in nodes && e.toId != k && e.weight == Dist(dist, nodes[k], nodes[e.toId])
  }

  lemma {:induction false} CountToAppend(a: seq<Edge>, b: seq<Edge>, t: string)
    ensures CountTo(a + b, t) == CountTo(a, t) + CountTo(b, t)
    decreases |b|
  {
    if |b| == 0 {
      assert a + b == a;
    } else {
      assert (a + b)[..|a + b| - 1] == a + b[..|b| - 1];
      CountToAppend(a, b[..|b| - 1], t);
    }
  }

  // ---------------------------------------------------------------------------------------

  /** The scan of Graph.GetFarthestPair: visits the pairs i < j in list order and keeps
      the first strictly larger distance, starting from 0 with no pair. */
  method FarthestPair(dist: Metric, personList: seq<Person>) returns (r: PairResult)
    ensures IsFarthest(dist, personList, r)
  {
    var n := |personList|;
    var maxDistance := 0.0;
    var person1: Option<Person> := None;
    var person2: Option<Person> := None;
    ghost var bi, bj := 0, 0;
    var i := 0;
    while i < n
      invariant 0 <= i <= n
      invariant FarthestSoFar(dist, personList, i, 0, PairResult(person1, person2, maxDistance), bi, bj)
    {
      FarthestRow(dist, personList, i, PairResult(person1, person2, maxDistance), bi, bj);
      var j := i + 1;
      while j < n
        invariant i + 1 <= j <= n
        invariant FarthestSoFar(dist, personList, i, j, PairResult(person1, person2, maxDistance), bi, bj)
      {
        FarthestStep(dist, personList, i, j, PairResult(person1, person2, maxDistance), bi, bj);
        var distance := Dist(dist, personList[i], personList[j]);
        if distance > maxDistance {
          maxDistance := distance;
          person1 := Some(personList[i]);
          person2 := Some(personList[j]);
          bi, bj := i, j;
        }
        j := j + 1;
      }
      FarthestRow(dist, personList, i, PairResult(person1, person2, maxDistance), bi, bj);
      i := i + 1;
    }
    FarthestDone(dist, personList, PairResult(person1, person2, maxDistance), bi, bj);
    r := PairResult(person1, person2, maxDistance);
  }

  /** The scan of Graph.GetClosestPair: the same visit, keeping the first strictly smaller
      distance, starting from double.MaxValue with no pair. */
  method ClosestPair(dist: Metric, personList: seq<Person>) returns (r: PairResult)
    ensures IsClosest(dist, personList, r)
  {
    var n := |personList|;
    var minDistance := MaxDouble;
    var person1: Option<Person> := None;
    var person2: Option<Person> := None;
    ghost var bi, bj := 0, 0;
    var i := 0;
    while i < n
      invariant 0 <= i <= n
      invariant ClosestSoFar(dist, personList, i, 0, PairResult(person1, person2, minDistance), bi, bj)
    {
      ClosestRow(dist, personList, i, PairResult(person1, person2, minDistance), bi, bj);
      var j := i + 1;
      while j < n
        invariant i + 1 <= j <= n
        invariant ClosestSoFar(dist, personList, i, j, PairResult(person1, person2, minDistance), bi, bj)
      {
        ClosestStep(dist, personList, i, j, PairResult(person1, person2, minDistance), bi, bj);
        var distance := Dist(dist, personList[i], personList[j]);
        if distance < minDistance {
          minDistance := distance;
          person1 := Some(personList[i]);
          person2 := Some(personList[j]);
          bi, bj := i, j;
        }
        j := j + 1;
      }
      ClosestRow(dist, personList, i, PairResult(person1, person2, minDistance), bi, bj);
      i := i + 1;
    }
    ClosestDone(dist, personList, PairResult(person1, person2, minDistance), bi, bj);
    r := PairResult(person1, person2, minDistance);
  }

  /** The computation of Graph.GetAverageDistance: 0 below two persons, otherwise the total
      over the pairs i < j divided by their count. */
  method AverageDistance(dist: Metric, personList: seq<Person>) returns (average: real)
    ensures average == AverageOf(dist, personList)
  {
    var n := |personList|;
    if n < 2 {
      return 0.0;
    }
    var totalDistance := 0.0;
    var count := 0;
    var i := 0;
    while i < n
      invariant 0 <= i <= n
      invariant totalDistance == SumRows(dist, personList, i) && count == CountRows(n, i)
    {
      var j := i + 1;
      while j < n
        invariant i + 1 <= j <= n
        invariant totalDistance == SumRows(dist, personList, i) + RowSum(dist, personList, i, j)
        invariant count == CountRows(n, i) + (j - i - 1)
      {
        var distance := Dist(dist, personList[i], personList[j]);
        assert RowSum(dist, personList, i, j + 1) == RowSum(dist, personList, i, j) + distance;
        totalDistance := totalDistance + distance;
        count := count + 1;
        j := j + 1;
      }
      assert SumRows(dist, personList, i + 1) == SumRows(dist, personList, i) + RowSum(dist, personList, i, n);
      i := i + 1;
    }
    CountRowsPositive(n);
    average := if count > 0 then totalDistance / (count as real) else 0.0;
  }

  class Graph {
    /** The Haversine distance the graph weighs its edges with. */
    const dist: Metric
    var nodes: map<string, Person>
    /** Insertion order of `nodes`, the order Dictionary.Values enumerates them in. */
    var order: seq<string>
    var adjacency: map<string, seq<Edge>>

    ghost predicate Valid()
      reads this
    {
      Indexed(nodes, order, adjacency)
    }

    /** Every edge leads from a node to another node, weighted with their distance. */
    ghost predicate EdgesConsistent()
      reads this
    {
      Consistent(dist, nodes, adjacency)
    }

    /** Every node has an edge to every other node. */
    ghost predicate Complete()
      reads this
    {
      forall k :: k in adjacency ==> Targets(adjacency[k]) == nodes.Keys - {k}
    }

    /** GetAllPersons: the nodes in insertion order. */
    function GetAllPersons(): (ps: seq<Person>)
      reads this
      requires Valid()
      ensures |ps| == |order|
      ensures forall i :: 0 <= i < |ps| ==> ps[i].id == order[i] && ps[i] == nodes[order[i]]
    {
      Values(order, nodes)
    }

    /** No two nodes share an id. */
    lemma PersonsDistinct()
      requires Valid()
      ensures DistinctIds(GetAllPersons())
    {
      NoDuplicatesDistinct(order);
    }

    /** GetPerson: the node stored under `id`, or null. */
    function GetPerson(id: string): (r: Option<Person>)
      reads this
      ensures r.Some? <==> id in nodes
      ensures r.Some? ==> r.value == nodes[id]
    {
      if id in nodes then Some(nodes[id]) else None
    }

    constructor (dist: Metric)
      ensures this.dist == dist && Valid() && EdgesConsistent()
      ensures nodes == map[] && order == [] && adjacency == map[]
    {
      this.dist := dist;
      nodes := map[];
      order := [];
      adjacency := map[];
    }

    /** AddNode: a new id gets the person and an empty edge list; a known id changes nothing. */
    method AddNode(person: Person)
      requires Valid()
      modifies this
      ensures Valid()
      ensures old(person.id in nodes) ==>
                nodes == old(nodes) && order == old(order) && adjacency == old(adjacency)
      ensures old(person.id !in nodes) ==>
                && nodes == old(nodes)[person.id := person]
                && order == old(order) + [person.id]
                && adjacency == old(adjacency)[person.id := []]
      ensures old(EdgesConsistent()) ==> EdgesConsistent()
    {
      if person.id !in nodes {
        NoDuplicatesAppend(order, person.id);
        nodes := nodes[person.id := person];
        order := order + [person.id];
        adjacency := adjacency[person.id := []];
      }
    }

    /** AddEdge: appends one edge when `fromId` is a node, otherwise does nothing. */
    method AddEdge(fromId: string, toId: string, weight: real)
      modifies this`adjacency
      ensures adjacency.Keys == old(adjacency).Keys
      ensures old(Valid()) ==> Valid()
      ensures fromId in old(adjacency) ==> adjacency == old(adjacency)[fromId := old(adjacency)[fromId] + [Edge(toId, weight)]]
      ensures fromId !in old(adjacency) ==> adjacency == old(adjacency)
    {
      if fromId in adjacency {
        adjacency := adjacency[fromId := adjacency[fromId] + [Edge(toId, weight)]];
      }
    }

    /** BuildDistanceGraph: appends to each node's list one edge to every other node, in node
        order. On edges that were consistent the result is consistent and complete; on a
        graph whose lists were empty, each node has exactly one edge to every other node. */
    method BuildDistanceGraph()
      requires Valid()
      modifies this`adjacency
      ensures Valid() && adjacency.Keys == old(adjacency).Keys
      ensures forall k :: k in adjacency ==> adjacency[k] == old(adjacency)[k] + OutEdges(dist, GetAllPersons(), nodes[k])
      ensures old(EdgesConsistent()) ==> EdgesConsistent() && Complete()
      ensures (forall k :: k in old(adjacency) ==> old(adjacency)[k] == []) ==>
                forall k, t :: k in adjacency ==> CountTo(adjacency[k], t) == if t in nodes && t != k then 1 else 0
    {
      var personList := GetAllPersons();
      PersonsDistinct();
      AddAllEdges(personList);
      BuiltRowsShape(dist, old(adjacency), personList, |personList|);
      BuildShape(old(adjacency), personList);
      BuildConsistent(old(adjacency), personList);
      BuildCounts(old(adjacency), personList);
    }

    /** The two loops of BuildDistanceGraph: for each person of `personList` in turn, one
        edge to every person of the list with another id, in list order. */
    method AddAllEdges(personList: seq<Person>)
      modifies this`adjacency
      ensures adjacency == BuiltRows(dist, old(adjacency), personList, |personList|)
    {
      var n := |personList|;
      var i := 0;
      while i < n
        invariant 0 <= i <= n
        invariant adjacency == BuiltRows(dist, old(adjacency), personList, i)
      {
        ghost var before := adjacency;
        ghost var key := personList[i].id;
        ghost var row: seq<Edge> := [];
        if key in before {
          assert before[key] + row == before[key];
        }
        var j := 0;
        while j < n
          invariant 0 <= j <= n
          invariant row == OutEdges(dist, personList[..j], personList[i])
          invariant adjacency == if key in before then before[key := before[key] + row] else before
        {
          OutEdgesExtend(dist, personList, j, personList[i]);
          if personList[i].id != personList[j].id {
            var distance := Dist(dist, personList[i], personList[j]);
            ghost var e := Edge(personList[j].id, distance);
            AddEdge(personList[i].id, personList[j].id, distance);
            if key in before {
              assert before[key] + row + [e] == before[key] + (row + [e]);
            }
            row := row + [e];
          }
          j := j + 1;
        }
        assert personList[..n] == personList;
        i := i + 1;
      }
    }

    /** Once every node's list has had its row appended, each list is its old list followed
        by the node's out-edges. */
    lemma BuildShape(adj0: map<string, seq<Edge>>, personList: seq<Person>)
      requires Valid() && adj0.Keys == nodes.Keys && personList == GetAllPersons()
      requires forall a :: 0 <= a < |personList| ==>
                 adjacency[personList[a].id] == adj0[personList[a].id] + OutEdges(dist, personList, personList[a])
      ensures forall k :: k in adjacency ==> adjacency[k] == adj0[k] + OutEdges(dist, personList, nodes[k])
    {
      forall k | k in adjacency
        ensures adjacency[k] == adj0[k] + OutEdges(dist, personList, nodes[k])
      {
        var a := IndexOf(k);
      }
    }

    lemma IndexOf(k: string) returns (a: nat)
      requires Valid() && k in nodes
      ensures a < |order| && order[a] == k && GetAllPersons()[a] == nodes[k]
    {
      a :| 0 <= a < |order| && order[a] == k;
    }

    /** Appending the out-edges to consistent lists gives consistent, complete lists. */
    lemma BuildConsistent(adj0: map<string, seq<Edge>>, personList: seq<Person>)
      requires Valid() && adj0.Keys == adjacency.Keys && personList == GetAllPersons()
      requires forall k :: k in adjacency ==> adjacency[k] == adj0[k] + OutEdges(dist, personList, nodes[k])
      ensures Consistent(dist, nodes, adj0) ==> EdgesConsistent() && Complete()
    {
      if Consistent(dist, nodes, adj0) {
        IdsCoverNodes(personList);
        forall k | k in adjacency
          ensures Targets(adjacency[k]) == nodes.Keys - {k}
          ensures forall e :: e in adjacency[k] ==>
                    e.toId in nodes && e.toId != k && e.weight == Dist(dist, nodes[k], nodes[e.toId])
        {
          BuiltListAt(adj0, personList, k);
        }
      }
    }

    /** One node's list after the build: its consistent old edges followed by its out-edges. */
    lemma BuiltListAt(adj0: map<string, seq<Edge>>, personList: seq<Person>, k: string)
      requires Valid() && personList == GetAllPersons() && k in adjacency && k in adj0
      requires (set t | t in IdsOf(personList)) == nodes.Keys
      requires forall e :: e in adj0[k] ==>
                 e.toId in nodes && e.toId != k && e.weight == Dist(dist, nodes[k], nodes[e.toId])
      requires adjacency[k] == adj0[k] + OutEdges(dist, personList, nodes[k])
      ensures Targets(adjacency[k]) == nodes.Keys - {k}
      ensures forall e :: e in adjacency[k] ==>
                e.toId in nodes && e.toId != k && e.weight == Dist(dist, nodes[k], nodes[e.toId])
    {
      var es := OutEdges(dist, personList, nodes[k]);
      OutEdgesTargets(dist, personList, nodes[k]);
      OutEdgesSoundAt(personList, k);
      TargetsAppend(adj0[k], es);
    }

    /** Appending the out-edges to empty lists gives one edge to every other node. */
    lemma BuildCounts(adj0: map<string, seq<Edge>>, personList: seq<Person>)
      requires Valid() && adj0.Keys == adjacency.Keys && personList == GetAllPersons()
      requires forall k :: k in adjacency ==> adjacency[k] == adj0[k] + OutEdges(dist, personList, nodes[k])
      ensures (forall k :: k in adj0 ==> adj0[k] == []) ==>
                forall k, t :: k in adjacency ==> CountTo(adjacency[k], t) == if t in nodes && t != k then 1 else 0
    {
      if forall k :: k in adj0 ==> adj0[k] == [] {
        IdsCoverNodes(personList);
        PersonsDistinct();
        forall k, t | k in adjacency
          ensures CountTo(adjacency[k], t) == if t in nodes && t != k then 1 else 0
        {
          assert adj0[k] + OutEdges(dist, personList, nodes[k]) == OutEdges(dist, personList, nodes[k]);
          OutEdgesCount(dist, personList, nodes[k], t);
        }
      }
    }

    /** The ids of the node list are exactly the node keys. */
    lemma IdsCoverNodes(personList: seq<Person>)
      requires Valid() && personList == GetAllPersons()
      ensures (set t | t in IdsOf(personList)) == nodes.Keys
    {
      var ids := IdsOf(personList);
      forall k | k in nodes ensures k in ids {
        var a := IndexOf(k);
        assert ids[a] == k;
      }
    }

    /** Every out-edge of a node leads to another node, weighted with their distance. */
    lemma OutEdgesSoundAt(personList: seq<Person>, k: string)
      requires Valid() && personList == GetAllPersons() && k in nodes
      ensures forall e :: e in OutEdges(dist, personList, nodes[k]) ==>
                e.toId in nodes && e.toId != k && e.weight == Dist(dist, nodes[k], nodes[e.toId])
    {
      OutEdgesSound(dist, personList, nodes[k]);
      forall e | e in OutEdges(dist, personList, nodes[k])
        ensures e.toId in nodes && e.toId != k && e.weight == Dist(dist, nodes[k], nodes[e.toId])
      {
        var j :| 0 <= j < |personList| && personList[j].id == e.toId && e.weight == Dist(dist, nodes[k], personList[j]);
        assert order[j] == e.toId;
      }
    }

    /** GetDistancesFrom: the dictionary of `personId`'s edges, empty for an unknown id; on a
        consistent, complete graph it maps exactly every other node to its distance. */
    method GetDistancesFrom(personId: string) returns (distances: map<string, real>)
      requires Valid()
      ensures personId !in adjacency ==> distances == map[]
      ensures personId in adjacency ==> distances == EdgeMap(adjacency[personId])
      ensures EdgesConsistent() && Complete() && personId in nodes ==>
                distances == map t | t in nodes && t != personId :: Dist(dist, nodes[personId], nodes[t])
    {
      distances := map[];
      if personId !in adjacency {
        return;
      }
      var edges := adjacency[personId];
      var k := 0;
      while k < |edges|
        invariant 0 <= k <= |edges|
        invariant distances == EdgeMap(edges[..k])
      {
        assert edges[..k + 1][..k] == edges[..k];
        distances := distances[edges[k].toId := edges[k].weight];
        k := k + 1;
      }
      assert edges[..k] == edges;
      if EdgesConsistent() && Complete() {
        DistancesOfComplete(personId);
      }
    }

    /** On a consistent, complete graph a node's edge dictionary maps every other node to
        its distance, whatever duplicates the list holds. */
    lemma DistancesOfComplete(personId: string)
      requires Valid() && EdgesConsistent() && Complete() && personId in nodes
      ensures EdgeMap(adjacency[personId]) == map t | t in nodes && t != personId :: Dist(dist, nodes[personId], nodes[t])
    {
      var w := map t | t in nodes && t != personId :: Dist(dist, nodes[personId], nodes[t]);
      EdgeMapOfConsistent(adjacency[personId], w);
    }

    /** GetFarthestPair over the nodes in insertion order. */
    method GetFarthestPair() returns (r: PairResult)
      requires Valid()
      ensures IsFarthest(dist, GetAllPersons(), r)
    {
      var personList := GetAllPersons();
      r := FarthestPair(dist, personList);
    }

    /** GetClosestPair over the nodes in insertion order. */
    method GetClosestPair() returns (r: PairResult)
      requires Valid()
      ensures IsClosest(dist, GetAllPersons(), r)
    {
      var personList := GetAllPersons();
      r := ClosestPair(dist, personList);
    }

    /** GetAverageDistance over the nodes in insertion order. */
    method GetAverageDistance() returns (average: real)
      requires Valid()
      ensures average == AverageOf(dist, GetAllPersons())
    {
      var personList := GetAllPersons();
      average := AverageDistance(dist, personList);
    }
  }
}

