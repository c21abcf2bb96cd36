/**
 Coverage gaps of the infrastructure-event detector (deploy/prodcluster/infra_events.py): what a list of intervals
 without observations says about each instant of a window.
 */
module InfraGaps {
  import opened Wrappers
  import opened Ordering
  import opened InfraSeries

  // ---------- coverage gaps ----------

  /** An interval without observations; a side is a window edge or an observation. */
  datatype Gap = Gap(a: int, b: int, first: Side, second: Side)

  datatype Side = Edge | Observed

  function Inside(ts: seq<int>, lo: int, hi: int): seq<int> {
    if ts == [] then []
    else if lo <= ts[0] <= hi then [ts[0]] + Inside(ts[1..], lo, hi)
    else Inside(ts[1..], lo, hi)
  }

  lemma {:induction false} InsideAll(ts: seq<int>, lo: int, hi: int)
    requires forall t :: t in ts ==> lo <= t <= hi
    ensures Inside(ts, lo, hi) == ts
  {
    if ts != [] {
      assert ts[0] in ts && forall t :: t in ts[1..] ==> t in ts;
      InsideAll(ts[1..], lo, hi);
    }
  }

  /** Consecutive observations more than the limit apart. */
  function Steps(ts: seq<int>, limit: int): seq<Gap> {
    if |ts| < 2 then []
    else
      (if ts[1] - ts[0] > limit then [Gap(ts[0], ts[1], Observed, Observed)] else []) + Steps(ts[1..], limit)
  }

  lemma {:induction false} StepsHas(ts: seq<int>, limit: int, i: nat)
    requires i + 1 < |ts| && ts[i + 1] - ts[i] > limit
    ensures Gap(ts[i], ts[i + 1], Observed, Observed) in Steps(ts, limit)
  {
    if i > 0 {
      StepsHas(ts[1..], limit, i - 1);
    }
  }

  lemma {:induction false} StepsOnly(ts: seq<int>, limit: int, g: Gap) returns (i: nat)
    requires g in Steps(ts, limit)
    ensures i + 1 < |ts| && g == Gap(ts[i], ts[i + 1], Observed, Observed) && ts[i + 1] - ts[i] > limit
  {
    if ts[1] - ts[0] > limit && g == Gap(ts[0], ts[1], Observed, Observed) {
      i := 0;
    } else {
      i := StepsOnly(ts[1..], limit, g);
      i := i + 1;
    }
  }

  function Gaps(ts: seq<int>, lo: int, hi: int, limit: int): seq<Gap> {
    var kept := Inside(ts, lo, hi);
    if hi < lo then []
    else if kept == [] then [Gap(lo, hi, Edge, Edge)]
    else
      var first, last := kept[0], kept[|kept| - 1];
      (if first - lo > limit then [Gap(lo, first, Edge, Observed)] else [])
      + Steps(kept, limit)
      + (if hi - last > limit then [Gap(last, hi, Observed, Edge)] else [])
  }

  /** The observations around x, or the window edges, are at most `limit` apart, and one of them is an observation. */
  predicate Close(ts: seq<int>, lo: int, hi: int, limit: int, x: int) {
    var p, q := LastBefore(ts, x + 1), FirstAfter(ts, x);
    (p.Some? || q.Some?) && q.GetOr(hi) - p.GetOr(lo) <= limit
  }

  /** Where x falls among ordered observations: k of them are at or before it. */
  lemma Neighbours(ts: seq<int>, x: int) returns (k: nat)
    requires StrictlyAscending(ts)
    ensures k <= |ts| && (forall i :: 0 <= i < |ts| ==> (i < k <==> ts[i] <= x))
    ensures LastBefore(ts, x + 1) == if k == 0 then None else Some(ts[k - 1])
    ensures FirstAfter(ts, x) == if k > 0 && ts[k - 1] == x then Some(x) else if k == |ts| then None else Some(ts[k])
  {
    k := Place(ts, x);
    Preceding(ts, x, k);
    Following(ts, x, k);
  }

  lemma Place(ts: seq<int>, x: int) returns (k: nat)
    requires StrictlyAscending(ts)
    ensures k <= |ts| && forall i :: 0 <= i < |ts| ==> (i < k <==> ts[i] <= x)
  {
    k := 0;
    while k < |ts| && ts[k] <= x
      invariant k <= |ts| && forall i :: 0 <= i < k ==> ts[i] <= x
    {
      k := k + 1;
    }
  }

  lemma Preceding(ts: seq<int>, x: int, k: nat)
    requires StrictlyAscending(ts) && k <= |ts| && forall i :: 0 <= i < |ts| ==> (i < k <==> ts[i] <= x)
    ensures LastBefore(ts, x + 1) == if k == 0 then None else Some(ts[k - 1])
  {
    var r := LastBefore(ts, x + 1);
    if k > 0 {
      assert ts[k - 1] in ts;
    }
    if r.Some? {
      var i :| 0 <= i < |ts| && ts[i] == r.value;
    }
  }

  lemma Following(ts: seq<int>, x: int, k: nat)
    requires StrictlyAscending(ts) && k <= |ts| && forall i :: 0 <= i < |ts| ==> (i < k <==> ts[i] <= x)
    ensures FirstAfter(ts, x) == if k > 0 && ts[k - 1] == x then Some(x) else if k == |ts| then None else Some(ts[k])
  {
    var r := FirstAfter(ts, x);
    if k > 0 {
      assert ts[k - 1] in ts;
    }
    if k < |ts| {
      assert ts[k] in ts;
    }
    if r.Some? {
      var i :| 0 <= i < |ts| && ts[i] == r.value;
    }
  }

  /** An instant whose neighbours are not close lies in a reported gap. */
  lemma FarMeansGap(ts: seq<int>, lo: int, hi: int, limit: int, x: int)
    requires StrictlyAscending(ts) && (forall t :: t in ts ==> lo <= t <= hi) && lo <= x <= hi && 0 <= limit
    requires !Close(ts, lo, hi, limit, x)
    ensures exists g :: g in Gaps(ts, lo, hi, limit) && g.a <= x <= g.b
  {
    var k := Neighbours(ts, x);
    var g := GapAround(ts, lo, hi, limit, k);
  }

  /** The gap between observations k - 1 and k, or from the edge where there is none, when it is wide. */
  lemma GapAround(ts: seq<int>, lo: int, hi: int, limit: int, k: nat) returns (g: Gap)
    requires (forall t :: t in ts ==> lo <= t <= hi) && lo <= hi && k <= |ts|
    requires ts == [] || (if k < |ts| then ts[k] else hi) - (if k > 0 then ts[k - 1] else lo) > limit
    ensures g in Gaps(ts, lo, hi, limit)
    ensures g.a == (if k > 0 then ts[k - 1] else lo) && g.b == if k < |ts| then ts[k] else hi
  {
    InsideAll(ts, lo, hi);
    if ts == [] {
      g := Gap(lo, hi, Edge, Edge);
    } else if k == 0 {
      g := Gap(lo, ts[0], Edge, Observed);
    } else if k == |ts| {
      g := Gap(ts[k - 1], hi, Observed, Edge);
    } else {
      g := Gap(ts[k - 1], ts[k], Observed, Observed);
      StepsHas(ts, limit, k - 1);
    }
  }

  lemma GapsCases(ts: seq<int>, lo: int, hi: int, limit: int, g: Gap)
    requires (forall t :: t in ts ==> lo <= t <= hi) && g in Gaps(ts, lo, hi, limit)
    ensures if ts == [] then g == Gap(lo, hi, Edge, Edge)
            else || (g == Gap(lo, ts[0], Edge, Observed) && ts[0] - lo > limit)
                 || (g == Gap(ts[|ts| - 1], hi, Observed, Edge) && hi - ts[|ts| - 1] > limit)
                 || g in Steps(ts, limit)
  {
    InsideAll(ts, lo, hi);
  }

  /** A reported gap holds no instant with close neighbours. */
  lemma GapMeansFar(ts: seq<int>, lo: int, hi: int, limit: int, x: int, g: Gap)
    requires StrictlyAscending(ts) && (forall t :: t in ts ==> lo <= t <= hi) && 0 <= limit
    requires g in Gaps(ts, lo, hi, limit) && g.a < x < g.b
    ensures !Close(ts, lo, hi, limit, x)
  {
    GapsCases(ts, lo, hi, limit, g);
    if ts == [] {
    } else if g in Steps(ts, limit) {
      var i := StepsOnly(ts, limit, g);
      BetweenMeansFar(ts, lo, hi, limit, x, i + 1);
    } else if g.first.Edge? {
      BetweenMeansFar(ts, lo, hi, limit, x, 0);
    } else {
      BetweenMeansFar(ts, lo, hi, limit, x, |ts|);
    }
  }

  /** Strictly between observations k - 1 and k, or the edges, that are wide apart. */
  lemma BetweenMeansFar(ts: seq<int>, lo: int, hi: int, limit: int, x: int, k: nat)
    requires StrictlyAscending(ts) && k <= |ts| && (k > 0 ==> ts[k - 1] < x) && (k < |ts| ==> x < ts[k])
    requires (if k < |ts| then ts[k] else hi) - (if k > 0 then ts[k - 1] else lo) > limit
    ensures !Close(ts, lo, hi, limit, x)
  {
    assert forall i :: 0 <= i < |ts| ==> (i < k <==> ts[i] <= x);
    Preceding(ts, x, k);
    Following(ts, x, k);
  }
}
