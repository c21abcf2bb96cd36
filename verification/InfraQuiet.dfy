/**
 What the infrastructure-event detector derives for a worker, exactly (deploy/prodcluster/infra_events.py:390-410):
 between two neighbouring joint scrapes an instant is touched by a gap or an event if and only if the worker was not
 quiet there.
 */
module InfraQuiet {
  import opened Wrappers
  import opened Ordering
  import opened InfraSeries
  import opened InfraGaps
  import opened InfraRuns
  import opened InfraEvents

  /** x lies strictly between the joint scrapes k and k + 1. */
  predicate Between(obs: seq<Obs>, k: nat, x: int) { k + 1 < |obs| && obs[k].t < x < obs[k + 1].t }

  // ---------- gaps ----------

  /** Two observations close around x keep every gap away from it. */
  lemma NoGapBetween(ts: seq<int>, lo: int, hi: int, limit: int, g: Gap, p: int, q: int, x: int)
    requires StrictlyAscending(ts) && (forall t :: t in ts ==> lo <= t <= hi) && g in Gaps(ts, lo, hi, limit)
    requires p in ts && q in ts && p < x < q && q - p <= limit
    ensures !(g.a <= x <= g.b)
  {
    var a :| 0 <= a < |ts| && ts[a] == p;
    var b :| 0 <= b < |ts| && ts[b] == q;
    GapsCases(ts, lo, hi, limit, g);
    if g in Steps(ts, limit) {
      var i := StepsOnly(ts, limit, g);
      NoStepBetween(ts, limit, i, a, b, x);
    } else {
      WithinEnds(ts, a);
      WithinEnds(ts, b);
    }
  }

  lemma WithinEnds(ts: seq<int>, a: nat)
    requires StrictlyAscending(ts) && a < |ts|
    ensures ts[0] <= ts[a] <= ts[|ts| - 1]
  {
  }

  lemma NoStepBetween(ts: seq<int>, limit: int, i: nat, a: nat, b: nat, x: int)
    requires StrictlyAscending(ts) && i + 1 < |ts| && a < |ts| && b < |ts| && ts[i + 1] - ts[i] > limit
    requires ts[a] < x < ts[b] && ts[b] - ts[a] <= limit
    ensures !(ts[i] <= x <= ts[i + 1])
  {
  }

  lemma {:induction false} SpansOnly(gs: seq<Gap>, u: Span) returns (g: Gap)
    requires u in SpansOf(gs)
    ensures g in gs && u == Span(g.a, g.b)
  {
    var last := gs[|gs| - 1];
    if u in SpanOf(last) {
      g := last;
    } else {
      g := SpansOnly(gs[..|gs| - 1], u);
    }
  }

  lemma {:induction false} CoverageOnly(conditions: seq<seq<Sample>>, lo: int, hi: int, u: Span)
      returns (s: seq<Sample>)
    requires u in CoverageSpans(conditions, lo, hi)
    ensures s in conditions && u in SpansOf(Gaps(SeenTimes(s), lo, hi, KSM_GAP))
  {
    var last := conditions[|conditions| - 1];
    if u in SpansOf(Gaps(SeenTimes(last), lo, hi, KSM_GAP)) {
      s := last;
    } else {
      s := CoverageOnly(conditions[..|conditions| - 1], lo, hi, u);
    }
  }

  lemma {:induction false} SeenTimesAre(s: seq<Sample>, t: int)
    ensures t in SeenTimes(s) <==> At(s, t).Some?
    ensures t in SeenTimes(s) ==> exists x :: x in s && x.t == t
  {
    if s != [] {
      SeenTimesAre(s[1..], t);
      assert s[0] in s && forall x :: x in s[1..] ==> x in s;
    }
  }

  lemma {:induction false} SeenTimesOrdered(s: seq<Sample>)
    requires InOrder(s)
    ensures StrictlyAscending(SeenTimes(s))
  {
    if s != [] {
      SeenTimesOrdered(s[1..]);
      var rest := SeenTimes(s[1..]);
      forall j | 0 <= j < |rest| ensures s[0].t < rest[j] {
        SeenTimesAre(s[1..], rest[j]);
      }
    }
  }

  /** Every joint scrape is a scrape of each condition. */
  lemma JointIsSeen(c: Conditions, s: seq<Sample>, k: nat)
    requires c.Merged() && s in c.All() && k < |JointScrapes(c)|
    ensures JointScrapes(c)[k].t in SeenTimes(s)
  {
    JointScrapesExact(c);
    var o := JointScrapes(c)[k];
    assert o in JointScrapes(c);
    SeenTimesAre(s, o.t);
  }

  /** The worker's own window holds all its samples. */
  ghost predicate InWindow(c: Conditions, lo: int, hi: int, since: Option<int>) {
    forall s, y :: s in c.All() && y in s ==> WorkerLo(lo, since) <= y.t <= hi
  }

  lemma NoSpanBetween(lo: int, hi: int, since: Option<int>, c: Conditions, u: Span, k: nat, x: int)
    requires c.Merged() && InWindow(c, lo, hi, since) && u in WorkerGaps(lo, hi, since, c)
    requires Between(JointScrapes(c), k, x) && JointScrapes(c)[k + 1].t - JointScrapes(c)[k].t <= KSM_GAP
    ensures !u.Has(x)
  {
    var wlo, obs := WorkerLo(lo, since), JointScrapes(c);
    var p, q := obs[k].t, obs[k + 1].t;
    if u in CoverageSpans(c.All(), wlo, hi) {
      var s := CoverageOnly(c.All(), wlo, hi, u);
      var g := SpansOnly(Gaps(SeenTimes(s), wlo, hi, KSM_GAP), u);
      SeenInWindow(c, lo, hi, since, s);
      JointIsSeen(c, s, k);
      JointIsSeen(c, s, k + 1);
      NoGapBetween(SeenTimes(s), wlo, hi, KSM_GAP, g, p, q, x);
    } else {
      var g := SpansOnly(Gaps(Times(obs), wlo, hi, KSM_GAP), u);
      JointScrapesExact(c);
      JointInWindow(c, lo, hi, since);
      assert Times(obs)[k] in Times(obs) && Times(obs)[k + 1] in Times(obs);
      NoGapBetween(Times(obs), wlo, hi, KSM_GAP, g, p, q, x);
    }
  }

  lemma SeenInWindow(c: Conditions, lo: int, hi: int, since: Option<int>, s: seq<Sample>)
    requires c.Merged() && InWindow(c, lo, hi, since) && s in c.All()
    ensures StrictlyAscending(SeenTimes(s)) && forall t :: t in SeenTimes(s) ==> WorkerLo(lo, since) <= t <= hi
  {
    SeenTimesOrdered(s);
    forall t | t in SeenTimes(s) ensures WorkerLo(lo, since) <= t <= hi {
      SeenTimesAre(s, t);
    }
  }

  lemma JointInWindow(c: Conditions, lo: int, hi: int, since: Option<int>)
    requires c.Merged() && InWindow(c, lo, hi, since)
    ensures forall t :: t in Times(JointScrapes(c)) ==> WorkerLo(lo, since) <= t <= hi
  {
    assert c.ready in c.All();
    SeenInWindow(c, lo, hi, since, c.ready);
    forall t | t in Times(JointScrapes(c)) ensures WorkerLo(lo, since) <= t <= hi {
      var k :| 0 <= k < |JointScrapes(c)| && Times(JointScrapes(c))[k] == t;
      JointIsSeen(c, c.ready, k);
    }
  }

  // ---------- events ----------

  lemma {:induction false} RunEventsOnly(lo: int, hi: int, att: map<Id, Attribution>, node: string, since: Option<int>,
                                         runs: seq<Run>, e: Event) returns (r: Run)
    requires e in RunEvents(lo, hi, att, node, since, runs)
    ensures r in runs && e == RunEvent(lo, hi, att, node, since, r)
  {
    var last := runs[|runs| - 1];
    if e == RunEvent(lo, hi, att, node, since, last) {
      r := last;
    } else {
      r := RunEventsOnly(lo, hi, att, node, since, runs[..|runs| - 1], e);
    }
  }

  /** An unhealthy observation is in one maximal stretch only. */
  lemma StretchUnique(obs: seq<Obs>, i: nat, j: nat, a: nat, b: nat, k: nat)
    requires Stretch(obs, i, j) && Stretch(obs, a, b) && i <= k <= j && a <= k <= b
    ensures i == a && j == b
  {
  }

  ghost predicate Ascends(obs: seq<Obs>) { forall a, b :: 0 <= a < b < |obs| ==> obs[a].t < obs[b].t }

  /** A run that reaches over x includes one of the two scrapes around it. */
  lemma RunIncludesNeighbour(obs: seq<Obs>, i: nat, j: nat, k: nat, x: int)
    requires Ascends(obs) && Stretch(obs, i, j) && Between(obs, k, x)
    requires var r := RunAt(obs, i, j); r.before.GetOr(r.first) <= x <= r.after.GetOr(r.last)
    ensures i <= k <= j || i <= k + 1 <= j
  {
  }

  /** The event of a run does not cover an instant between two scrapes that are both healthy or excused. */
  lemma RunLeavesAlone(lo: int, hi: int, att: map<Id, Attribution>, node: string, since: Option<int>, obs: seq<Obs>,
                       i: nat, j: nat, k: nat, x: int, status: Status)
    requires Ascends(obs) && Stretch(obs, i, j) && Between(obs, k, x)
    requires Excused(att, node, obs, k) && Excused(att, node, obs, k + 1)
    ensures !Covered(RunEvent(lo, hi, att, node, since, RunAt(obs, i, j)).segments, x, status)
  {
    var r := RunAt(obs, i, j);
    EventCoversIff(lo, hi, att, RunId(node, r), r.last, r.before, r.after, true, since, x);
    if r.before.GetOr(r.first) <= x <= r.after.GetOr(r.last) {
      ReachingIsAttributed(att, node, obs, i, j, k, x);
    }
    NotOpen(obs, i, j, k, x);
  }

  lemma NotOpen(obs: seq<Obs>, i: nat, j: nat, k: nat, x: int)
    requires Ascends(obs) && Stretch(obs, i, j) && Between(obs, k, x)
    ensures var r := RunAt(obs, i, j); (r.before.None? ==> r.first < x) && (r.after.None? ==> x < r.last)
  {
  }

  /** A run that reaches over x is attributed to the systems when both scrapes around x are excused. */
  lemma ReachingIsAttributed(att: map<Id, Attribution>, node: string, obs: seq<Obs>, i: nat, j: nat, k: nat, x: int)
    requires Ascends(obs) && Stretch(obs, i, j) && Between(obs, k, x)
    requires Excused(att, node, obs, k) && Excused(att, node, obs, k + 1)
    requires var r := RunAt(obs, i, j); r.before.GetOr(r.first) <= x <= r.after.GetOr(r.last)
    ensures Attributed(att, RunId(node, RunAt(obs, i, j)), System)
  {
    RunIncludesNeighbour(obs, i, j, k, x);
    var n := if i <= k <= j then k else k + 1;
    assert !obs[n].healthy;
    var a: nat, b: nat :| Stretch(obs, a, b) && a <= n <= b && Attributed(att, RunId(node, RunAt(obs, a, b)), System);
    StretchUnique(obs, i, j, a, b, n);
  }

  lemma NoEventBetween(lo: int, hi: int, att: map<Id, Attribution>, node: string, since: Option<int>, c: Conditions,
                       e: Event, s: Segment, k: nat, x: int)
    requires c.Merged() && e in WorkerEvents(lo, hi, att, node, since, c) && s in e.segments
    requires Between(JointScrapes(c), k, x)
    requires Excused(att, node, JointScrapes(c), k) && Excused(att, node, JointScrapes(c), k + 1)
    ensures !(s.a <= x <= s.b)
  {
    var obs := JointScrapes(c);
    JointScrapesExact(c);
    AscendsByTimes(obs);
    var i, j := EventStretch(lo, hi, att, node, since, obs, e);
    RunLeavesAlone(lo, hi, att, node, since, obs, i, j, k, x, s.status);
  }

  /** Every event of a worker is that of a maximal unhealthy stretch. */
  lemma EventStretch(lo: int, hi: int, att: map<Id, Attribution>, node: string, since: Option<int>, obs: seq<Obs>,
                     e: Event) returns (i: nat, j: nat)
    requires StrictlyAscending(Times(obs)) && e in WorkerRuns(lo, hi, att, node, since, obs)
    ensures Stretch(obs, i, j) && e == RunEvent(lo, hi, att, node, since, RunAt(obs, i, j))
  {
    var r := RunEventsOnly(lo, hi, att, node, since, RunsFrom(obs, 0), e);
    i, j := RunStretch(obs, r);
  }

  lemma RunStretch(obs: seq<Obs>, r: Run) returns (i: nat, j: nat)
    requires StrictlyAscending(Times(obs)) && r in RunsFrom(obs, 0)
    ensures Stretch(obs, i, j) && r == RunAt(obs, i, j)
  {
    RunsExact(obs);
    i, j :| Stretch(obs, i, j) && r == RunAt(obs, i, j);
  }

  lemma AscendsByTimes(obs: seq<Obs>)
    requires StrictlyAscending(Times(obs))
    ensures Ascends(obs)
  {
    forall a, b | 0 <= a < b < |obs| ensures obs[a].t < obs[b].t {
      assert Times(obs)[a] < Times(obs)[b];
    }
  }

  // ---------- the result ----------

  lemma BetweenNeighbours(obs: seq<Obs>, k: nat, x: int)
    requires StrictlyAscending(Times(obs)) && Between(obs, k, x)
    ensures LastBefore(Times(obs), x + 1) == Some(obs[k].t) && FirstAfter(Times(obs), x) == Some(obs[k + 1].t)
  {
    var ts := Times(obs);
    var n := Neighbours(ts, x);
    assert ts[k] <= x && x < ts[k + 1];
    assert n == k + 1;
  }

  /** What Quiet means between two neighbouring joint scrapes: they are at most 60 s apart, and each is healthy or in a
      run that a record attributes to the systems. */
  lemma QuietBetweenIff(att: map<Id, Attribution>, node: string, obs: seq<Obs>, lo: int, hi: int, k: nat, x: int)
    requires StrictlyAscending(Times(obs)) && Between(obs, k, x)
    ensures Quiet(att, node, obs, lo, hi, x)
       <==> obs[k + 1].t - obs[k].t <= 60_000 && Excused(att, node, obs, k) && Excused(att, node, obs, k + 1)
  {
    CloseIff(obs, lo, hi, k, x);
    OneAt(obs, k);
    OneAt(obs, k + 1);
  }

  lemma CloseIff(obs: seq<Obs>, lo: int, hi: int, k: nat, x: int)
    requires StrictlyAscending(Times(obs)) && Between(obs, k, x)
    ensures LastBefore(Times(obs), x + 1) == Some(obs[k].t) && FirstAfter(Times(obs), x) == Some(obs[k + 1].t)
    ensures Close(Times(obs), lo, hi, 60_000, x) <==> obs[k + 1].t - obs[k].t <= 60_000
  {
    BetweenNeighbours(obs, k, x);
  }

  lemma OneAt(obs: seq<Obs>, k: nat)
    requires StrictlyAscending(Times(obs)) && k < |obs|
    ensures forall i :: 0 <= i < |obs| && obs[i].t == obs[k].t ==> i == k
  {
    AscendsByTimes(obs);
  }

  /**
   Between two neighbouring joint scrapes, what is derived for the worker touches an instant if and only if the worker
   was not quiet there: nothing is missed and nothing is added.
   */
  lemma TouchedIffUnquiet(lo: int, hi: int, att: map<Id, Attribution>, node: string, since: Option<int>, c: Conditions,
                          k: nat, x: int)
    requires c.Merged() && Accepted(c, since) && (forall s, y :: s in c.All() && y in s ==> lo <= y.t <= hi)
    requires Between(JointScrapes(c), k, x)
    ensures Touched(WorkerEvents(lo, hi, att, node, since, c), WorkerGaps(lo, hi, since, c), x)
       <==> !Quiet(att, node, JointScrapes(c), WorkerLo(lo, since), hi, x)
  {
    var obs := JointScrapes(c);
    JointScrapesExact(c);
    JointTimesInWindow(c, lo, hi, since);
    assert Times(obs)[k] in Times(obs) && Times(obs)[k + 1] in Times(obs);
    if Quiet(att, node, obs, WorkerLo(lo, since), hi, x) {
      QuietBetweenIff(att, node, obs, WorkerLo(lo, since), hi, k, x);
      QuietUntouched(lo, hi, att, node, since, c, k, x);
    } else {
      UnquietIsTouched(lo, hi, att, node, since, c, x);
    }
  }

  lemma QuietUntouched(lo: int, hi: int, att: map<Id, Attribution>, node: string, since: Option<int>, c: Conditions,
                       k: nat, x: int)
    requires c.Merged() && InWindow(c, lo, hi, since) && Between(JointScrapes(c), k, x)
    requires JointScrapes(c)[k + 1].t - JointScrapes(c)[k].t <= KSM_GAP
    requires Excused(att, node, JointScrapes(c), k) && Excused(att, node, JointScrapes(c), k + 1)
    ensures !Touched(WorkerEvents(lo, hi, att, node, since, c), WorkerGaps(lo, hi, since, c), x)
  {
    forall u | u in WorkerGaps(lo, hi, since, c) ensures !u.Has(x) {
      NoSpanBetween(lo, hi, since, c, u, k, x);
    }
    forall e, s | e in WorkerEvents(lo, hi, att, node, since, c) && s in e.segments ensures !(s.a <= x <= s.b) {
      NoEventBetween(lo, hi, att, node, since, c, e, s, k, x);
    }
  }
}
