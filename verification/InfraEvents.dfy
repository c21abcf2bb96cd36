/**
 Events and unknown intervals of the infrastructure-event detector (deploy/prodcluster/infra_events.py), and what it
 derives for one declared worker.
 */
module InfraEvents {
  import opened Wrappers
  import opened Ordering
  import opened InfraSeries
  import opened InfraGaps
  import opened InfraRuns

  datatype Class = Worker | PodReason | Unscheduled | Generator | Mask

  datatype Status = Invalid | Unknown | SystemOutcome

  datatype Segment = Segment(a: int, b: int, status: Status)

  /** A candidate's name: an attribution record resolves exactly one. */
  datatype Id = Id(class_: Class, kind: string, subject: string, first: int)

  datatype Attribution = Infrastructure | System

  datatype Event = Event(id: Id, start: int, end: int, status: Status, segments: seq<Segment>)

  function StatusOf(att: map<Id, Attribution>, id: Id, candidate: bool): Status {
    if !candidate then Invalid
    else if id !in att then Unknown
    else if att[id] == Infrastructure then Invalid else SystemOutcome
  }

  /** The bracketed interval with its status, and the open sides up to the window edges as unknown. */
  function MakeEvent(lo: int, hi: int, att: map<Id, Attribution>, id: Id, last: int, before: Option<int>,
                     after: Option<int>, candidate: bool, floor: Option<int>): Event
  {
    var status := StatusOf(att, id, candidate);
    var a, b := before.GetOr(id.first), after.GetOr(last);
    var loOpen := if floor.Some? && floor.value > lo then floor.value else lo;
    Event(id, a, b, status,
          (if status == SystemOutcome then [] else [Segment(a, b, status)])
          + (if before.None? && loOpen < id.first then [Segment(loOpen, id.first, Unknown)] else [])
          + (if after.None? && last < hi then [Segment(last, hi, Unknown)] else []))
  }

  /** Where an open start begins: nothing is known before a worker's join. */
  function OpenFrom(lo: int, floor: Option<int>): int { if floor.Some? && floor.value > lo then floor.value else lo }

  /** The observations showing an event lie between the ones bracketing it. */
  predicate Fits(first: int, last: int, before: Option<int>, after: Option<int>) {
    before.GetOr(first) <= first <= last <= after.GetOr(last)
  }

  predicate Covered(segments: seq<Segment>, x: int, status: Status) {
    exists s :: s in segments && s.status == status && s.a <= x <= s.b
  }

  /** A record attributes the candidate. */
  predicate Attributed(att: map<Id, Attribution>, id: Id, to: Attribution) { id in att && att[id] == to }

  /** x is on an open side of an event: nothing was observed between it and the window edge, or the join. */
  predicate OnOpenSide(lo: int, hi: int, first: int, last: int, before: Option<int>, after: Option<int>,
                       floor: Option<int>, x: int)
  {
    || (before.None? && OpenFrom(lo, floor) <= x <= first && OpenFrom(lo, floor) < first)
    || (after.None? && last <= x <= hi && last < hi)
  }

  /**
   What an event says of each instant, in terms of the records. It makes invalid exactly the instants between its
   bracketing observations, unless it is a candidate that no record attributes to the infrastructure. It leaves unknown
   exactly its open sides and, for a candidate without a record, the instants between its bracketing observations. So a
   candidate attributed to the systems covers its open sides alone, and an event is excused by nothing else.
   */
  lemma EventCoversIff(lo: int, hi: int, att: map<Id, Attribution>, id: Id, last: int, before: Option<int>,
                       after: Option<int>, candidate: bool, floor: Option<int>, x: int)
    ensures var e := MakeEvent(lo, hi, att, id, last, before, after, candidate, floor);
            var between := before.GetOr(id.first) <= x <= after.GetOr(last);
            && (Covered(e.segments, x, Invalid)
                <==> between && (candidate ==> Attributed(att, id, Infrastructure)))
            && (Covered(e.segments, x, Unknown)
                <==> || (between && candidate && id !in att)
                     || OnOpenSide(lo, hi, id.first, last, before, after, floor, x))
            && !Covered(e.segments, x, SystemOutcome)
  {
    var e := MakeEvent(lo, hi, att, id, last, before, after, candidate, floor);
    var first := [Segment(before.GetOr(id.first), after.GetOr(last), e.status)];
    var early, late := Segment(OpenFrom(lo, floor), id.first, Unknown), Segment(last, hi, Unknown);
    var main := if e.status == SystemOutcome then [] else first;
    var opens := if before.None? && OpenFrom(lo, floor) < id.first then [early] else [];
    var closes := if after.None? && last < hi then [late] else [];
    assert e.segments == main + opens + closes;
    forall status
      ensures Covered(e.segments, x, status)
         <==> Covered(main, x, status) || Covered(opens, x, status) || Covered(closes, x, status)
    {
      CoveredConcat(main + opens, closes, x, status);
      CoveredConcat(main, opens, x, status);
    }
    CoveredOne(first[0], x);
    CoveredOne(early, x);
    CoveredOne(late, x);
  }

  lemma CoveredConcat(a: seq<Segment>, b: seq<Segment>, x: int, status: Status)
    ensures Covered(a + b, x, status) <==> Covered(a, x, status) || Covered(b, x, status)
  {
  }

  lemma CoveredOne(s: Segment, x: int)
    ensures forall status :: Covered([s], x, status) <==> s.status == status && s.a <= x <= s.b
  {
    assert s in [s];
  }

  class Events {
    const lo: int
    const hi: int
    const att: map<Id, Attribution>
    var used: set<Id>
    var events: seq<Event>
    var unknown: seq<Span>

    constructor (lo: int, hi: int, att: map<Id, Attribution>)
      ensures this.lo == lo && this.hi == hi && this.att == att && used == {} && events == [] && unknown == []
    {
      this.lo, this.hi, this.att := lo, hi, att;
      used, events, unknown := {}, [], [];
    }

    method AddGap(a: int, b: int)
      modifies this`unknown
      ensures unknown == old(unknown) + if a <= b then [Span(a, b)] else []
    {
      if a <= b {
        unknown := unknown + [Span(a, b)];
      }
    }

    method Add(id: Id, last: int, before: Option<int>, after: Option<int>, candidate: bool, floor: Option<int>)
      modifies this`events, this`used
      ensures events == old(events) + [MakeEvent(lo, hi, att, id, last, before, after, candidate, floor)]
      ensures used == old(used) + if candidate && id in att then {id} else {}
    {
      var status := Invalid;
      if candidate {
        if id in att {
          status := if att[id] == Infrastructure then Invalid else SystemOutcome;
          used := used + {id};
        } else {
          status := Unknown;
        }
      }
      var a := if before.Some? then before.value else id.first;
      var b := if after.Some? then after.value else last;
      var segments := if status == SystemOutcome then [] else [Segment(a, b, status)];
      var loOpen := lo;
      if floor.Some? && floor.value > lo {
        loOpen := floor.value;
      }
      if before.None? && loOpen < id.first {
        segments := segments + [Segment(loOpen, id.first, Unknown)];
      }
      if after.None? && last < hi {
        segments := segments + [Segment(last, hi, Unknown)];
      }
      assert segments == MakeEvent(lo, hi, att, id, last, before, after, candidate, floor).segments;
      events := events + [Event(id, a, b, status, segments)];
    }

    method AddGaps(gs: seq<Gap>)
      modifies this`unknown
      ensures unknown == old(unknown) + SpansOf(gs)
    {
      for i := 0 to |gs|
        invariant unknown == old(unknown) + SpansOf(gs[..i])
      {
        AddGap(gs[i].a, gs[i].b);
        assert gs[..i + 1][..i] == gs[..i];
      }
      assert gs[..|gs|] == gs;
    }

    method AddRuns(node: string, since: Option<int>, runs: seq<Run>)
      modifies this`events, this`used
      ensures events == old(events) + RunEvents(lo, hi, att, node, since, runs)
      ensures used >= old(used)
    {
      for i := 0 to |runs|
        invariant events == old(events) + RunEvents(lo, hi, att, node, since, runs[..i])
        invariant used >= old(used)
      {
        var r := runs[i];
        Add(RunId(node, r), r.last, r.before, r.after, true, since);
        assert runs[..i + 1][..i] == runs[..i];
      }
      assert runs[..|runs|] == runs;
    }

    /** One declared worker: refused when a value is outside its domain or a sample precedes the declared join. */
    method DetectWorker(node: string, since: Option<int>, c: Conditions) returns (ok: bool)
      modifies this`events, this`used, this`unknown
      ensures ok <==> && (forall s, x :: s in c.All() && x in s && x.v.Some? ==> x.v.value == 0.0 || x.v.value == 1.0)
                      && (since.Some? ==> forall s, x :: s in c.All() && x in s ==> since.value <= x.t)
      ensures ok ==> events == old(events) + WorkerEvents(lo, hi, att, node, since, c)
      ensures ok ==> unknown == old(unknown) + WorkerGaps(lo, hi, since, c)
      ensures !ok ==> events == old(events) && unknown == old(unknown)
    {
      if !Accepted(c, since) {
        return false;
      }
      AddWorker(node, since, c.All(), JointScrapes(c));
      return true;
    }

    /** Every declared worker in turn; the first refusal ends it. */
    method DetectWorkers(workers: seq<WorkerHistory>) returns (ok: bool)
      modifies this`events, this`used, this`unknown
      ensures ok <==> forall w :: w in workers ==> Accepted(w.conditions, w.since)
      ensures ok ==> Contributed(workers, lo, hi, att, events, unknown)
    {
      for i := 0 to |workers|
        invariant forall w :: w in workers[..i] ==> Accepted(w.conditions, w.since)
        invariant Contributed(workers[..i], lo, hi, att, events, unknown)
      {
        var w := workers[i];
        ghost var was, gaps := events, unknown;
        var accepted := DetectWorker(w.node, w.since, w.conditions);
        if !accepted {
          assert w in workers;
          return false;
        }
        ContributedMore(workers[..i], w, lo, hi, att, was, gaps, events, unknown);
        assert workers[..i + 1] == workers[..i] + [w];
      }
      assert workers[..|workers|] == workers;
      return true;
    }

    method AddWorker(node: string, since: Option<int>, conditions: seq<seq<Sample>>, joint: seq<Obs>)
      modifies this`events, this`used, this`unknown
      ensures events == old(events) + WorkerRuns(lo, hi, att, node, since, joint)
      ensures unknown == old(unknown) + WorkerSpans(lo, hi, since, conditions, joint)
    {
      var wlo := WorkerLo(lo, since);
      if wlo > hi {
        return;
      }
      AddCoverage(conditions, wlo);
      AddJoint(node, since, wlo, joint);
      Regrouped(old(unknown), CoverageSpans(conditions, wlo, hi), SpansOf(Gaps(Times(joint), wlo, hi, KSM_GAP)));
    }

    /** Gaps and unhealthy runs of the joint scrapes. */
    method AddJoint(node: string, since: Option<int>, wlo: int, joint: seq<Obs>)
      modifies this`events, this`used, this`unknown
      ensures events == old(events) + RunEvents(lo, hi, att, node, since, RunsFrom(joint, 0))
      ensures unknown == old(unknown) + SpansOf(Gaps(Times(joint), wlo, hi, KSM_GAP))
    {
      AddGaps(Gaps(Times(joint), wlo, hi, KSM_GAP));
      var runs := BadRuns(joint);
      AddRuns(node, since, runs);
    }

    /** Every condition must be covered on its own. */
    method AddCoverage(conditions: seq<seq<Sample>>, wlo: int)
      modifies this`unknown
      ensures unknown == old(unknown) + CoverageSpans(conditions, wlo, hi)
    {
      for i := 0 to |conditions|
        invariant unknown == old(unknown) + CoverageSpans(conditions[..i], wlo, hi)
      {
        AddGaps(Gaps(SeenTimes(conditions[i]), wlo, hi, KSM_GAP));
        CoverageMore(conditions, wlo, hi, i, old(unknown));
      }
      assert conditions[..|conditions|] == conditions;
    }
  }

  // ---------- what is derived for one worker, as values ----------

  lemma Regrouped<T>(a: seq<T>, b: seq<T>, c: seq<T>)
    ensures (a + b) + c == a + (b + c)
  {
  }

  function SpansOf(gs: seq<Gap>): seq<Span> {
    if gs == [] then [] else SpansOf(gs[..|gs| - 1]) + SpanOf(gs[|gs| - 1])
  }

  function SpanOf(g: Gap): seq<Span> { if g.a <= g.b then [Span(g.a, g.b)] else [] }

  lemma {:induction false} SpansHas(gs: seq<Gap>, g: Gap)
    requires g in gs && g.a <= g.b
    ensures Span(g.a, g.b) in SpansOf(gs)
  {
    if gs[|gs| - 1] != g {
      SpansHas(gs[..|gs| - 1], g);
    }
  }

  const UNHEALTHY := "node not ready or under pressure"

  function RunId(node: string, r: Run): Id { Id(Worker, UNHEALTHY, node, r.first) }

  function RunEvent(lo: int, hi: int, att: map<Id, Attribution>, node: string, since: Option<int>, r: Run): Event {
    MakeEvent(lo, hi, att, RunId(node, r), r.last, r.before, r.after, true, since)
  }

  function RunEvents(lo: int, hi: int, att: map<Id, Attribution>, node: string, since: Option<int>, runs: seq<Run>)
    : seq<Event>
  {
    if runs == [] then []
    else
      RunEvents(lo, hi, att, node, since, runs[..|runs| - 1])
      + [RunEvent(lo, hi, att, node, since, runs[|runs| - 1])]
  }

  lemma {:induction false} RunEventsHas(lo: int, hi: int, att: map<Id, Attribution>, node: string, since: Option<int>,
                                        runs: seq<Run>, r: Run)
    requires r in runs
    ensures RunEvent(lo, hi, att, node, since, r) in RunEvents(lo, hi, att, node, since, runs)
  {
    if runs[|runs| - 1] != r {
      RunEventsHas(lo, hi, att, node, since, runs[..|runs| - 1], r);
    }
  }

  function SeenTimes(s: seq<Sample>): seq<int> {
    if s == [] then [] else (if s[0].v.Some? then [s[0].t] else []) + SeenTimes(s[1..])
  }

  predicate Accepted(c: Conditions, since: Option<int>) {
    c.InDomain() && (since.Some? ==> forall s, x :: s in c.All() && x in s ==> since.value <= x.t)
  }

  /** Coverage is required from the worker's join on. */
  function WorkerLo(lo: int, since: Option<int>): int {
    if since.Some? && since.value > lo then since.value else lo
  }

  function WorkerGaps(lo: int, hi: int, since: Option<int>, c: Conditions): seq<Span> {
    WorkerSpans(lo, hi, since, c.All(), JointScrapes(c))
  }

  function WorkerSpans(lo: int, hi: int, since: Option<int>, conditions: seq<seq<Sample>>, joint: seq<Obs>): seq<Span> {
    var wlo := WorkerLo(lo, since);
    if wlo > hi then [] else CoverageSpans(conditions, wlo, hi) + SpansOf(Gaps(Times(joint), wlo, hi, KSM_GAP))
  }

  lemma CoverageMore(conditions: seq<seq<Sample>>, wlo: int, hi: int, i: nat, was: seq<Span>)
    requires i < |conditions|
    ensures was + CoverageSpans(conditions[..i + 1], wlo, hi)
         == was + CoverageSpans(conditions[..i], wlo, hi) + SpansOf(Gaps(SeenTimes(conditions[i]), wlo, hi, KSM_GAP))
  {
    assert conditions[..i + 1][..i] == conditions[..i];
    Regrouped(was, CoverageSpans(conditions[..i], wlo, hi), SpansOf(Gaps(SeenTimes(conditions[i]), wlo, hi, KSM_GAP)));
  }

  function CoverageSpans(conditions: seq<seq<Sample>>, wlo: int, hi: int): seq<Span> {
    if conditions == [] then []
    else CoverageSpans(conditions[..|conditions| - 1], wlo, hi)
         + SpansOf(Gaps(SeenTimes(conditions[|conditions| - 1]), wlo, hi, KSM_GAP))
  }

  function WorkerEvents(lo: int, hi: int, att: map<Id, Attribution>, node: string, since: Option<int>, c: Conditions)
    : seq<Event>
  {
    WorkerRuns(lo, hi, att, node, since, JointScrapes(c))
  }

  function WorkerRuns(lo: int, hi: int, att: map<Id, Attribution>, node: string, since: Option<int>, joint: seq<Obs>)
    : seq<Event>
  {
    if WorkerLo(lo, since) > hi then [] else RunEvents(lo, hi, att, node, since, RunsFrom(joint, 0))
  }

  /** One declared worker: its name, its join and the merged series of its conditions over the window. */
  datatype WorkerHistory = WorkerHistory(node: string, since: Option<int>, conditions: Conditions)

  /** The lists hold what one worker contributes. */
  ghost predicate ContributedBy(w: WorkerHistory, lo: int, hi: int, att: map<Id, Attribution>, events: seq<Event>,
                                unknown: seq<Span>)
  {
    && (forall e :: e in WorkerEvents(lo, hi, att, w.node, w.since, w.conditions) ==> e in events)
    && (forall u :: u in WorkerGaps(lo, hi, w.since, w.conditions) ==> u in unknown)
  }

  /** The lists hold what every declared worker contributes (other sources may have added more). */
  ghost predicate Contributed(workers: seq<WorkerHistory>, lo: int, hi: int, att: map<Id, Attribution>,
                              events: seq<Event>, unknown: seq<Span>)
  {
    forall w :: w in workers ==> ContributedBy(w, lo, hi, att, events, unknown)
  }

  lemma ContributedMore(workers: seq<WorkerHistory>, w: WorkerHistory, lo: int, hi: int, att: map<Id, Attribution>,
                        was: seq<Event>, gaps: seq<Span>, events: seq<Event>, unknown: seq<Span>)
    requires Contributed(workers, lo, hi, att, was, gaps)
    requires events == was + WorkerEvents(lo, hi, att, w.node, w.since, w.conditions)
    requires unknown == gaps + WorkerGaps(lo, hi, w.since, w.conditions)
    ensures Contributed(workers + [w], lo, hi, att, events, unknown)
  {
    forall v | v in workers + [w] ensures ContributedBy(v, lo, hi, att, events, unknown) {
      if v != w {
        assert v in workers && ContributedBy(v, lo, hi, att, was, gaps);
      }
    }
  }

  // ---------- what they cover ----------

  /** x lies in an unknown interval or in a segment of an event. */
  ghost predicate Touched(events: seq<Event>, unknown: seq<Span>, x: int) {
    || (exists u :: u in unknown && u.Has(x))
    || (exists e, s :: e in events && s in e.segments && s.a <= x <= s.b && s.status != SystemOutcome)
  }

  /** The joint scrape k is healthy or in a run that was attributed to the systems themselves. */
  ghost predicate Excused(att: map<Id, Attribution>, node: string, obs: seq<Obs>, k: nat)
    requires k < |obs|
  {
    obs[k].healthy
    || exists i: nat, j: nat :: Stretch(obs, i, j) && i <= k <= j
                                && Attributed(att, RunId(node, RunAt(obs, i, j)), System)
  }

  /** Everything known about the worker around x: joint scrapes close on both sides, each healthy or excused. */
  ghost predicate Quiet(att: map<Id, Attribution>, node: string, obs: seq<Obs>, lo: int, hi: int, x: int) {
    && Close(Times(obs), lo, hi, 60_000, x)
    && (forall k :: 0 <= k < |obs| && LastBefore(Times(obs), x + 1) == Some(obs[k].t) ==> Excused(att, node, obs, k))
    && (forall k :: 0 <= k < |obs| && FirstAfter(Times(obs), x) == Some(obs[k].t) ==> Excused(att, node, obs, k))
  }

  /** An unhealthy, unexcused joint scrape next to x leaves a segment over x. */
  lemma UnhealthyNeighbourTouches(lo: int, hi: int, att: map<Id, Attribution>, node: string, since: Option<int>,
                                  obs: seq<Obs>, x: int, k: nat, i: nat, j: nat)
    requires StrictlyAscending(Times(obs)) && WorkerLo(lo, since) <= x <= hi
    requires k < |obs| && Stretch(obs, i, j) && i <= k <= j
    requires || (obs[k].t <= x && (k + 1 < |obs| ==> x < obs[k + 1].t))
             || (x <= obs[k].t && (k > 0 ==> obs[k - 1].t < x))
    requires !Attributed(att, RunId(node, RunAt(obs, i, j)), System)
    ensures exists s :: s in RunEvent(lo, hi, att, node, since, RunAt(obs, i, j)).segments && s.a <= x <= s.b
                        && s.status != SystemOutcome
  {
    var r := RunAt(obs, i, j);
    var e := RunEvent(lo, hi, att, node, since, r);
    var main := Segment(r.before.GetOr(r.first), r.after.GetOr(r.last), e.status);
    assert forall a, b :: 0 <= a < b < |obs| ==> obs[a].t < obs[b].t by {
      assert forall a, b :: 0 <= a < b < |obs| ==> Times(obs)[a] < Times(obs)[b];
    }
    assert main in e.segments;
    if x < main.a {
      assert Segment(WorkerLo(lo, since), r.first, Unknown) in e.segments;
    } else if main.b < x {
      assert Segment(r.last, hi, Unknown) in e.segments;
    }
  }

  /** Every instant that is not quiet is touched by what the detector derived for the worker. */
  lemma UnquietIsTouched(lo: int, hi: int, att: map<Id, Attribution>, node: string, since: Option<int>, c: Conditions,
                         x: int)
    requires c.Merged() && Accepted(c, since)
    requires forall s, y :: s in c.All() && y in s ==> lo <= y.t <= hi
    requires WorkerLo(lo, since) <= x <= hi
    requires !Quiet(att, node, JointScrapes(c), WorkerLo(lo, since), hi, x)
    ensures Touched(WorkerEvents(lo, hi, att, node, since, c), WorkerGaps(lo, hi, since, c), x)
  {
    var wlo, obs := WorkerLo(lo, since), JointScrapes(c);
    JointScrapesExact(c);
    JointTimesInWindow(c, lo, hi, since);
    if !Close(Times(obs), wlo, hi, KSM_GAP, x) {
      FarIsTouched(Times(obs), wlo, hi, x);
      var u :| u in SpansOf(Gaps(Times(obs), wlo, hi, KSM_GAP)) && u.Has(x);
      assert u in WorkerGaps(lo, hi, since, c);
    } else {
      var k := UnexcusedNeighbour(att, node, obs, wlo, hi, x);
      UnexcusedIsTouched(lo, hi, att, node, since, obs, x, k);
    }
  }

  lemma FarIsTouched(ts: seq<int>, wlo: int, hi: int, x: int)
    requires StrictlyAscending(ts) && (forall t :: t in ts ==> wlo <= t <= hi) && wlo <= x <= hi
    requires !Close(ts, wlo, hi, KSM_GAP, x)
    ensures exists u :: u in SpansOf(Gaps(ts, wlo, hi, KSM_GAP)) && u.Has(x)
  {
    FarMeansGap(ts, wlo, hi, KSM_GAP, x);
    var g :| g in Gaps(ts, wlo, hi, KSM_GAP) && g.a <= x <= g.b;
    SpansHas(Gaps(ts, wlo, hi, KSM_GAP), g);
    assert Span(g.a, g.b).Has(x);
  }

  lemma UnexcusedNeighbour(att: map<Id, Attribution>, node: string, obs: seq<Obs>, wlo: int, hi: int, x: int)
    returns (k: nat)
    requires StrictlyAscending(Times(obs)) && !Quiet(att, node, obs, wlo, hi, x)
        && Close(Times(obs), wlo, hi, KSM_GAP, x)
    ensures k < |obs| && !Excused(att, node, obs, k)
    ensures || (obs[k].t <= x && (k + 1 < |obs| ==> x < obs[k + 1].t))
            || (x <= obs[k].t && (k > 0 ==> obs[k - 1].t < x))
  {
    k :| k < |obs| && !Excused(att, node, obs, k)
         && (LastBefore(Times(obs), x + 1) == Some(obs[k].t) || FirstAfter(Times(obs), x) == Some(obs[k].t));
    assert k + 1 < |obs| ==> Times(obs)[k + 1] in Times(obs) && obs[k].t < Times(obs)[k + 1];
    assert k > 0 ==> Times(obs)[k - 1] in Times(obs) && Times(obs)[k - 1] < obs[k].t;
  }

  lemma UnexcusedIsTouched(lo: int, hi: int, att: map<Id, Attribution>, node: string, since: Option<int>, obs: seq<Obs>,
                           x: int, k: nat)
    requires StrictlyAscending(Times(obs)) && WorkerLo(lo, since) <= x <= hi
    requires k < |obs| && !Excused(att, node, obs, k)
    requires || (obs[k].t <= x && (k + 1 < |obs| ==> x < obs[k + 1].t))
             || (x <= obs[k].t && (k > 0 ==> obs[k - 1].t < x))
    ensures Touched(RunEvents(lo, hi, att, node, since, RunsFrom(obs, 0)), [], x)
  {
    var i, j := RunAround(att, node, obs, k);
    UnhealthyNeighbourTouches(lo, hi, att, node, since, obs, x, k, i, j);
    RunEventsHas(lo, hi, att, node, since, RunsFrom(obs, 0), RunAt(obs, i, j));
  }

  lemma RunAround(att: map<Id, Attribution>, node: string, obs: seq<Obs>, k: nat) returns (i: nat, j: nat)
    requires StrictlyAscending(Times(obs)) && k < |obs| && !Excused(att, node, obs, k)
    ensures Stretch(obs, i, j) && i <= k <= j && RunAt(obs, i, j) in RunsFrom(obs, 0)
  {
    RunsExact(obs);
    assert InRun(obs, RunsFrom(obs, 0), k);
    i, j :| Stretch(obs, i, j) && i <= k <= j && RunAt(obs, i, j) in RunsFrom(obs, 0);
  }

  lemma JointTimesInWindow(c: Conditions, lo: int, hi: int, since: Option<int>)
    requires c.Merged() && Accepted(c, since) && forall s, y :: s in c.All() && y in s ==> lo <= y.t <= hi
    ensures forall t :: t in Times(JointScrapes(c)) ==> WorkerLo(lo, since) <= t <= hi
  {
    forall i | 0 <= i < |JointScrapes(c)|
      ensures WorkerLo(lo, since) <= JointScrapes(c)[i].t <= hi
    {
      JoinMembers(c, c.ready, JointScrapes(c)[i]);
      assert c.ready in c.All();
    }
  }
}
