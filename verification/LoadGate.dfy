/**
 The hourly load gate (deploy/prodcluster/collect_load_evidence.py): the sums over pods and series, the choice of the
 failure counter, the PASS / FAIL / INCOMPLETE rule, and the end-to-end theorem that relates its verdict to what really
 happened in the hour.
 */
module LoadGate {
  import opened Wrappers
  import opened Counting
  import K6 = K6Counters
  import Envoy = EnvoyCounters

  datatype Status = Pass | Fail | Incomplete

  // ---------- the gate ----------

  predicate G1(planned: real, observed: real) { -0.05 * planned <= observed - planned <= 0.05 * planned }
  predicate G2(planned: real, dropped: real) { dropped <= 0.0005 * planned }
  predicate G3(planned: real, failed: real) { failed <= 0.001 * planned }

  predicate Meets(planned: real, observed: real, failed: real, dropped: real) {
    G1(planned, observed) && G2(planned, dropped) && G3(planned, failed)
  }

  function Gate(planned: real, observed: Bounds, failed: Bounds, dropped: Bounds): Status {
    var worst := && G1(planned, observed.low as real) && G1(planned, observed.high as real)
                 && G2(planned, dropped.high as real) && G3(planned, failed.high as real);
    var best := && observed.low as real <= 1.05 * planned && observed.high as real >= 0.95 * planned
                && G2(planned, dropped.low as real) && G3(planned, failed.low as real);
    if worst then Pass else if !best then Fail else Incomplete
  }

  predicate Inside(b: Bounds, x: real) { b.low as real <= x <= b.high as real }

  /** Whatever the counts inside the bounds are, PASS means all three criteria hold and FAIL that one does not. */
  lemma GateSound(planned: real, observed: Bounds, failed: Bounds, dropped: Bounds, o: real, f: real, d: real)
    requires Inside(observed, o) && Inside(failed, f) && Inside(dropped, d)
    ensures Gate(planned, observed, failed, dropped) == Pass ==> Meets(planned, o, f, d)
    ensures Gate(planned, observed, failed, dropped) == Fail ==> !Meets(planned, o, f, d)
  {
  }

  /** The verdict is as sharp as the bounds allow: PASS and FAIL are given whenever every point inside agrees. */
  lemma GateExact(planned: real, observed: Bounds, failed: Bounds, dropped: Bounds)
    requires 0.0 <= planned && observed.low <= observed.high && failed.low <= failed.high && dropped.low <= dropped.high
    ensures Gate(planned, observed, failed, dropped) == Pass
       <==> forall o, f, d :: Inside(observed, o) && Inside(failed, f) && Inside(dropped, d) ==> Meets(planned, o, f, d)
    ensures Gate(planned, observed, failed, dropped) == Fail
       <==> forall o, f, d | Inside(observed, o) && Inside(failed, f) && Inside(dropped, d) ::
              !Meets(planned, o, f, d)
  {
    var g := Gate(planned, observed, failed, dropped);
    forall o, f, d | Inside(observed, o) && Inside(failed, f) && Inside(dropped, d)
      ensures g == Pass ==> Meets(planned, o, f, d)
      ensures g == Fail ==> !Meets(planned, o, f, d)
    {
      GateSound(planned, observed, failed, dropped, o, f, d);
    }
    if g != Pass {
      var f, d := failed.high as real, dropped.high as real;
      assert !Meets(planned, observed.low as real, f, d) || !Meets(planned, observed.high as real, f, d);
      assert Inside(observed, observed.low as real) && Inside(observed, observed.high as real);
      assert Inside(failed, f) && Inside(dropped, d);
    }
    if g != Fail {
      var o := if observed.low as real > planned then observed.low as real
               else if (observed.high as real) < planned then observed.high as real else planned;
      assert Meets(planned, o, failed.low as real, dropped.low as real);
      assert Inside(observed, o) && Inside(failed, failed.low as real) && Inside(dropped, dropped.low as real);
    }
  }

  // ---------- the arm: every series of every relevant pod ----------

  /** One series of one relevant pod as the store answers it. A series is listed when a scrape or the final snapshot
      names it; an unlisted one adds nothing. */
  datatype Reading = Reading(listed: bool, samples: map<int, int>, scrapes: seq<int>, podStart: Option<int>,
                             snap: Option<Envoy.Snapshot>)

  function ReadingBounds(r: Reading, t0: int, t1: int): Result<Bounds, Envoy.Problem> {
    if r.listed then Envoy.TargetSeriesBounds(r.samples, r.scrapes, t0, t1, r.podStart, r.snap) else Ok(Bounds(0, 0))
  }

  function ArmParts(rs: seq<Reading>, t0: int, t1: int): seq<Result<Bounds, Envoy.Problem>> {
    seq(|rs|, i requires 0 <= i < |rs| => ReadingBounds(rs[i], t0, t1))
  }

  method ArmEnvoy(rs: seq<Reading>, t0: int, t1: int) returns (r: Result<Bounds, Envoy.Problem>)
    ensures r == SumOf(ArmParts(rs, t0, t1))
  {
    r := Accumulate(ArmParts(rs, t0, t1));
  }

  /** A relevant pod was scraped after the hour or has a final snapshot; a series it never showed counted nothing. */
  ghost predicate Answered(h: Envoy.Target, r: Reading, t1: int) {
    && h.Lawful() && h.Produced(r.samples, r.scrapes, r.snap) && r.podStart == h.podStart
    && (r.snap.Some? || exists s :: s in r.scrapes && t1 <= s)
    && (!r.listed ==> r.samples == map[] && (r.snap.Some? ==> r.snap.value.final == 0))
  }

  lemma ReadingSound(h: Envoy.Target, r: Reading, t0: int, t1: int)
    requires t0 <= t1 && Answered(h, r, t1)
    ensures Holds(ReadingBounds(r, t0, t1), h.Count(Envoy.InHour(t0, t1)))
    ensures !r.listed ==> ReadingBounds(r, t0, t1) == Ok(Bounds(0, 0))
  {
    if r.listed {
      Envoy.TargetSound(h, r.samples, r.scrapes, r.snap, t0, t1);
    } else {
      Envoy.EdgeSound(h, r.samples, r.scrapes, r.snap, t1);
      TotalMonotone(h.requests, Envoy.InHour(t0, t1), Envoy.Before(t1));
    }
  }

  function ArmTruths(hs: seq<Envoy.Target>, t0: int, t1: int): seq<nat> {
    seq(|hs|, i requires 0 <= i < |hs| => hs[i].Count(Envoy.InHour(t0, t1)))
  }

  lemma ArmSound(hs: seq<Envoy.Target>, rs: seq<Reading>, t0: int, t1: int)
    requires t0 <= t1 && |hs| == |rs| && forall i :: 0 <= i < |hs| ==> Answered(hs[i], rs[i], t1)
    ensures Holds(SumOf(ArmParts(rs, t0, t1)), SumInts(ArmTruths(hs, t0, t1)))
  {
    forall i | 0 <= i < |hs|
      ensures Holds(ArmParts(rs, t0, t1)[i], ArmTruths(hs, t0, t1)[i])
    {
      ReadingSound(hs[i], rs[i], t0, t1);
    }
    SumSound(ArmParts(rs, t0, t1), ArmTruths(hs, t0, t1));
  }

  // ---------- failed requests: the dense counter when the run has it, checked against the built-in one ----------

  predicate Disjoint(a: Bounds, b: Bounds) { a.low > b.high || b.low > a.high }

  /** `dense` is None when the run has no dense series in the window. */
  function ChooseFailed(builtin: Result<Bounds, K6.Problem>, dense: Option<Result<Bounds, K6.Problem>>)
    : Result<Bounds, K6.Problem>
  {
    if builtin == Err(K6.Incomplete) || dense.None? then builtin
    else
      match dense.value
      case Err(p) => Err(p)
      case Ok(f) => if builtin.Ok? && Disjoint(f, builtin.value) then Err(K6.Incomplete) else Ok(f)
  }

  /** Whichever counter is chosen bounds the truth: the dense one where there is one, which then need not wait for the
      built-in one's tail. Sound counters are never called inconsistent. */
  lemma ChooseFailedSound(builtin: Result<Bounds, K6.Problem>, dense: Option<Result<Bounds, K6.Problem>>, truth: nat)
    requires Holds(builtin, truth) && (builtin.Err? ==> builtin.error == K6.UnboundedTail)
    requires dense.Some? ==> Holds(dense.value, truth) && (dense.value.Err? ==> dense.value.error == K6.UnboundedTail)
    ensures ChooseFailed(builtin, dense) == if dense.Some? then dense.value else builtin
    ensures Holds(ChooseFailed(builtin, dense), truth)
    ensures ChooseFailed(builtin, dense).Err? ==> ChooseFailed(builtin, dense).error == K6.UnboundedTail
  {
  }

  /** Two counters that no single count could have are refused, and so is an inconsistent built-in one. */
  lemma ChooseFailedRefuses(builtin: Result<Bounds, K6.Problem>, dense: Bounds)
    requires dense.low <= dense.high && (builtin.Ok? ==> builtin.value.low <= builtin.value.high)
    ensures ChooseFailed(builtin, Some(Ok(dense))).Ok?
       <==> if builtin.Ok? then exists n :: dense.Contains(n) && builtin.value.Contains(n)
            else builtin.error == K6.UnboundedTail
    ensures ChooseFailed(builtin, Some(Ok(dense))).Err? ==>
              ChooseFailed(builtin, Some(Ok(dense))).error == K6.Incomplete
  {
    if builtin.Ok? && !Disjoint(dense, builtin.value) {
      var n := if dense.low < builtin.value.low then builtin.value.low else dense.low;
      assert dense.Contains(n) && builtin.value.Contains(n);
    }
  }

  // ---------- one hour of one arm ----------

  /** Everything the collector reads for one arm and hour. `ready` and `latencyKnown` are its remaining checks
      (collection time, inventory start, lifecycles, latency buckets), which can only make the hour INCOMPLETE. */
  datatype Evidence = Evidence(t0: int, t1: int, end: int, ready: bool, latencyKnown: bool, exporter: K6.Exporter,
                               arm: seq<Reading>, failed: seq<seq<K6.Sample>>, dense: Option<seq<K6.Sample>>,
                               dropped: seq<seq<K6.Sample>>)

  function FailedBounds(v: Evidence): Result<Bounds, K6.Problem> {
    var start := v.exporter.start;
    ChooseFailed(SumOf(K6.SeriesParts(v.failed, v.t0, v.t1, start, v.end, K6.LAG, true)),
                 if v.dense.None? || !K6.InAnswer(v.dense.value, v.t0, start, v.end) then None
                 else Some(K6.SeriesBounds(v.dense.value, v.t0, v.t1, start, v.end, K6.LAG, false)))
  }

  function DroppedBounds(v: Evidence): Result<Bounds, K6.Problem> {
    SumOf(K6.SeriesParts(v.dropped, v.t0, v.t1, v.exporter.start, v.end, K6.LAG, true))
  }

  function Collect(planned: real, v: Evidence): Status {
    var observed := SumOf(ArmParts(v.arm, v.t0, v.t1));
    if !v.ready || !v.latencyKnown || observed.Err? || !v.exporter.Checked(v.t0, v.t1, v.end) then Incomplete
    else if FailedBounds(v).Err? || DroppedBounds(v).Err? then Incomplete
    else Gate(planned, observed.value, FailedBounds(v).value, DroppedBounds(v).value)
  }

  /** The hidden run behind the evidence; both failure counters count the same failures. */
  datatype World = World(arm: seq<Envoy.Target>, failed: seq<seq<K6.Event>>, dense: seq<K6.Event>,
                         dropped: seq<seq<K6.Event>>) {
    function Observed(v: Evidence): nat { SumInts(ArmTruths(arm, v.t0, v.t1)) }
    function Failures(v: Evidence): nat { SumInts(K6.Truths(failed, v.t0, v.t1)) }
    function Drops(v: Evidence): nat { SumInts(K6.Truths(dropped, v.t0, v.t1)) }

    ghost predicate Behind(v: Evidence) {
      && |arm| == |v.arm| && |failed| == |v.failed| && |dropped| == |v.dropped|
      && (forall i :: 0 <= i < |arm| ==> Answered(arm[i], v.arm[i], v.t1))
      && (forall i :: 0 <= i < |failed| ==> v.exporter.Produced(failed[i], v.failed[i], K6.LAG))
      && (forall i :: 0 <= i < |dropped| ==> v.exporter.Produced(dropped[i], v.dropped[i], K6.LAG))
      && (v.dense.Some? ==> && v.exporter.Produced(dense, v.dense.value, K6.LAG)
                            && Total(dense, K6.InHour(v.t0, v.t1)) == Failures(v))
    }
  }

  /**
   End to end, for every hidden run and every sampling of it: a PASS hour met all three criteria and a FAIL hour broke
   at least one of them.
   */
  lemma HourSound(planned: real, v: Evidence, w: World)
    requires w.Behind(v)
    ensures Collect(planned, v) == Pass
            ==> Meets(planned, w.Observed(v) as real, w.Failures(v) as real, w.Drops(v) as real)
    ensures Collect(planned, v) == Fail
            ==> !Meets(planned, w.Observed(v) as real, w.Failures(v) as real, w.Drops(v) as real)
  {
    if Collect(planned, v) != Incomplete {
      ArmSound(w.arm, v.arm, v.t0, v.t1);
      K6.CounterSound(v.exporter, w.failed, v.failed, v.t0, v.t1, v.end, true);
      K6.CounterSound(v.exporter, w.dropped, v.dropped, v.t0, v.t1, v.end, true);
      if v.dense.Some? {
        K6.SeriesSound(v.exporter, w.dense, v.dense.value, v.t0, v.t1, v.end, false);
      }
      assert Holds(FailedBounds(v), w.Failures(v));
      GateSound(planned, SumOf(ArmParts(v.arm, v.t0, v.t1)).value, FailedBounds(v).value, DroppedBounds(v).value,
                w.Observed(v) as real, w.Failures(v) as real, w.Drops(v) as real);
    }
  }

  // ---------- when an hour is decided ----------

  /** The two edges of the hour are followed, and no scrape of the capture second was read early. */
  ghost predicate Bracketed(r: Reading, t0: int, t1: int) {
    r.listed ==>
      && (r.snap.Some? ==> !Envoy.ReadsEarlyInCaptureSecond(r.samples, r.scrapes, r.snap.value))
      && Envoy.Followed(r.scrapes, r.podStart, r.snap, t0) && Envoy.Followed(r.scrapes, r.podStart, r.snap, t1)
  }

  lemma ArmIff(hs: seq<Envoy.Target>, rs: seq<Reading>, t0: int, t1: int)
    requires t0 <= t1 && |hs| == |rs| && forall i :: 0 <= i < |hs| ==> Answered(hs[i], rs[i], t1)
    ensures SumOf(ArmParts(rs, t0, t1)).Ok? <==> forall i :: 0 <= i < |rs| ==> Bracketed(rs[i], t0, t1)
  {
    var parts := ArmParts(rs, t0, t1);
    forall i | 0 <= i < |hs|
      ensures Holds(parts[i], ArmTruths(hs, t0, t1)[i]) && (parts[i].Ok? <==> Bracketed(rs[i], t0, t1))
    {
      ReadingSound(hs[i], rs[i], t0, t1);
      if rs[i].listed {
        Envoy.TargetSound(hs[i], rs[i].samples, rs[i].scrapes, rs[i].snap, t0, t1);
      }
    }
    SumSound(parts, ArmTruths(hs, t0, t1));
  }

  /** The dense counter has a sample in the window. */
  ghost predicate HasDense(v: Evidence) {
    v.dense.Some? && exists x :: x in v.dense.value && K6.Visible(x, v.t0, v.exporter.start, v.end)
  }

  ghost predicate AllTailed(v: Evidence, series: seq<seq<K6.Sample>>) {
    forall i :: 0 <= i < |series| ==> K6.Tailed(series[i], v.t0, v.t1, v.exporter.start, v.end, true)
  }

  /** The failures are bounded: by the dense counter where the run has it, else by the built-in one. */
  ghost predicate FailuresTailed(v: Evidence) {
    if HasDense(v) then K6.Tailed(v.dense.value, v.t0, v.t1, v.exporter.start, v.end, false) else AllTailed(v, v.failed)
  }

  function BuiltinBounds(v: Evidence): Result<Bounds, K6.Problem> {
    SumOf(K6.SeriesParts(v.failed, v.t0, v.t1, v.exporter.start, v.end, K6.LAG, true))
  }

  lemma DenseInAnswer(v: Evidence)
    requires v.dense.Some?
    ensures HasDense(v) <==> K6.InAnswer(v.dense.value, v.t0, v.exporter.start, v.end)
  {
    var w := K6.Window(v.dense.value, K6.Max(v.t0 - K6.SHORT, v.exporter.start), v.end);
    assert forall x :: x in w <==> x in v.dense.value && K6.Visible(x, v.t0, v.exporter.start, v.end);
    assert w != [] ==> w[0] in w;
  }

  /** What bounds the failures: the dense counter where the run has it, else the built-in one. */
  function FailureSource(v: Evidence): Result<Bounds, K6.Problem> {
    if v.dense.Some? && K6.InAnswer(v.dense.value, v.t0, v.exporter.start, v.end)
    then K6.SeriesBounds(v.dense.value, v.t0, v.t1, v.exporter.start, v.end, K6.LAG, false)
    else BuiltinBounds(v)
  }

  ghost predicate Sound(b: Result<Bounds, K6.Problem>, truth: nat) {
    Holds(b, truth) && (b.Err? ==> b.error == K6.UnboundedTail)
  }

  lemma BuiltinSound(v: Evidence, w: World)
    requires |w.failed| == |v.failed| && v.exporter.Checked(v.t0, v.t1, v.end)
    requires forall i :: 0 <= i < |w.failed| ==> v.exporter.Produced(w.failed[i], v.failed[i], K6.LAG)
    ensures Sound(BuiltinBounds(v), w.Failures(v)) && (BuiltinBounds(v).Ok? <==> AllTailed(v, v.failed))
  {
    K6.CounterSound(v.exporter, w.failed, v.failed, v.t0, v.t1, v.end, true);
    K6.CounterIff(v.exporter, w.failed, v.failed, v.t0, v.t1, v.end, true);
  }

  lemma DroppedSound(v: Evidence, w: World)
    requires |w.dropped| == |v.dropped| && v.exporter.Checked(v.t0, v.t1, v.end)
    requires forall i :: 0 <= i < |w.dropped| ==> v.exporter.Produced(w.dropped[i], v.dropped[i], K6.LAG)
    ensures Sound(DroppedBounds(v), w.Drops(v)) && (DroppedBounds(v).Ok? <==> AllTailed(v, v.dropped))
  {
    K6.CounterSound(v.exporter, w.dropped, v.dropped, v.t0, v.t1, v.end, true);
    K6.CounterIff(v.exporter, w.dropped, v.dropped, v.t0, v.t1, v.end, true);
  }

  lemma DenseSound(v: Evidence, w: World)
    requires v.dense.Some? && v.exporter.Produced(w.dense, v.dense.value, K6.LAG)
    requires v.exporter.Checked(v.t0, v.t1, v.end)
    ensures var b := K6.SeriesBounds(v.dense.value, v.t0, v.t1, v.exporter.start, v.end, K6.LAG, false);
            && Sound(b, Total(w.dense, K6.InHour(v.t0, v.t1)))
            && (b.Ok? <==> K6.Tailed(v.dense.value, v.t0, v.t1, v.exporter.start, v.end, false))
  {
    K6.SeriesSound(v.exporter, w.dense, v.dense.value, v.t0, v.t1, v.end, false);
  }

  /** A lawful run's two failure counters never disagree, so the source decides alone. */
  lemma FailedBoundsAre(v: Evidence, w: World)
    requires w.Behind(v) && v.exporter.Checked(v.t0, v.t1, v.end)
    ensures FailedBounds(v) == FailureSource(v) && Sound(FailedBounds(v), w.Failures(v))
    ensures FailedBounds(v).Ok? <==> FailuresTailed(v)
  {
    BuiltinSound(v, w);
    if v.dense.Some? {
      DenseInAnswer(v);
      DenseSound(v, w);
      ChooseFailedSound(BuiltinBounds(v), if HasDense(v) then Some(FailureSource(v)) else None, w.Failures(v));
    }
  }

  /** The container precedes the hour, and from the hour's start to 610 s past its end every instant has heartbeats on
      both sides at most 15 s apart, none of them after the query's end. */
  ghost predicate HeartbeatsCover(v: Evidence) {
    && v.exporter.start <= v.t0 <= v.t1
    && (forall x :: v.t0 <= x <= v.t1 + 610_000 ==> K6.Bracketed(v.exporter.heartbeats, x, 15_000))
    && forall h :: h in v.exporter.heartbeats ==> h <= v.end
  }

  lemma CheckedIff(v: Evidence)
    ensures v.exporter.Checked(v.t0, v.t1, v.end) <==> HeartbeatsCover(v)
  {
    if v.t0 <= v.t1 {
      K6.CoversMeaning(v.exporter.heartbeats, v.t0, v.t1 + 610_000, 15_000);
    }
  }

  /** Everything the collector needs before it can grade the hour. */
  ghost predicate Gradable(v: Evidence) {
    && v.ready && v.latencyKnown && HeartbeatsCover(v)
    && (forall i :: 0 <= i < |v.arm| ==> Bracketed(v.arm[i], v.t0, v.t1))
    && FailuresTailed(v) && AllTailed(v, v.dropped)
  }

  /** Observed within 5 % of the plan, at most one in 1000 failed and one in 2000 dropped. */
  predicate OnPlan(planned: real, observed: real, failed: real, dropped: real) {
    19.0 * planned <= 20.0 * observed <= 21.0 * planned && 1000.0 * failed <= planned && 2000.0 * dropped <= planned
  }

  /** Whatever the counts inside the bounds, the criteria are met (or whatever they are, one is not). */
  ghost predicate Agreed(planned: real, o: Bounds, f: Bounds, d: Bounds, met: bool) {
    forall x, y, z :: Inside(o, x) && Inside(f, y) && Inside(d, z) ==> (OnPlan(planned, x, y, z) <==> met)
  }

  lemma GradableIff(v: Evidence, w: World)
    requires w.Behind(v) && v.exporter.Checked(v.t0, v.t1, v.end)
    ensures Gradable(v) <==> v.ready && v.latencyKnown && SumOf(ArmParts(v.arm, v.t0, v.t1)).Ok?
                             && FailedBounds(v).Ok? && DroppedBounds(v).Ok?
  {
    CheckedIff(v);
    ArmIff(w.arm, v.arm, v.t0, v.t1);
    FailedBoundsAre(v, w);
    DroppedSound(v, w);
  }

  lemma BoundsNonEmpty(v: Evidence, w: World, o: Bounds, f: Bounds, d: Bounds)
    requires w.Behind(v) && v.exporter.Checked(v.t0, v.t1, v.end)
    requires SumOf(ArmParts(v.arm, v.t0, v.t1)) == Ok(o) && FailedBounds(v) == Ok(f) && DroppedBounds(v) == Ok(d)
    ensures o.low <= o.high && f.low <= f.high && d.low <= d.high && FailureSource(v) == Ok(f)
  {
    ArmSound(w.arm, v.arm, v.t0, v.t1);
    FailedBoundsAre(v, w);
    DroppedSound(v, w);
  }

  /**
   When an hour is decided, for every lawful run: exactly when it is gradable and all counts inside its bounds agree.
   It is INCOMPLETE for no other reason.
   */
  lemma HourDecidedIff(planned: real, v: Evidence, w: World) returns (o: Bounds, f: Bounds, d: Bounds)
    requires 0.0 <= planned && w.Behind(v)
    ensures Collect(planned, v) == Pass <==> Gradable(v) && Agreed(planned, o, f, d, true)
    ensures Collect(planned, v) == Fail <==> Gradable(v) && Agreed(planned, o, f, d, false)
    ensures Gradable(v) ==> SumOf(ArmParts(v.arm, v.t0, v.t1)) == Ok(o) && DroppedBounds(v) == Ok(d)
                            && FailureSource(v) == Ok(f)
  {
    var zero := Bounds(0, 0);
    o, f, d := zero, zero, zero;
    CheckedIff(v);
    if v.exporter.Checked(v.t0, v.t1, v.end) {
      GradableIff(v, w);
      if Gradable(v) {
        o, f, d := SumOf(ArmParts(v.arm, v.t0, v.t1)).value, FailedBounds(v).value, DroppedBounds(v).value;
        BoundsNonEmpty(v, w, o, f, d);
        GateAgreed(planned, o, f, d);
        assert Collect(planned, v) == Gate(planned, o, f, d);
      }
    }
  }

  lemma GateAgreed(planned: real, o: Bounds, f: Bounds, d: Bounds)
    requires 0.0 <= planned && o.low <= o.high && f.low <= f.high && d.low <= d.high
    ensures Gate(planned, o, f, d) == Pass <==> Agreed(planned, o, f, d, true)
    ensures Gate(planned, o, f, d) == Fail <==> Agreed(planned, o, f, d, false)
  {
    GateExact(planned, o, f, d);
    forall x, y, z ensures Meets(planned, x, y, z) <==> OnPlan(planned, x, y, z) {
    }
  }
}
