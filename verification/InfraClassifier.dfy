/**
 Slot and target classification of the infrastructure-event detector (deploy/prodcluster/infra_events.py): washout,
 priorities, gate hours and declared mask intervals, and what a `verified_clean` slot implies.
 */
module InfraClassifier {
  import opened Wrappers
  import opened Ordering
  import opened InfraSeries
  import opened InfraRuns
  import opened InfraEvents

  const WASHOUT := HOUR
  const TARGET_LOOKBACK := 90_000
  const HB_GAP := 30_000

  datatype Verdict = VerifiedClean | GateFail | Unverified | UnknownSlot | InvalidSlot {
    /** Worse verdicts have higher ranks. */
    function Rank(): nat {
      match this
      case VerifiedClean => 0
      case GateFail => 1
      case Unverified => 2
      case UnknownSlot => 3
      case InvalidSlot => 4
    }
  }

  function WorseOf(a: Verdict, b: Verdict): Verdict { if a.Rank() < b.Rank() then b else a }

  // ---------- gate hours ----------

  datatype GateStatus = HourVerified | HourGateFail | HourUnverified

  /** One arm's load-gate row of one hour, as far as classification reads it. */
  datatype Row = Row(pass: bool, fail: bool, finalized: bool, qualifies: bool)

  function GateOf(rows: Option<map<string, Row>>, arms: set<string>): GateStatus {
    if rows.None? || rows.value.Keys != arms then HourUnverified
    else
      var ok := (r: Row) => r.pass && r.finalized && r.qualifies;
      if forall a :: a in rows.value ==> ok(rows.value[a]) then HourVerified
      else if forall a :: a in rows.value ==> ok(rows.value[a]) || (rows.value[a].fail && rows.value[a].finalized)
      then HourGateFail
      else HourUnverified
  }

  /** Every hour's gate status, from the rows read for it. */
  function GatesOf(rows: map<int, map<string, Row>>, arms: set<string>): map<int, GateStatus> {
    map h | h in rows :: GateOf(Some(rows[h]), arms)
  }

  /** The hour has exactly the arms' rows, each a finalized qualifying PASS. */
  ghost predicate Qualified(rows: map<int, map<string, Row>>, arms: set<string>, h: int) {
    && h in rows && rows[h].Keys == arms
    && forall a :: a in arms ==> rows[h][a].pass && rows[h][a].finalized && rows[h][a].qualifies
  }

  /** A verified hour is a qualified one, and conversely. */
  lemma VerifiedIff(rows: map<int, map<string, Row>>, arms: set<string>, h: int)
    ensures HourStatus(GatesOf(rows, arms), h) == HourVerified <==> Qualified(rows, arms, h)
  {
    if h in rows && rows[h].Keys == arms {
      assert (forall a :: a in rows[h] ==> rows[h][a].pass && rows[h][a].finalized && rows[h][a].qualifies)
             <==> Qualified(rows, arms, h);
    }
  }

  /** It is a gate failure exactly when it has the arms' rows, all final, and some of them a FAIL. */
  lemma GateFailIff(rows: map<int, map<string, Row>>, arms: set<string>, h: int)
    ensures HourStatus(GatesOf(rows, arms), h) == HourGateFail
       <==> && h in rows && rows[h].Keys == arms && !Qualified(rows, arms, h)
            && forall a :: a in arms ==> var r := rows[h][a];
                             r.finalized && ((r.pass && r.qualifies) || r.fail)
  {
    if h in rows && rows[h].Keys == arms {
      VerifiedIff(rows, arms, h);
      assert forall a :: a in arms <==> a in rows[h];
    }
  }

  function HourOf(t: int): int { t - t % HOUR }

  function HourStatus(gates: map<int, GateStatus>, h: int): GateStatus {
    if h in gates then gates[h] else HourUnverified
  }

  // ---------- the classifier ----------

  /** The interval a verdict is about; `closed` includes its end. */
  datatype Query = Query(s: int, e: int, closed: bool)

  predicate Hits(g: Segment, q: Query) {
    g.a <= q.e && g.b >= q.s && (q.closed || g.a < q.e)
  }

  function Washed(g: Segment): Segment { Segment(g.a, g.b + WASHOUT, g.status) }

  function WashedEvent(gs: seq<Segment>): (r: seq<Segment>)
    ensures |r| == |gs| && forall i :: 0 <= i < |gs| ==> r[i] == Washed(gs[i])
  {
    seq(|gs|, i requires 0 <= i < |gs| => Washed(gs[i]))
  }

  function Build(events: seq<Event>, unknown: seq<Span>, coverageWashout: int): seq<Segment> {
    if events != [] then WashedEvent(events[0].segments) + Build(events[1..], unknown, coverageWashout)
    else if unknown != [] then
      [Segment(unknown[0].a, unknown[0].b + coverageWashout, Unknown)] + Build([], unknown[1..], coverageWashout)
    else []
  }

  function Worst(segs: seq<Segment>, gates: map<int, GateStatus>, q: Query, hours: set<int>): Verdict {
    if exists g :: g in segs && g.status == Invalid && Hits(g, q) then InvalidSlot
    else if exists g :: g in segs && g.status == Unknown && Hits(g, q) then UnknownSlot
    else if exists h :: h in hours && HourStatus(gates, h) == HourUnverified then Unverified
    else if exists h :: h in hours && HourStatus(gates, h) == HourGateFail then GateFail
    else VerifiedClean
  }

  function HoursOf(a: int, b: int): set<int> { set h | HourOf(a) <= h < b && h % HOUR == 0 }

  /** A capacity interval [a, b). */
  function Capacity(segs: seq<Segment>, gates: map<int, GateStatus>, a: int, b: int): Verdict {
    Worst(segs, gates, Query(a, b, false), HoursOf(a, b))
  }

  /** A forecast target at t depends on [t - 90 s, t] and on every gate hour that span touches. */
  function TargetClass(segs: seq<Segment>, gates: map<int, GateStatus>, t: int): Verdict {
    Worst(segs, gates, Query(t - TARGET_LOOKBACK, t, true), {HourOf(t - TARGET_LOOKBACK), HourOf(t)})
  }

  // ---------- membership of a build ----------

  ghost predicate FromEvents(events: seq<Event>, g: Segment) {
    exists e, s :: e in events && s in e.segments && g == Washed(s)
  }

  ghost predicate FromUnknown(unknown: seq<Span>, washout: int, g: Segment) {
    exists u :: u in unknown && g == Segment(u.a, u.b + washout, Unknown)
  }

  lemma {:induction false} BuildMembers(events: seq<Event>, unknown: seq<Span>, washout: int, g: Segment)
    ensures g in Build(events, unknown, washout) <==> FromEvents(events, g) || FromUnknown(unknown, washout, g)
    decreases |events|, |unknown|
  {
    if events != [] {
      BuildMembers(events[1..], unknown, washout, g);
      var ws := WashedEvent(events[0].segments);
      if g in ws {
        var i :| 0 <= i < |ws| && ws[i] == g;
        assert events[0] in events && events[0].segments[i] in events[0].segments;
      }
      if FromEvents(events[1..], g) {
        var e, s :| e in events[1..] && s in e.segments && g == Washed(s);
        assert e in events;
      }
      if FromEvents(events, g) {
        var e, s :| e in events && s in e.segments && g == Washed(s);
        if e == events[0] {
          var i :| 0 <= i < |e.segments| && e.segments[i] == s;
          assert ws[i] == g;
        } else {
          assert e in events[1..];
        }
      }
    } else if unknown != [] {
      BuildMembers([], unknown[1..], washout, g);
      if FromUnknown(unknown, washout, g) {
        var u :| u in unknown && g == Segment(u.a, u.b + washout, Unknown);
        assert u == unknown[0] || u in unknown[1..];
      }
      assert forall u :: u in unknown[1..] ==> u in unknown;
    }
  }

  // ---------- classification is monotone and additive ----------

  /** Adding segments never improves a verdict. */
  lemma MoreSegmentsNeverImprove(segs: seq<Segment>, more: seq<Segment>, gates: map<int, GateStatus>, q: Query,
                                 hours: set<int>)
    requires forall g :: g in segs ==> g in more
    ensures Worst(segs, gates, q, hours).Rank() <= Worst(more, gates, q, hours).Rank()
  {
  }

  lemma HoursUnion(a: int, b: int, c: int)
    requires a <= b <= c
    ensures HoursOf(a, c) == HoursOf(a, b) + HoursOf(b, c)
  {
  }

  predicate AsBad(s: Status, t: Status) { s == Invalid || (s == Unknown && t == Unknown) }

  /** A segment at least as bad as the status hits the query. */
  ghost predicate Struck(segs: seq<Segment>, status: Status, q: Query) {
    exists g :: g in segs && AsBad(g.status, status) && Hits(g, q)
  }

  lemma VerdictIff(segs: seq<Segment>, gates: map<int, GateStatus>, q: Query, hours: set<int>)
    ensures Worst(segs, gates, q, hours).Rank() >= InvalidSlot.Rank() <==> Struck(segs, Invalid, q)
    ensures Worst(segs, gates, q, hours).Rank() >= UnknownSlot.Rank() <==> Struck(segs, Unknown, q)
  {
    if g :| g in segs && AsBad(g.status, Unknown) && Hits(g, q) {
      assert g.status == Invalid || g.status == Unknown;
    }
  }

  /** The class of [a, c) is the worse of the classes of [a, b) and [b, c). */
  ghost predicate SplitsAt(segs: seq<Segment>, gates: map<int, GateStatus>, a: int, b: int, c: int) {
    Capacity(segs, gates, a, c) == WorseOf(Capacity(segs, gates, a, b), Capacity(segs, gates, b, c))
  }

  /** The class law: it is so at every cut of every interval. */
  ghost predicate CapacityLaw(segs: seq<Segment>, gates: map<int, GateStatus>) {
    forall a, b, c :: a <= b <= c ==> SplitsAt(segs, gates, a, b, c)
  }

  predicate Reversed(g: Segment) { g.b < g.a }

  /** An ordered segment at least as bad reaches into the stretch that the reversed one leaves open. */
  predicate Backs(o: Segment, r: Segment) {
    !Reversed(o) && AsBad(o.status, r.status) && Hits(o, Query(r.b, r.a + 1, false))
  }

  /** Every reversed segment that counts has such a segment. */
  ghost predicate AllBacked(segs: seq<Segment>) {
    forall r :: r in segs && r.status != SystemOutcome && Reversed(r) ==> exists o :: o in segs && Backs(o, r)
  }

  lemma StruckWhole(segs: seq<Segment>, status: Status, a: int, b: int, c: int)
    requires a <= b <= c
    requires Struck(segs, status, Query(a, b, false)) || Struck(segs, status, Query(b, c, false))
    ensures Struck(segs, status, Query(a, c, false))
  {
    var q := if Struck(segs, status, Query(a, b, false)) then Query(a, b, false) else Query(b, c, false);
    var g :| g in segs && AsBad(g.status, status) && Hits(g, q);
    assert Hits(g, Query(a, c, false));
  }

  lemma StruckPart(segs: seq<Segment>, status: Status, a: int, b: int, c: int)
    requires a <= b <= c && AllBacked(segs) && status != SystemOutcome && Struck(segs, status, Query(a, c, false))
    ensures Struck(segs, status, Query(a, b, false)) || Struck(segs, status, Query(b, c, false))
  {
    var o :| o in segs && AsBad(o.status, status) && Hits(o, Query(a, c, false));
    if Reversed(o) {
      var r := o;
      o :| o in segs && Backs(o, r);
    }
    assert Hits(o, Query(a, b, false)) || Hits(o, Query(b, c, false));
  }

  lemma BackedSplits(segs: seq<Segment>, gates: map<int, GateStatus>, a: int, b: int, c: int)
    requires a <= b <= c && AllBacked(segs)
    ensures SplitsAt(segs, gates, a, b, c)
  {
    forall status | status != SystemOutcome
      ensures Struck(segs, status, Query(a, c, false))
         <==> Struck(segs, status, Query(a, b, false)) || Struck(segs, status, Query(b, c, false))
    {
      if Struck(segs, status, Query(a, c, false)) {
        StruckPart(segs, status, a, b, c);
      } else if Struck(segs, status, Query(a, b, false)) || Struck(segs, status, Query(b, c, false)) {
        StruckWhole(segs, status, a, b, c);
      }
    }
    VerdictIff(segs, gates, Query(a, c, false), HoursOf(a, c));
    VerdictIff(segs, gates, Query(a, b, false), HoursOf(a, b));
    VerdictIff(segs, gates, Query(b, c, false), HoursOf(b, c));
    HoursUnion(a, b, c);
  }

  /** Under the law something else hits a part of what a reversed segment hits, and the shorter part again. */
  lemma {:induction false} LawBacks(segs: seq<Segment>, gates: map<int, GateStatus>, r: Segment) returns (o: Segment)
    requires CapacityLaw(segs, gates) && r in segs && r.status != SystemOutcome && Reversed(r)
    ensures o in segs && Backs(o, r)
    decreases r.a - r.b
  {
    o := HitsPart(segs, gates, r);
    if Reversed(o) {
      o := LawBacks(segs, gates, o);
    }
  }

  lemma HitsPart(segs: seq<Segment>, gates: map<int, GateStatus>, r: Segment) returns (g: Segment)
    requires CapacityLaw(segs, gates) && r in segs && r.status != SystemOutcome && Reversed(r)
    ensures g in segs && AsBad(g.status, r.status)
    ensures Hits(g, Query(r.b, r.a, false)) || Hits(g, Query(r.a, r.a + 1, false))
  {
    assert SplitsAt(segs, gates, r.b, r.a, r.a + 1);
    var whole, left, right := Query(r.b, r.a + 1, false), Query(r.b, r.a, false), Query(r.a, r.a + 1, false);
    VerdictIff(segs, gates, whole, HoursOf(r.b, r.a + 1));
    VerdictIff(segs, gates, left, HoursOf(r.b, r.a));
    VerdictIff(segs, gates, right, HoursOf(r.a, r.a + 1));
    assert Struck(segs, r.status, whole);
    if Struck(segs, r.status, left) {
      g :| g in segs && AsBad(g.status, r.status) && Hits(g, left);
    } else {
      g :| g in segs && AsBad(g.status, r.status) && Hits(g, right);
    }
  }

  /**
   Exactly when the class law holds, for any segments and any gates: every reversed segment that counts has an ordered
   one at least as bad that reaches into the stretch between its end and its start.
   */
  lemma CapacityLawIff(segs: seq<Segment>, gates: map<int, GateStatus>)
    ensures CapacityLaw(segs, gates) <==> AllBacked(segs)
  {
    if AllBacked(segs) {
      forall a, b, c | a <= b <= c ensures SplitsAt(segs, gates, a, b, c) {
        BackedSplits(segs, gates, a, b, c);
      }
    }
    if CapacityLaw(segs, gates) {
      forall r | r in segs && r.status != SystemOutcome && Reversed(r) ensures exists o :: o in segs && Backs(o, r) {
        var o := LawBacks(segs, gates, r);
      }
    }
  }

  /** Exactly the segments that do not end before they start obey the law at every cut: a reversed one can hit a whole
      interval and neither part. */
  lemma SegmentSplitsIff(g: Segment)
    ensures g.a <= g.b
       <==> forall a, b, c :: a <= b <= c ==> (Hits(g, Query(a, c, false))
                                               <==> Hits(g, Query(a, b, false)) || Hits(g, Query(b, c, false)))
  {
    if g.b < g.a {
      assert Hits(g, Query(g.b, g.a + 1, false));
      assert !Hits(g, Query(g.b, g.a, false)) && !Hits(g, Query(g.a, g.a + 1, false));
    }
  }

  // ---------- declared mask intervals ----------

  /** A mask explains a generator event within one heartbeat spacing. */
  predicate Explains(m: Span, e: Event) {
    e.id.class_ == Generator && m.a - HB_GAP <= e.start && e.end <= m.b + HB_GAP
  }

  /** The parts of a segment outside the mask keep their status. */
  function ClipSegment(g: Segment, m: Span): seq<Segment> {
    (if g.a < m.a then [Segment(g.a, if g.b < m.a then g.b else m.a, g.status)] else [])
    + (if g.b > m.b then [Segment(if g.a > m.b then g.a else m.b, g.b, g.status)] else [])
  }

  function ClipSegments(gs: seq<Segment>, m: Span): seq<Segment> {
    if gs == [] then [] else ClipSegment(gs[0], m) + ClipSegments(gs[1..], m)
  }

  /** The first mask that explains the event clips it. */
  function ClipEvent(e: Event, masks: seq<Span>): Event {
    if masks == [] then e
    else if Explains(masks[0], e) then e.(segments := ClipSegments(e.segments, masks[0]))
    else ClipEvent(e, masks[1..])
  }

  function ClipAll(events: seq<Event>, masks: seq<Span>): (r: seq<Event>)
    ensures |r| == |events| && forall i :: 0 <= i < |events| ==> r[i] == ClipEvent(events[i], masks)
  {
    seq(|events|, i requires 0 <= i < |events| => ClipEvent(events[i], masks))
  }

  /** The mask reaches over the generator event, with half a minute to spare on each side. */
  predicate Spans(m: Span, e: Event) { e.id.class_ == Generator && m.a - 30_000 <= e.start && e.end <= m.b + 30_000 }

  /** x is left of a segment clipped by a mask: in the part up to the mask's start, or in the part from its end on. */
  predicate LeftAt(g: Segment, m: Span, x: int) {
    g.a <= x <= g.b && ((x <= m.a && g.a < m.a) || (m.b <= x && m.b < g.b))
  }

  ghost predicate ClippedAt(gs: seq<Segment>, m: Span, x: int, status: Status) {
    exists g :: g in gs && g.status == status && LeftAt(g, m, x)
  }

  lemma ClipSegmentIs(g: Segment, m: Span, x: int, status: Status)
    ensures Covered(ClipSegment(g, m), x, status) <==> g.status == status && LeftAt(g, m, x)
  {
    var first := Segment(g.a, if g.b < m.a then g.b else m.a, g.status);
    var second := Segment(if g.a > m.b then g.a else m.b, g.b, g.status);
    var one := if g.a < m.a then [first] else [];
    var two := if g.b > m.b then [second] else [];
    assert ClipSegment(g, m) == one + two;
    CoveredConcat(one, two, x, status);
    CoveredOne(first, x);
    CoveredOne(second, x);
  }

  lemma {:induction false} ClipSegmentsAre(gs: seq<Segment>, m: Span, x: int, status: Status)
    ensures Covered(ClipSegments(gs, m), x, status) <==> ClippedAt(gs, m, x, status)
  {
    if gs != [] {
      ClipSegmentIs(gs[0], m, x, status);
      ClipSegmentsAre(gs[1..], m, x, status);
      CoveredConcat(ClipSegment(gs[0], m), ClipSegments(gs[1..], m), x, status);
      assert gs[0] in gs && forall g :: g in gs <==> g == gs[0] || g in gs[1..];
    }
  }

  /** Which events are clipped, and what is left of them: the first mask that spans a generator event takes out of each
      segment what lies inside the mask; every other event is left as it is. */
  lemma {:induction false} ClipEventIs(e: Event, masks: seq<Span>, x: int, status: Status)
    ensures var c := ClipEvent(e, masks);
            && c.(segments := e.segments) == e
            && ((forall m :: m in masks ==> !Spans(m, e)) ==> c == e)
            && (forall i ::
                  0 <= i < |masks| && Spans(masks[i], e) && (forall j :: 0 <= j < i ==> !Spans(masks[j], e)) ==>
                  (Covered(c.segments, x, status) <==> ClippedAt(e.segments, masks[i], x, status)))
  {
    if masks != [] {
      if Spans(masks[0], e) {
        ClipSegmentsAre(e.segments, masks[0], x, status);
        assert masks[0] in masks;
      } else {
        ClipEventIs(e, masks[1..], x, status);
        forall i | 0 < i < |masks| ensures masks[i] == masks[1..][i - 1] {
        }
      }
    }
  }

  /** The in-place pass over the event list. */
  method ExplainByMasks(events: seq<Event>, masks: seq<Span>) returns (r: seq<Event>)
    ensures r == ClipAll(events, masks)
  {
    r := events;
    var i := 0;
    while i < |r|
      invariant 0 <= i <= |r| == |events|
      invariant forall k :: 0 <= k < i ==> r[k] == ClipEvent(events[k], masks)
      invariant forall k :: i <= k < |r| ==> r[k] == events[k]
    {
      var j := 0;
      while j < |masks|
        invariant 0 <= j <= |masks|
        invariant r[i] == events[i] && ClipEvent(events[i], masks) == ClipEvent(events[i], masks[j..])
        invariant |r| == |events| && (forall k :: 0 <= k < i ==> r[k] == ClipEvent(events[k], masks))
        invariant forall k :: i <= k < |r| ==> r[k] == events[k]
      {
        if Explains(masks[j], r[i]) {
          r := r[i := r[i].(segments := ClipSegments(r[i].segments, masks[j]))];
          break;
        }
        assert masks[j..][1..] == masks[j + 1..];
        j := j + 1;
      }
      i := i + 1;
    }
  }

  /** Outside the mask and its washout, a clipped segment covers what the whole one did. */
  lemma ClipCovers(g: Segment, m: Span, q: Query)
    requires q.s <= q.e && !Hits(Segment(m.a, m.b + WASHOUT, Invalid), q)
    ensures Hits(Washed(g), q) <==> exists c :: c in ClipSegment(g, m) && c.status == g.status && Hits(Washed(c), q)
  {
    var first := Segment(g.a, if g.b < m.a then g.b else m.a, g.status);
    var second := Segment(if g.a > m.b then g.a else m.b, g.b, g.status);
    assert g.a < m.a ==> first in ClipSegment(g, m);
    assert g.b > m.b ==> second in ClipSegment(g, m);
  }

  lemma ClipSegmentsCover(gs: seq<Segment>, m: Span, q: Query, status: Status)
    requires q.s <= q.e && !Hits(Segment(m.a, m.b + WASHOUT, Invalid), q)
    ensures SegmentHit(gs, q, status) <==> SegmentHit(ClipSegments(gs, m), q, status)
  {
    if SegmentHit(gs, q, status) {
      ClipSegmentsKeep(gs, m, q, status);
    }
    if SegmentHit(ClipSegments(gs, m), q, status) {
      ClipSegmentsAdd(gs, m, q, status);
    }
  }

  lemma {:induction false} ClipSegmentsKeep(gs: seq<Segment>, m: Span, q: Query, status: Status)
    requires q.s <= q.e && !Hits(Segment(m.a, m.b + WASHOUT, Invalid), q) && SegmentHit(gs, q, status)
    ensures SegmentHit(ClipSegments(gs, m), q, status)
  {
    var g :| g in gs && g.status == status && Hits(Washed(g), q);
    if g == gs[0] {
      ClipCovers(g, m, q);
      var c :| c in ClipSegment(g, m) && c.status == g.status && Hits(Washed(c), q);
      assert c in ClipSegments(gs, m);
    } else {
      assert g in gs[1..];
      ClipSegmentsKeep(gs[1..], m, q, status);
      var c :| c in ClipSegments(gs[1..], m) && c.status == status && Hits(Washed(c), q);
      assert c in ClipSegments(gs, m);
    }
  }

  lemma {:induction false} ClipSegmentsAdd(gs: seq<Segment>, m: Span, q: Query, status: Status)
    requires q.s <= q.e && !Hits(Segment(m.a, m.b + WASHOUT, Invalid), q) && SegmentHit(ClipSegments(gs, m), q, status)
    ensures SegmentHit(gs, q, status)
  {
    var c :| c in ClipSegments(gs, m) && c.status == status && Hits(Washed(c), q);
    if c in ClipSegment(gs[0], m) {
      ClipCovers(gs[0], m, q);
      assert gs[0] in gs && gs[0].status == status;
    } else {
      assert c in ClipSegments(gs[1..], m);
      ClipSegmentsAdd(gs[1..], m, q, status);
      var g :| g in gs[1..] && g.status == status && Hits(Washed(g), q);
      assert g in gs;
    }
  }

  ghost predicate SegmentHit(gs: seq<Segment>, q: Query, status: Status) {
    exists g :: g in gs && g.status == status && Hits(Washed(g), q)
  }

  lemma {:induction false} ClipEventCovers(e: Event, masks: seq<Span>, q: Query, status: Status)
    requires q.s <= q.e && forall m :: m in masks ==> !Hits(Segment(m.a, m.b + WASHOUT, Invalid), q)
    ensures SegmentHit(e.segments, q, status) <==> SegmentHit(ClipEvent(e, masks).segments, q, status)
  {
    if masks != [] {
      assert masks[0] in masks && forall m :: m in masks[1..] ==> m in masks;
      if Explains(masks[0], e) {
        ClipSegmentsCover(e.segments, masks[0], q, status);
      } else {
        ClipEventCovers(e, masks[1..], q, status);
      }
    }
  }

  ghost predicate EventHit(events: seq<Event>, q: Query, status: Status) {
    exists i :: 0 <= i < |events| && SegmentHit(events[i].segments, q, status)
  }

  /** Every mask is itself an event with its interval as an invalid segment. */
  ghost predicate MasksDeclared(events: seq<Event>, masks: seq<Span>) {
    forall m :: m in masks ==> exists i :: 0 <= i < |events| && events[i].id.class_ == Mask
                                           && events[i].segments == [Segment(m.a, m.b, Invalid)]
  }

  lemma {:induction false} ClipKeepsOthers(e: Event, masks: seq<Span>)
    requires e.id.class_ != Generator
    ensures ClipEvent(e, masks) == e
  {
    if masks != [] {
      ClipKeepsOthers(e, masks[1..]);
    }
  }

  lemma ClipKeepsHits(events: seq<Event>, masks: seq<Span>, q: Query)
    requires q.s <= q.e && MasksDeclared(events, masks)
    ensures EventHit(events, q, Invalid) <==> EventHit(ClipAll(events, masks), q, Invalid)
    ensures !EventHit(events, q, Invalid)
            ==> (EventHit(events, q, Unknown) <==> EventHit(ClipAll(events, masks), q, Unknown))
  {
    var clipped := ClipAll(events, masks);
    if m :| m in masks && Hits(Segment(m.a, m.b + WASHOUT, Invalid), q) {
      var i :| 0 <= i < |events| && events[i].id.class_ == Mask && events[i].segments == [Segment(m.a, m.b, Invalid)];
      ClipKeepsOthers(events[i], masks);
      assert events[i].segments[0] in events[i].segments;
      assert SegmentHit(events[i].segments, q, Invalid) && SegmentHit(clipped[i].segments, q, Invalid);
    } else {
      forall i, status | 0 <= i < |events|
        ensures SegmentHit(events[i].segments, q, status) <==> SegmentHit(clipped[i].segments, q, status)
      {
        ClipEventCovers(events[i], masks, q, status);
      }
    }
  }

  lemma BuildHit(events: seq<Event>, unknown: seq<Span>, washout: int, q: Query, status: Status)
    ensures (exists g :: g in Build(events, unknown, washout) && g.status == status && Hits(g, q))
       <==> EventHit(events, q, status) || SpanHit(unknown, washout, q, status)
  {
    if g :| g in Build(events, unknown, washout) && g.status == status && Hits(g, q) {
      MemberHits(events, unknown, washout, q, g);
    }
    if EventHit(events, q, status) {
      EventInBuild(events, unknown, washout, q, status);
    }
    if SpanHit(unknown, washout, q, status) {
      SpanInBuild(events, unknown, washout, q);
    }
  }

  ghost predicate SpanHit(unknown: seq<Span>, washout: int, q: Query, status: Status) {
    status == Unknown && exists u :: u in unknown && Hits(Segment(u.a, u.b + washout, Unknown), q)
  }

  lemma MemberHits(events: seq<Event>, unknown: seq<Span>, washout: int, q: Query, g: Segment)
    requires g in Build(events, unknown, washout) && Hits(g, q)
    ensures EventHit(events, q, g.status) || SpanHit(unknown, washout, q, g.status)
  {
    BuildMembers(events, unknown, washout, g);
    if FromEvents(events, g) {
      var e, s :| e in events && s in e.segments && g == Washed(s);
      var i :| 0 <= i < |events| && events[i] == e;
      assert SegmentHit(events[i].segments, q, g.status);
    }
  }

  lemma EventInBuild(events: seq<Event>, unknown: seq<Span>, washout: int, q: Query, status: Status)
    requires EventHit(events, q, status)
    ensures exists g :: g in Build(events, unknown, washout) && g.status == status && Hits(g, q)
  {
    var i :| 0 <= i < |events| && SegmentHit(events[i].segments, q, status);
    var s :| s in events[i].segments && s.status == status && Hits(Washed(s), q);
    assert events[i] in events;
    BuildMembers(events, unknown, washout, Washed(s));
  }

  lemma SpanInBuild(events: seq<Event>, unknown: seq<Span>, washout: int, q: Query)
    requires SpanHit(unknown, washout, q, Unknown)
    ensures exists g :: g in Build(events, unknown, washout) && g.status == Unknown && Hits(g, q)
  {
    var u :| u in unknown && Hits(Segment(u.a, u.b + washout, Unknown), q);
    BuildMembers(events, unknown, washout, Segment(u.a, u.b + washout, Unknown));
  }

  /** Clipping explained generator events changes no verdict on any interval: the mask itself covers the rest. */
  lemma ClippingChangesNoVerdict(events: seq<Event>, unknown: seq<Span>, masks: seq<Span>, gates: map<int, GateStatus>,
                                 q: Query, hours: set<int>)
    requires q.s <= q.e && MasksDeclared(events, masks)
    ensures Worst(Build(ClipAll(events, masks), unknown, WASHOUT), gates, q, hours)
         == Worst(Build(events, unknown, WASHOUT), gates, q, hours)
  {
    ClipKeepsHits(events, masks, q);
    BuildHit(events, unknown, WASHOUT, q, Invalid);
    BuildHit(events, unknown, WASHOUT, q, Unknown);
    BuildHit(ClipAll(events, masks), unknown, WASHOUT, q, Invalid);
    BuildHit(ClipAll(events, masks), unknown, WASHOUT, q, Unknown);
  }

  /** So it changes the class of no capacity slot and of no forecast target. */
  lemma ClippingChangesNoClass(events: seq<Event>, unknown: seq<Span>, masks: seq<Span>, gates: map<int, GateStatus>,
                               a: int, b: int, t: int)
    requires a <= b && MasksDeclared(events, masks)
    ensures Capacity(Build(ClipAll(events, masks), unknown, WASHOUT), gates, a, b)
         == Capacity(Build(events, unknown, WASHOUT), gates, a, b)
    ensures TargetClass(Build(ClipAll(events, masks), unknown, WASHOUT), gates, t)
         == TargetClass(Build(events, unknown, WASHOUT), gates, t)
  {
    var s := t - TARGET_LOOKBACK;
    ClippingChangesNoVerdict(events, unknown, masks, gates, Query(a, b, false), HoursOf(a, b));
    ClippingChangesNoVerdict(events, unknown, masks, gates, Query(s, t, true), {HourOf(s), HourOf(t)});
  }

  // ---------- the classifier's own input ----------

  /** A declared mask interval as an event. */
  function MaskEvent(lo: int, hi: int, att: map<Id, Attribution>, m: Span): Event {
    MakeEvent(lo, hi, att, Id(Mask, "validity-mask interval", "all arms", m.a), m.b, Some(m.a), Some(m.b), false, None)
  }

  /** An event of the detector other than a mask: its observations lie between the ones bracketing it. */
  ghost predicate ObservedEvent(lo: int, hi: int, att: map<Id, Attribution>, e: Event) {
    exists id: Id, last: int, before: Option<int>, after: Option<int>, candidate: bool, floor: Option<int> ::
      Fits(id.first, last, before, after) && e == MakeEvent(lo, hi, att, id, last, before, after, candidate, floor)
  }

  /** The events a worker contributes are observed ones. */
  lemma RunEventObserved(lo: int, hi: int, att: map<Id, Attribution>, node: string, since: Option<int>, obs: seq<Obs>,
                         i: nat, j: nat)
    requires StrictlyAscending(Times(obs)) && Stretch(obs, i, j)
    ensures ObservedEvent(lo, hi, att, RunEvent(lo, hi, att, node, since, RunAt(obs, i, j)))
  {
    assert forall a, b :: 0 <= a < b < |obs| ==> Times(obs)[a] < Times(obs)[b];
    var r := RunAt(obs, i, j);
    assert Fits(r.first, r.last, r.before, r.after);
    assert RunEvent(lo, hi, att, node, since, r) == MakeEvent(lo, hi, att, RunId(node, r), r.last, r.before,
        r.after, true, since);
  }

  /** Clipped or not, the segments give the same verdicts, so the law holds of both or of neither. */
  lemma ClippingKeepsLaw(events: seq<Event>, unknown: seq<Span>, masks: seq<Span>, gates: map<int, GateStatus>)
    requires MasksDeclared(events, masks)
    ensures CapacityLaw(Build(ClipAll(events, masks), unknown, WASHOUT), gates)
       <==> CapacityLaw(Build(events, unknown, WASHOUT), gates)
  {
    var clipped, segs := Build(ClipAll(events, masks), unknown, WASHOUT), Build(events, unknown, WASHOUT);
    forall a, b | a <= b ensures Capacity(clipped, gates, a, b) == Capacity(segs, gates, a, b) {
      ClippingChangesNoVerdict(events, unknown, masks, gates, Query(a, b, false), HoursOf(a, b));
    }
    forall a, b, c | a <= b <= c ensures SplitsAt(clipped, gates, a, b, c) <==> SplitsAt(segs, gates, a, b, c) {
    }
  }

  /** The law on what the classifier really gets, whatever the events: it holds if and only if, before clipping, every
      segment that ends more than the washout before it starts is backed. */
  lemma DetectedLawIff(events: seq<Event>, unknown: seq<Span>, masks: seq<Span>, gates: map<int, GateStatus>)
    requires MasksDeclared(events, masks)
    ensures CapacityLaw(Build(ClipAll(events, masks), unknown, WASHOUT), gates)
       <==> AllBacked(Build(events, unknown, WASHOUT))
  {
    ClippingKeepsLaw(events, unknown, masks, gates);
    CapacityLawIff(Build(events, unknown, WASHOUT), gates);
  }

  predicate MaskFits(m: Span) { m.a <= m.b + WASHOUT }

  function WashedMask(m: Span): Segment { Segment(m.a, m.b + WASHOUT, Invalid) }

  /** Nothing but declared masks ends more than the washout before it starts. */
  ghost predicate OnlyMasksReversed(events: seq<Event>, unknown: seq<Span>, masks: seq<Span>) {
    forall g :: g in Build(events, unknown, WASHOUT) && g.status != SystemOutcome && Reversed(g) ==>
                  exists m :: m in masks && g == WashedMask(m)
  }

  lemma ObservedInOrder(lo: int, hi: int, att: map<Id, Attribution>, e: Event, s: Segment)
    requires ObservedEvent(lo, hi, att, e) && s in e.segments
    ensures !Reversed(Washed(s))
  {
  }

  ghost predicate MaskedBy(masks: seq<Span>, e: Event) {
    exists m :: m in masks && e.segments == [Segment(m.a, m.b, Invalid)]
  }

  /** So it is when every other event lies between the observations that bracket it, as a worker's runs do, and the
      unknown spans are ordered, as they always are. */
  lemma ObservedLeavesMasks(lo: int, hi: int, att: map<Id, Attribution>, events: seq<Event>, unknown: seq<Span>,
                            masks: seq<Span>)
    requires forall e :: e in events ==> ObservedEvent(lo, hi, att, e) || MaskedBy(masks, e)
    requires forall u :: u in unknown ==> u.a <= u.b
    ensures OnlyMasksReversed(events, unknown, masks)
  {
    forall g | g in Build(events, unknown, WASHOUT) && g.status != SystemOutcome && Reversed(g)
      ensures exists m :: m in masks && g == WashedMask(m)
    {
      BuildMembers(events, unknown, WASHOUT, g);
      var e, s :| e in events && s in e.segments && g == Washed(s);
      if ObservedEvent(lo, hi, att, e) {
        ObservedInOrder(lo, hi, att, e, s);
      }
      var m :| m in masks && e.segments == [Segment(m.a, m.b, Invalid)];
      assert g == WashedMask(m);
    }
  }

  lemma MaskInBuild(events: seq<Event>, unknown: seq<Span>, masks: seq<Span>, m: Span)
    requires MasksDeclared(events, masks) && m in masks
    ensures WashedMask(m) in Build(events, unknown, WASHOUT)
  {
    var i :| 0 <= i < |events| && events[i].id.class_ == Mask && events[i].segments == [Segment(m.a, m.b, Invalid)];
    var e, s := events[i], Segment(m.a, m.b, Invalid);
    assert e in events && s in e.segments && WashedMask(m) == Washed(s);
    BuildMembers(events, unknown, WASHOUT, WashedMask(m));
  }

  /** When only masks can be reversed, the law holds if and only if every mask that does not fit is made up for by an
      invalid segment; in particular when all masks fit. */
  lemma MaskLawIff(events: seq<Event>, unknown: seq<Span>, masks: seq<Span>, gates: map<int, GateStatus>)
    requires MasksDeclared(events, masks) && OnlyMasksReversed(events, unknown, masks)
    ensures CapacityLaw(Build(ClipAll(events, masks), unknown, WASHOUT), gates)
       <==> forall m :: m in masks && !MaskFits(m) ==>
              exists o :: o in Build(events, unknown, WASHOUT) && Backs(o, WashedMask(m))
  {
    DetectedLawIff(events, unknown, masks, gates);
    forall m | m in masks ensures WashedMask(m) in Build(events, unknown, WASHOUT) {
      MaskInBuild(events, unknown, masks, m);
    }
  }

  /** A mask alone obeys the law exactly when it fits. */
  lemma LoneMaskLawIff(lo: int, hi: int, att: map<Id, Attribution>, m: Span, gates: map<int, GateStatus>)
    ensures CapacityLaw(Build(ClipAll([MaskEvent(lo, hi, att, m)], [m]), [], WASHOUT), gates) <==> MaskFits(m)
  {
    var e := MaskEvent(lo, hi, att, m);
    assert e.segments == [Segment(m.a, m.b, Invalid)];
    assert [e][0] == e && MasksDeclared([e], [m]);
    forall g | g in Build([e], [], WASHOUT) ensures g == WashedMask(m) {
      BuildMembers([e], [], WASHOUT, g);
    }
    MaskLawIff([e], [], [m], gates);
    assert m in [m];
  }

  /** Such a declaration is accepted: it ends after the window's start and starts before its end, yet an interval is
      invalid of which neither part is. */
  lemma ReversedMaskBreaksLaw(att: map<Id, Attribution>, gates: map<int, GateStatus>)
    ensures var m, lo, hi := Span(2 * HOUR, 0), -1, 3 * HOUR;
            var segs := Build(ClipAll([MaskEvent(lo, hi, att, m)], [m]), [], WASHOUT);
            && m.b > lo && m.a < hi && !MaskFits(m)
            && Capacity(segs, gates, HOUR, 2 * HOUR + 1) == InvalidSlot
            && Capacity(segs, gates, HOUR, 2 * HOUR) != InvalidSlot
            && Capacity(segs, gates, 2 * HOUR, 2 * HOUR + 1) != InvalidSlot
  {
    var m := Span(2 * HOUR, 0);
    var e := MaskEvent(-1, 3 * HOUR, att, m);
    assert e.segments == [Segment(m.a, m.b, Invalid)];
    ClipKeepsOthers(e, [m]);
    var segs := Build(ClipAll([e], [m]), [], WASHOUT);
    assert ClipAll([e], [m]) == [e] && e in [e] && e.segments[0] in e.segments;
    BuildMembers([e], [], WASHOUT, WashedMask(m));
    forall h | h in segs ensures h == WashedMask(m) {
      BuildMembers([e], [], WASHOUT, h);
    }
    assert Hits(WashedMask(m), Query(HOUR, 2 * HOUR + 1, false));
    assert !Hits(WashedMask(m), Query(HOUR, 2 * HOUR, false));
    assert !Hits(WashedMask(m), Query(2 * HOUR, 2 * HOUR + 1, false));
  }

  // ---------- the class in terms of events, spans and hours ----------

  /** A segment of an event with this status, with the hour of washout after it, meets the interval. */
  ghost predicate EventNear(events: seq<Event>, q: Query, status: Status) {
    exists e, s :: e in events && s in e.segments && s.status == status && Meets(s.a, s.b, q)
  }

  ghost predicate SpanNear(unknown: seq<Span>, q: Query) { exists u :: u in unknown && Meets(u.a, u.b, q) }

  /** [a, b] and the hour after it meet the interval. */
  predicate Meets(a: int, b: int, q: Query) {
    q.s <= b + 3_600_000 && if q.closed then a <= q.e else a < q.e
  }

  ghost predicate AnyHour(gates: map<int, GateStatus>, hours: set<int>, status: GateStatus) {
    exists h :: h in hours && HourStatus(gates, h) == status
  }

  /** The verdict is the first of these that applies: an invalid event near, an unknown one or an unknown span near, an
      unverified hour, a failed one. */
  ghost predicate Classifies(events: seq<Event>, unknown: seq<Span>, gates: map<int, GateStatus>, q: Query,
                             hours: set<int>, v: Verdict)
  {
    if EventNear(events, q, Invalid) then v == InvalidSlot
    else if EventNear(events, q, Unknown) || SpanNear(unknown, q) then v == UnknownSlot
    else if AnyHour(gates, hours, HourUnverified) then v == Unverified
    else if AnyHour(gates, hours, HourGateFail) then v == GateFail
    else v == VerifiedClean && forall h :: h in hours ==> HourStatus(gates, h) == HourVerified
  }

  lemma EventNearIff(events: seq<Event>, q: Query, status: Status)
    ensures EventNear(events, q, status) <==> EventHit(events, q, status)
  {
    if e, s :| e in events && s in e.segments && s.status == status && Meets(s.a, s.b, q) {
      var i :| 0 <= i < |events| && events[i] == e;
      assert Hits(Washed(s), q);
      assert SegmentHit(events[i].segments, q, status);
    }
    if i :| 0 <= i < |events| && SegmentHit(events[i].segments, q, status) {
      var s :| s in events[i].segments && s.status == status && Hits(Washed(s), q);
      assert events[i] in events && Meets(s.a, s.b, q);
    }
  }

  lemma WorstClassifies(events: seq<Event>, unknown: seq<Span>, gates: map<int, GateStatus>, q: Query, hours: set<int>)
    ensures Classifies(events, unknown, gates, q, hours, Worst(Build(events, unknown, WASHOUT), gates, q, hours))
  {
    BuildHit(events, unknown, WASHOUT, q, Invalid);
    BuildHit(events, unknown, WASHOUT, q, Unknown);
    EventNearIff(events, q, Invalid);
    EventNearIff(events, q, Unknown);
    assert forall u :: u in unknown ==> (Meets(u.a, u.b, q) <==> Hits(Segment(u.a, u.b + WASHOUT, Unknown), q));
  }

  /** The hours that [a, b) touches, each by its start. */
  ghost predicate HoursTouched(hours: set<int>, a: int, b: int) {
    forall h :: h in hours <==> h % 3_600_000 == 0 && h < b && a < h + 3_600_000
  }

  /** The class of a capacity slot [a, b). */
  lemma CapacityIs(events: seq<Event>, unknown: seq<Span>, gates: map<int, GateStatus>, a: int, b: int)
      returns (hours: set<int>)
    ensures HoursTouched(hours, a, b)
    ensures Classifies(events, unknown, gates, Query(a, b, false), hours,
                       Capacity(Build(events, unknown, WASHOUT), gates, a, b))
  {
    hours := HoursOf(a, b);
    forall h ensures h in hours <==> h % 3_600_000 == 0 && h < b && a < h + 3_600_000 {
    }
    WorstClassifies(events, unknown, gates, Query(a, b, false), hours);
  }

  /** The class of a forecast target at t: it looks at [t - 90 s, t] and the hours that this span touches. */
  lemma TargetIs(events: seq<Event>, unknown: seq<Span>, gates: map<int, GateStatus>, t: int) returns (hours: set<int>)
    ensures HoursTouched(hours, t - 90_000, t + 1)
    ensures Classifies(events, unknown, gates, Query(t - 90_000, t, true), hours,
                       TargetClass(Build(events, unknown, WASHOUT), gates, t))
  {
    hours := {HourOf(t - 90_000), HourOf(t)};
    forall h ensures h in hours <==> h % 3_600_000 == 0 && h < t + 1 && t - 90_000 < h + 3_600_000 {
    }
    WorstClassifies(events, unknown, gates, Query(t - 90_000, t, true), hours);
  }

  // ---------- what verified_clean implies ----------

  /** A capacity interval that some segment touches is not clean. */
  lemma TouchedIsNotClean(events: seq<Event>, unknown: seq<Span>, gates: map<int, GateStatus>, a: int, b: int, x: int)
    requires a <= x < b && Touched(events, unknown, x)
    ensures Capacity(Build(events, unknown, WASHOUT), gates, a, b).Rank() >= UnknownSlot.Rank()
  {
    var q, segs := Query(a, b, false), Build(events, unknown, WASHOUT);
    if u :| u in unknown && u.Has(x) {
      var g := Segment(u.a, u.b + WASHOUT, Unknown);
      BuildMembers(events, unknown, WASHOUT, g);
      HitIsNotClean(segs, gates, q, HoursOf(a, b), g);
    } else {
      var e, s :| e in events && s in e.segments && s.a <= x <= s.b && s.status != SystemOutcome;
      BuildMembers(events, unknown, WASHOUT, Washed(s));
      HitIsNotClean(segs, gates, q, HoursOf(a, b), Washed(s));
    }
  }

  lemma HitIsNotClean(segs: seq<Segment>, gates: map<int, GateStatus>, q: Query, hours: set<int>, g: Segment)
    requires g in segs && Hits(g, q) && g.status != SystemOutcome
    ensures Worst(segs, gates, q, hours).Rank() >= UnknownSlot.Rank()
  {
  }

  /** What the reads give: merged series inside the window, accepted by the domain and join checks. */
  ghost predicate WellRead(w: WorkerHistory, lo: int, hi: int) {
    && w.conditions.Merged() && Accepted(w.conditions, w.since)
    && forall s, y :: s in w.conditions.All() && y in s ==> lo <= y.t <= hi
  }

  /** Clipping keeps what the workers contributed. */
  lemma ContributedAfterClip(workers: seq<WorkerHistory>, lo: int, hi: int, att: map<Id, Attribution>,
                             events: seq<Event>, unknown: seq<Span>, masks: seq<Span>)
    requires Contributed(workers, lo, hi, att, events, unknown)
    ensures Contributed(workers, lo, hi, att, ClipAll(events, masks), unknown)
  {
    forall w | w in workers ensures ContributedBy(w, lo, hi, att, ClipAll(events, masks), unknown) {
      assert ContributedBy(w, lo, hi, att, events, unknown);
      forall e | e in WorkerEvents(lo, hi, att, w.node, w.since, w.conditions) ensures e in ClipAll(events, masks) {
        WorkerEventClass(lo, hi, att, w, e);
        ClipKeepsOthers(e, masks);
        var i :| 0 <= i < |events| && events[i] == e;
        assert ClipAll(events, masks)[i] == e;
      }
    }
  }

  lemma WorkerEventClass(lo: int, hi: int, att: map<Id, Attribution>, w: WorkerHistory, e: Event)
    requires e in WorkerEvents(lo, hi, att, w.node, w.since, w.conditions)
    ensures e.id.class_ == Worker
  {
    RunEventClass(lo, hi, att, w.node, w.since, RunsFrom(JointScrapes(w.conditions), 0), e);
  }

  lemma {:induction false} RunEventClass(lo: int, hi: int, att: map<Id, Attribution>, node: string, since: Option<int>,
                                         runs: seq<Run>, e: Event)
    requires e in RunEvents(lo, hi, att, node, since, runs)
    ensures e.id.class_ == Worker
  {
    if e != RunEvent(lo, hi, att, node, since, runs[|runs| - 1]) {
      RunEventClass(lo, hi, att, node, since, runs[..|runs| - 1], e);
    }
  }

  /**
   The end-to-end claim. In a capacity slot classified verified_clean, at every instant after a declared worker's
   join, the worker's neighbouring joint scrapes are at most 60 s apart (or the window edge is that close) and each of
   them was healthy, unless its run was attributed to the systems themselves; and the hour of that instant has exactly
   the arms' load-gate rows, each a finalized qualifying PASS. `events` may be any list that holds what the workers
   contributed: with other sources' events, clipped by masks or not.
   */
  lemma VerifiedCleanMeansQuiet(workers: seq<WorkerHistory>, lo: int, hi: int, att: map<Id, Attribution>,
                                events: seq<Event>, unknown: seq<Span>, rows: map<int, map<string, Row>>,
                                arms: set<string>, a: int, b: int, w: WorkerHistory, x: int)
    requires Contributed(workers, lo, hi, att, events, unknown) && w in workers && WellRead(w, lo, hi)
    requires lo <= a <= x < b <= hi && (w.since.Some? ==> w.since.value <= x)
    requires Capacity(Build(events, unknown, WASHOUT), GatesOf(rows, arms), a, b) == VerifiedClean
    ensures Quiet(att, w.node, JointScrapes(w.conditions), WorkerLo(lo, w.since), hi, x)
    ensures Qualified(rows, arms, HourOf(x))
  {
    CleanHour(Build(events, unknown, WASHOUT), GatesOf(rows, arms), a, b, x);
    VerifiedIff(rows, arms, HourOf(x));
    if !Quiet(att, w.node, JointScrapes(w.conditions), WorkerLo(lo, w.since), hi, x) {
      UnquietWorkerTouched(workers, lo, hi, att, events, unknown, w, x);
      TouchedIsNotClean(events, unknown, GatesOf(rows, arms), a, b, x);
    }
  }

  lemma CleanHour(segs: seq<Segment>, gates: map<int, GateStatus>, a: int, b: int, x: int)
    requires a <= x < b && Capacity(segs, gates, a, b) == VerifiedClean
    ensures HourStatus(gates, HourOf(x)) == HourVerified
  {
    HourTouched(a, b, x);
  }

  lemma UnquietWorkerTouched(workers: seq<WorkerHistory>, lo: int, hi: int, att: map<Id, Attribution>,
                             events: seq<Event>, unknown: seq<Span>, w: WorkerHistory, x: int)
    requires Contributed(workers, lo, hi, att, events, unknown) && w in workers && WellRead(w, lo, hi)
    requires lo <= x <= hi && (w.since.Some? ==> w.since.value <= x)
    requires !Quiet(att, w.node, JointScrapes(w.conditions), WorkerLo(lo, w.since), hi, x)
    ensures Touched(events, unknown, x)
  {
    assert ContributedBy(w, lo, hi, att, events, unknown);
    UnquietIsTouched(lo, hi, att, w.node, w.since, w.conditions, x);
    TouchedWidens(WorkerEvents(lo, hi, att, w.node, w.since, w.conditions), events,
                  WorkerGaps(lo, hi, w.since, w.conditions), unknown, x);
  }

  lemma HourTouched(a: int, b: int, x: int)
    requires a <= x < b
    ensures HourOf(x) in HoursOf(a, b)
  {
    assert HourOf(a) <= HourOf(x);
  }

  lemma TouchedWidens(events: seq<Event>, more: seq<Event>, unknown: seq<Span>, further: seq<Span>, x: int)
    requires Touched(events, unknown, x)
    requires (forall e :: e in events ==> e in more) && forall u :: u in unknown ==> u in further
    ensures Touched(more, further, x)
  {
  }

  /** The same of a forecast target: at every instant of the 90 s before it the workers are quiet and the hour has the
      arms' rows. */
  lemma CleanTargetMeansQuiet(workers: seq<WorkerHistory>, lo: int, hi: int, att: map<Id, Attribution>,
                              events: seq<Event>, unknown: seq<Span>, rows: map<int, map<string, Row>>,
                              arms: set<string>, t: int, w: WorkerHistory, x: int)
    requires Contributed(workers, lo, hi, att, events, unknown) && w in workers && WellRead(w, lo, hi)
    requires lo <= x <= hi && t - 90_000 <= x <= t && (w.since.Some? ==> w.since.value <= x)
    requires TargetClass(Build(events, unknown, WASHOUT), GatesOf(rows, arms), t) == VerifiedClean
    ensures Quiet(att, w.node, JointScrapes(w.conditions), WorkerLo(lo, w.since), hi, x)
    ensures Qualified(rows, arms, HourOf(x))
  {
    CleanTarget(events, unknown, GatesOf(rows, arms), t, x);
    VerifiedIff(rows, arms, HourOf(x));
    if !Quiet(att, w.node, JointScrapes(w.conditions), WorkerLo(lo, w.since), hi, x) {
      UnquietWorkerTouched(workers, lo, hi, att, events, unknown, w, x);
    }
  }

  lemma CleanTarget(events: seq<Event>, unknown: seq<Span>, gates: map<int, GateStatus>, t: int, x: int)
    requires TargetClass(Build(events, unknown, WASHOUT), gates, t) == VerifiedClean && t - 90_000 <= x <= t
    ensures HourStatus(gates, HourOf(x)) == HourVerified && !Touched(events, unknown, x)
  {
    var hours := TargetIs(events, unknown, gates, t);
    assert HourOf(x) in hours;
    if Touched(events, unknown, x) {
      TouchedIsNear(events, unknown, Query(t - 90_000, t, true), x);
    }
  }

  lemma TouchedIsNear(events: seq<Event>, unknown: seq<Span>, q: Query, x: int)
    requires Touched(events, unknown, x) && q.s <= x && if q.closed then x <= q.e else x < q.e
    ensures EventNear(events, q, Invalid) || EventNear(events, q, Unknown) || SpanNear(unknown, q)
  {
    if u :| u in unknown && u.Has(x) {
      assert Meets(u.a, u.b, q);
    } else {
      var e, s :| e in events && s in e.segments && s.a <= x <= s.b && s.status != SystemOutcome;
      assert Meets(s.a, s.b, q);
    }
  }
}
