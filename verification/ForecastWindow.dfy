/**
 The arithmetic of forecast contract v2 (k8s-operator/controllers/forecast_v2.go): which calibration settings are
 feasible, the lead, the window W_t = {t + interval, ..., t + lead} of an origin t with its deadline, and how far a
 forecast may raise the decision. All times are whole seconds unless a name says otherwise.
 */
module ForecastWindow {
  import opened Wrappers
  import opened ScaleState

  const BPS := 10000
  const MAX_HORIZON := 3600
  const MAX_STEPS := 60
  const INTERVALS: set<int> := {60, 120, 180, 240, 300, 360, 480, 600}

  datatype Calibration =
    Calibration(minWindows: int, maxScores: int, retentionDays: int, minMiscoverage: int, maxMiscoverage: int)

  datatype Trust =
    Trust(minShadowHours: int, minProspective: int, acuteRecent: int, lossRatio: int, exitLossRatio: int)

  datatype Settings =
    Settings(interval: int, horizon: int, settlement: int, grace: int, miscoverage: int, calibration: Calibration,
             trust: Trust)

  /** The bounds every resolved field meets. */
  predicate InBounds(s: Settings) {
    && s.interval in INTERVALS
    && 0 < s.horizon <= MAX_HORIZON && s.horizon % s.interval == 0 && s.horizon / s.interval <= MAX_STEPS
    && 0 <= s.settlement <= 900 && 0 <= s.grace <= 3600
    && 100 <= s.miscoverage <= 2500
    && 16 <= s.calibration.minWindows <= 4096 && 16 <= s.calibration.maxScores <= 4096
    && 1 <= s.calibration.retentionDays <= 28
    && 1 <= s.calibration.minMiscoverage <= 5000 && 1 <= s.calibration.maxMiscoverage <= 5000
  }

  // ---------- feasible settings ----------

  /** The order statistic used as the upper bound: the (n + 1)(1 - a) quantile of n scores, rounded up. */
  function Rank(n: int, miscoverage: int): int { ((n + 1) * (BPS - miscoverage) + BPS - 1) / BPS }

  /** The cross-field checks except the rank test. */
  predicate OtherwiseFeasible(s: Settings)
    requires s.horizon > 0
  {
    var c := s.calibration;
    && c.minMiscoverage <= s.miscoverage <= c.maxMiscoverage && c.minMiscoverage < c.maxMiscoverage
    && c.minWindows <= c.maxScores
    && c.minWindows <= c.retentionDays * 86400 / s.horizon
    && s.trust.acuteRecent <= c.maxScores && s.trust.minProspective <= c.maxScores
    && s.trust.lossRatio <= s.trust.exitLossRatio
    && s.trust.minShadowHours <= c.retentionDays * 24
  }

  predicate Feasible(s: Settings)
    requires s.horizon > 0
  {
    OtherwiseFeasible(s) && Rank(s.calibration.minWindows, s.calibration.minMiscoverage) <= s.calibration.minWindows
  }

  /** The rank exists among n scores exactly when the miscoverage is at least 1 / (n + 1). */
  lemma RankWithin(n: nat, a: int)
    requires 0 < a < 10_000
    ensures var k := Rank(n, a); 1 <= k && (k - 1) * 10_000 < (n + 1) * (10_000 - a) <= k * 10_000
    ensures Rank(n, a) <= n <==> 10_000 <= (n + 1) * a
  {
    assert (n + 1) * (BPS - a) == (n + 1) * BPS - (n + 1) * a;
    assert (n + 1) * (BPS - a) >= 1;
  }

  ghost predicate RankFits(n: int, a: int) { 1 <= Rank(n, a) <= n }

  /** Every sample count and every working miscoverage that the settings allow. */
  ghost predicate AllRanksFit(s: Settings) {
    forall n, a |
        s.calibration.minWindows <= n <= s.calibration.maxScores
        && s.calibration.minMiscoverage <= a <= s.calibration.maxMiscoverage
      :: RankFits(n, a)
  }

  lemma ProductsOrdered(n: nat, m: nat, a: nat, b: nat)
    requires n <= m && a <= b
    ensures n * a <= m * b
  {
    assert m * b - n * a == (m - n) * b + n * (b - a);
  }

  /** The one rank test accepts exactly the settings under which no admissible calibration can ever ask for a rank
      outside its scores. */
  lemma FeasibleIffRanksFit(s: Settings)
    requires InBounds(s) && OtherwiseFeasible(s)
    ensures Feasible(s) <==> AllRanksFit(s)
  {
    var c := s.calibration;
    RankWithin(c.minWindows, c.minMiscoverage);
    if Feasible(s) {
      forall n, a | c.minWindows <= n <= c.maxScores && c.minMiscoverage <= a <= c.maxMiscoverage
        ensures RankFits(n, a) {
        RankWithin(n, a);
        ProductsOrdered(c.minWindows + 1, n + 1, c.minMiscoverage, a);
      }
    }
    if AllRanksFit(s) {
      assert RankFits(c.minWindows, c.minMiscoverage);
    }
  }

  // ---------- lead ----------

  function AutomaticLead(startup: int, decision: int, allowance: int, interval: int): int
    requires interval > 0
  {
    (startup + decision + allowance + interval + interval - 1) / interval * interval
  }

  /** It is the smallest multiple of the interval that covers startup, decision period, allowance and one interval. */
  lemma AutomaticLeadLeast(startup: nat, decision: nat, allowance: nat, interval: int)
    requires interval > 0
    ensures var total := startup + decision + allowance + interval;
            var lead := AutomaticLead(startup, decision, allowance, interval);
            lead % interval == 0 && total <= lead < total + interval
  {
    RoundUp(startup + decision + allowance + interval, interval);
  }

  lemma RoundUp(x: nat, d: int)
    requires d > 0
    ensures var r := (x + d - 1) / d * d; r % d == 0 && x <= r < x + d
  {
    var y := x + d - 1;
    assert y == d * (y / d) + y % d;
    MultipleHasNoRemainder(y / d, d);
  }

  lemma {:induction false} MultipleHasNoRemainder(q: nat, d: int)
    requires d > 0
    ensures q * d % d == 0
  {
    var m := q * d % d;
    assert q * d == d * (q * d / d) + m;
    var e := q - q * d / d;
    assert m == e * d;
    if e > 0 {
      ProductsOrdered(1, e, d, d);
    } else if e < 0 {
      ProductsOrdered(1, -e, d, d);
    }
  }

  datatype LeadMethod = Configured | Measured | NoMethod

  datatype Lead = Lead(seconds: int, startup: int, allowance: int, how: LeadMethod, samples: int, generation: int)

  /** The service accepts this lead for these settings and this generation. */
  predicate LeadAccepted(l: Lead, s: Settings, generation: int)
    requires s.interval > 0
  {
    && !l.how.NoMethod?
    && l.seconds >= 0 && l.startup >= 0 && l.allowance >= 0 && l.samples >= 0 && l.generation >= 0
    && l.generation == generation
    && s.interval <= l.seconds <= s.horizon && l.seconds % s.interval == 0
    && l.startup + s.interval + l.allowance <= l.seconds
  }

  // ---------- window ----------

  datatype Window = Window(origin: int, interval: int, lead: int)

  function ValidUntil(w: Window, startup: int, allowance: int): int {
    var a := w.origin + w.interval - allowance;
    var b := w.origin + w.lead - startup - w.interval - allowance;
    if b < a then b else a
  }

  predicate ActionableAt(w: Window, nowMs: int, startup: int, allowance: int) {
    && nowMs + allowance * 1000 < (w.origin + w.interval) * 1000
    && nowMs < ValidUntil(w, startup, allowance) * 1000
  }

  /** The deadline is t + interval - allowance exactly when the lead leaves two intervals beside the startup budget. The
      window is actionable exactly before its deadline, so never again once it has passed. */
  lemma Deadline(w: Window, startup: int, allowance: int)
    ensures ValidUntil(w, startup, allowance) == w.origin + w.interval - allowance
        <==> startup + 2 * w.interval <= w.lead
    ensures forall now :: ActionableAt(w, now, startup, allowance) <==> now < ValidUntil(w, startup, allowance) * 1000
    ensures forall now :: ActionableAt(w, now, startup, allowance)
              <==> && now + allowance * 1000 < (w.origin + w.interval) * 1000
                   && now + (allowance + startup) * 1000 < (w.origin + w.lead - w.interval) * 1000
    ensures forall now, later | now <= later && ActionableAt(w, later, startup, allowance) ::
              ActionableAt(w, now, startup, allowance)
  {
  }

  /** A grid instant of the window. */
  predicate InWindow(w: Window, g: int)
    requires w.interval > 0
  {
    w.origin < g <= w.origin + w.lead && (g - w.origin) % w.interval == 0
  }

  /** The targets are exactly the window's grid instants, each once and in order. */
  method Targets(w: Window) returns (ts: seq<int>)
    requires w.interval > 0 && w.lead >= 0
    ensures forall g :: g in ts <==> InWindow(w, g)
    ensures forall i, j :: 0 <= i < j < |ts| ==> ts[i] < ts[j]
  {
    ts := [];
    var steps := w.lead / w.interval;
    var k := 1;
    while k <= steps
      invariant 1 <= k <= steps + 1 && |ts| == k - 1
      invariant forall i :: 0 <= i < |ts| ==> ts[i] == TargetAt(w, i + 1)
    {
      ts := ts + [TargetAt(w, k)];
      k := k + 1;
    }
    TargetsExact(w, ts);
  }

  /** The k-th target. */
  function TargetAt(w: Window, k: int): int { w.origin + k * w.interval }

  lemma TargetsExact(w: Window, ts: seq<int>)
    requires w.interval > 0 && w.lead >= 0 && |ts| == w.lead / w.interval
    requires forall i :: 0 <= i < |ts| ==> ts[i] == TargetAt(w, i + 1)
    ensures forall g :: g in ts <==> InWindow(w, g)
    ensures forall i, j :: 0 <= i < j < |ts| ==> ts[i] < ts[j]
  {
    forall g ensures g in ts <==> InWindow(w, g) {
      if InWindow(w, g) {
        var i := WindowIndex(w, g);
        assert ts[i - 1] == g;
      }
      if g in ts {
        var i :| 0 <= i < |ts| && ts[i] == g;
        IndexInWindow(w, i + 1);
      }
    }
    forall i, j | 0 <= i < j < |ts| ensures ts[i] < ts[j] {
      StepsOrdered(i + 1, j + 1, w.interval);
    }
  }

  lemma StepsOrdered(i: int, j: int, d: int)
    requires i < j && d > 0
    ensures i * d + d <= j * d
  {
    ProductsOrdered(1, j - i, d, d);
    assert (j - i) * d == j * d - i * d;
  }

  lemma WindowIndex(w: Window, g: int) returns (i: int)
    requires w.interval > 0 && w.lead >= 0 && InWindow(w, g)
    ensures 1 <= i <= w.lead / w.interval && g == w.origin + i * w.interval
  {
    var d := w.interval;
    i := (g - w.origin) / d;
    assert g - w.origin == d * i;
    var q := w.lead / d;
    assert w.lead == d * q + w.lead % d;
    if i > q {
      StepsOrdered(q, i, d);
    } else if i < 1 {
      StepsOrdered(i, 1, d);
    }
  }

  lemma IndexInWindow(w: Window, i: int)
    requires w.interval > 0 && w.lead >= 0 && 1 <= i <= w.lead / w.interval
    ensures InWindow(w, w.origin + i * w.interval)
  {
    var d := w.interval;
    assert w.lead == d * (w.lead / d) + w.lead % d;
    ProductsOrdered(i, w.lead / d, d, d);
    ProductsOrdered(1, i, d, d);
    MultipleHasNoRemainder(i, d);
  }

  // ---------- the predictive term ----------

  datatype Policy = Policy(uncapped: int, allowance: int, capped: int, binding: bool)

  function PredictiveReplicas(upper: real, perPodRPM: real, reactive: int, min: int, maxExtra: int, maxPercent: int)
    : Policy
    requires perPodRPM > 0.0
  {
    var uncapped := BoundedReplicas(Ceil(upper * 60.0 / perPodRPM));
    var byPercent := (maxPercent * Max(reactive, min) + 99) / 100;
    var e := if byPercent < maxExtra then byPercent else maxExtra;
    var allowance := if e > MAX_INT32 then MAX_INT32 else e;
    if uncapped > reactive + allowance then Policy(uncapped, allowance, reactive + allowance, true)
    else Policy(uncapped, allowance, uncapped, false)
  }

  /** Of two whole numbers the smaller. */
  predicate IsSmaller(m: int, a: int, b: int) { m <= a && m <= b && (m == a || m == b) }

  /** The least n with n * unit >= x; nothing when x is not positive. */
  predicate IsLeastCount(n: int, x: real, unit: real) {
    0 <= n && x <= n as real * unit && (0 < n ==> (n - 1) as real * unit < x)
  }

  /** The least n with 100 n >= percent * base. */
  predicate IsPercent(n: int, percent: int, base: int) { 100 * (n - 1) < percent * base <= 100 * n }

  /**
   What the term is: the least count whose capacity per minute serves the upper rate per second, cut to the measured
   need plus the smaller of the two budgets, the absolute one and the percentage of the larger of need and minimum.
   */
  lemma PredictiveTermExact(upper: real, perPodRPM: real, reactive: int, min: int, maxExtra: int, maxPercent: int)
      returns (byPercent: int)
    requires perPodRPM > 0.0 && 0 <= maxExtra <= MAX_INT32
    ensures var p := PredictiveReplicas(upper, perPodRPM, reactive, min, maxExtra, maxPercent);
            && (p.uncapped < MAX_INT32 ==> IsLeastCount(p.uncapped, upper * 60.0, perPodRPM))
            && (p.uncapped == MAX_INT32 ==> (MAX_INT32 - 1) as real * perPodRPM < upper * 60.0)
            && IsPercent(byPercent, maxPercent, if reactive < min then min else reactive)
            && IsSmaller(p.allowance, maxExtra, byPercent)
            && IsSmaller(p.capped, p.uncapped, reactive + p.allowance)
            && (p.binding <==> reactive + p.allowance < p.uncapped)
  {
    var p := PredictiveReplicas(upper, perPodRPM, reactive, min, maxExtra, maxPercent);
    byPercent := (maxPercent * Max(reactive, min) + 99) / 100;
    if p.uncapped < MAX_INT32 {
      CeilCovers(upper * 60.0, perPodRPM, p.uncapped);
    }
    if 0 < p.uncapped {
      CeilIsLeast(upper * 60.0, perPodRPM, p.uncapped);
    }
  }

  /** A forecast never lowers the decision and raises it by no more than either budget, whatever its upper bound; a
      bound that reaches the budget is cut to it and one that does not is followed exactly. */
  lemma ForecastRaisesWithinBudget(upper: real, perPodRPM: real, reactive: int, min: int, max: int, current: int,
                                   maxExtra: int, maxPercent: int)
    requires perPodRPM > 0.0 && 0 <= reactive && 0 <= min <= max && 0 <= maxExtra <= 1000 && 0 <= maxPercent <= 1000
    ensures var p := PredictiveReplicas(upper, perPodRPM, reactive, min, maxExtra, maxPercent);
            var with := UnifiedDesired(p.capped, reactive, min, max, current, true, true).0;
            var without := UnifiedDesired(p.capped, reactive, min, max, current, false, true).0;
            && without <= with <= without + p.allowance
            && p.allowance <= maxExtra && 100 * p.allowance < maxPercent * Max(reactive, min) + 100
            && (p.binding <==> p.capped < p.uncapped) && (p.binding ==> p.capped == reactive + p.allowance)
  {
    ProductsOrdered(0, maxPercent, 0, Max(reactive, min));
  }
}
