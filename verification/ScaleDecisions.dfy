/**
 What one reconcile decides and does, said without the rules that compute it (k8s-operator/controllers/
 predictiveautoscaler_controller.go and overestimate.go): which count is decided from the measured need and the
 forecast, which action follows from it, how long scale-downs are held, and which writes the memory remembers.
 */
module ScaleDecisions {
  import opened Wrappers
  import opened ScaleState
  import opened Controller
  import opened ScaleRuns

  // ---------- the forecast that takes part ----------

  /** The least whole number not below 1.1 times the measured need. */
  predicate IsCap(cap: int, reactive: int) { 10 * (cap - 1) < 11 * reactive <= 10 * cap }

  /** Neither the measured rate nor the forecast rises: at most 2 % since the last rate, and at most 20 % over the
      forecast's first step or, where it has six, over all of them. */
  predicate Level(lastRPM: real, rpm: real, p: seq<real>) {
    && (lastRPM > 0.0 && rpm > 0.0 ==> rpm <= 1.02 * lastRPM)
    && (|p| >= 2 && p[0] > 0.0 ==> p[1] <= 1.2 * p[0] && (|p| >= 6 ==> p[5] <= 1.2 * p[0]))
  }

  /** This is the third to tenth overestimate in a row: a predicted count more than 20 % above a positive need, on level
      traffic. */
  predicate CapDue(s: Memory, x: Input)
    requires x.forecast.V1?
  {
    && 0 < x.reactive && 5 * x.forecast.predicted > 6 * x.reactive
    && Level(s.lastRPM, x.rpm, x.forecast.predictions) && 2 <= s.streak <= 9
  }

  /** A first step more than ten times the measured rate disqualifies a v1 forecast. */
  predicate FarOff(x: Input)
    requires x.forecast.V1?
  {
    x.rpm > 0.0 && |x.forecast.predictions| > 0 && x.forecast.predictions[0] > 10.0 * x.rpm
  }

  /** The predicted count that takes part in a decision made on memory s. */
  ghost predicate TakesPart(s: Memory, x: Input, f: Option<int>) {
    match x.forecast
    case NoForecast => f.None?
    case V2(p) => f == Some(p)
    case V1(p, _) =>
      if FarOff(x) then f.None?
      else f.Some? && if f.value == p then !CapDue(s, x) || (exists cap :: IsCap(cap, x.reactive) && p <= cap)
                      else f.value < p && IsCap(f.value, x.reactive) && CapDue(s, x)
  }

  // ---------- the decided count ----------

  /** The count that measured need, forecast and bounds single out. */
  ghost predicate Decided(x: Input, f: Option<int>, d: int) {
    && x.min <= d <= x.max
    && (d < x.max ==> x.reactive <= d && (f.Some? ==> f.value <= d))
    && (x.min < d ==> d <= x.reactive || (f.Some? && d <= f.value))
  }

  /** Without a measurement the count is held, inside the bounds. */
  ghost predicate HeldCount(x: Input, d: int) {
    && x.min <= d <= x.max
    && (d < x.current ==> d == x.max) && (x.current < d ==> d == x.min)
  }

  /** There is only one such count. */
  lemma DecidedUnique(x: Input, f: Option<int>, d: int, e: int)
    requires Decided(x, f, d) && Decided(x, f, e)
    ensures d == e
    ensures d == x.min || d == x.max || d == x.reactive || Some(d) == f
  {
  }

  lemma TrackedTakesPart(s: Memory, x: Input) returns (f: Option<int>)
    requires 0 <= x.reactive
    ensures TakesPart(s, x, f)
    ensures var (_, predicted, used) := Tracked(s, x); f == if used then Some(predicted) else None
  {
    var (_, predicted, used) := Tracked(s, x);
    f := if used then Some(predicted) else None;
    if x.forecast.V1? && !FarOff(x) {
      AdjustedIs(s, x);
    }
  }

  lemma AdjustedIs(s: Memory, x: Input)
    requires x.forecast.V1? && 0 <= x.reactive
    ensures var p := x.forecast.predicted;
            var v := Adjust(s, p, x.reactive, x.rpm, x.forecast.predictions).1;
            if v == p then !CapDue(s, x) || (exists cap :: IsCap(cap, x.reactive) && p <= cap)
            else v < p && IsCap(v, x.reactive) && CapDue(s, x)
  {
    CapIs(x.reactive);
    LevelIff(s.lastRPM, x.rpm, x.forecast.predictions);
    assert Overestimates(x.forecast.predicted, x.reactive) <==> 5 * x.forecast.predicted > 6 * x.reactive by {
      assert (5 * x.forecast.predicted) as real == 5.0 * x.forecast.predicted as real;
      assert (6 * x.reactive) as real == 6.0 * x.reactive as real;
    }
  }

  lemma CapIs(reactive: int)
    ensures IsCap(CapOf(reactive), reactive)
  {
    var c, r := CapOf(reactive), reactive as real * 1.1;
    assert (c - 1) as real < r <= c as real;
    assert 10.0 * r == (11 * reactive) as real;
    assert (10 * (c - 1)) as real == 10.0 * (c - 1) as real && (10 * c) as real == 10.0 * c as real;
  }

  lemma LevelIff(last: real, rpm: real, p: seq<real>)
    ensures Level(last, rpm, p) <==> !RateRamps(last, rpm) && !TrendRamps(p)
  {
  }

  lemma DesiredIsDecided(s: Memory, x: Input, f: Option<int>)
    requires 0 <= x.reactive && x.min <= x.max
    requires var (_, predicted, used) := Tracked(s, x); f == if used then Some(predicted) else None
    ensures if x.measured then Decided(x, f, Desired(s, x)) else HeldCount(x, Desired(s, x))
  {
  }

  // ---------- the action ----------

  /** A scale-down is held: five minutes from the last scale-up, five minutes from the first moment below the current
      count, which only now may begin, both waived by the override; and two minutes from the last scale-down. */
  predicate HoldsDown(t: Memory, ruled: int) {
    || (t.holds.Enforced?
        && (|| (t.lastUp.Some? && ruled - t.lastUp.value < 300_000_000_000)
            || t.belowSince.None?
            || ruled - t.belowSince.value < 300_000_000_000))
    || (t.lastDown.Some? && ruled - t.lastDown.value < 120_000_000_000)
  }

  /** One step down toward e: all the way, or to one replica, or by exactly the larger of two replicas and a tenth. */
  predicate StepsDown(current: int, e: int, n: int) {
    && e <= n && 1 <= n < current
    && (current - n <= 2 || 10 * (current - n - 1) < current)
    && (e < n && 1 < n ==> 2 <= current - n && current <= 10 * (current - n))
  }

  /** What follows from the decided count d and, on the way down, the floor. */
  ghost predicate Follows(t: Memory, x: Input, d: int, floor: int, a: Action) {
    if x.current < d then a == if x.write == Acknowledged then ScaledUp(d) else NotWritten
    else if d == x.current then a == AtTarget
    else if x.current <= floor then a == HeadroomHold
    else if HoldsDown(t, x.ruled) || x.current <= 1 then a == Pending
    else if x.write != Acknowledged then a == NotWritten
    else a.ScaledDown? && StepsDown(x.current, if d < floor then floor else d, a.to)
  }

  /**
   What every reconcile does. One that stops early, only recommends or yields to another writer does nothing; every
   other one decides the one count singled out by the measured need, the forecast that takes part and the bounds (or
   holds the current one without a measurement), and acts on it: up at once, down never below the headroom floor, only
   after the holds, and step by step.
   */
  lemma ReconcileActs(s: Memory, x: Input) returns (f: Option<int>, d: int)
    requires 0 <= x.reactive && x.min <= x.max
    ensures TakesPart(Signalled(Begin(s, x), x), x, f)
    ensures if x.measured then Decided(x, f, d) else HeldCount(x, d)
    ensures var a := Reconcile(s, x).1;
            if x.stage != Complete then a == Stopped
            else if x.mode != Active then a == Recommended
            else if x.blocked then a == ConflictHold
            else Follows(RuleMemory(s, x), x, d, if x.measured then x.floor else 0, a)
  {
    var g := Signalled(Begin(s, x), x);
    f := TrackedTakesPart(g, x);
    d := Desired(g, x);
    DesiredIsDecided(g, x, f);
    ApplyFollows(RuleMemory(s, x), x, d);
  }

  lemma ApplyFollows(t: Memory, x: Input, d: int)
    ensures x.mode == Active && !x.blocked ==> Follows(t, x, d, if x.measured then x.floor else 0, Apply(t, x, d).1)
  {
  }

  // ---------- what the memory remembers ----------

  predicate SameState(s: Memory, x: Input) { s.mode == Some(x.mode) && s.targetUID == x.uid }

  /** The timers that the scale-down rule reads. */
  lemma RuleTimers(s: Memory, x: Input)
    ensures var t := RuleMemory(s, x);
            && t.lastUp == (if SameState(s, x) then s.lastUp else if x.mode == Active then Some(x.start) else None)
            && t.lastDown == (if SameState(s, x) then s.lastDown else if x.mode == Active then Some(x.start) else None)
            && t.belowSince == if SameState(s, x) && s.signal == x.signal then s.belowSince else None
  {
    TrackingFrame(Signalled(Begin(s, x), x), x);
  }

  /** The scale times after a step: only an acknowledged write or a fresh state sets them, only a restart or a fresh
      state that does not write loses them. */
  lemma NextTimes(s: Memory, step: Step)
    ensures var (t, a) := Next(s, step);
            step.Run? ==>
              && t.lastUp == (if a.ScaledUp? then Some(step.x.ack) else RuleMemory(s, step.x).lastUp)
              && t.lastDown == (if a.ScaledDown? then Some(step.x.ack) else RuleMemory(s, step.x).lastDown)
    ensures step.Restart? ==> Next(s, step).0.lastUp == None && Next(s, step).0.lastDown == None
  {
    if step.Run? {
      TrackingFrame(Signalled(Begin(s, step.x), step.x), step.x);
    }
  }

  /** Step i scaled up at v, or began a fresh Active state then. */
  ghost predicate UpAt(h: History, i: int, v: int) {
    && 0 <= i < |h.steps| && i < |h.actions| && i < |h.memories| && h.steps[i].Run?
    && ((h.actions[i].ScaledUp? && v == h.steps[i].x.ack)
        || (FreshActive(h.memories[i], h.steps[i].x) && v == h.steps[i].x.start))
  }

  /** Step i scaled down at v, or began a fresh Active state then. */
  ghost predicate DownAt(h: History, i: int, v: int) {
    && 0 <= i < |h.steps| && i < |h.actions| && i < |h.memories| && h.steps[i].Run?
    && ((h.actions[i].ScaledDown? && v == h.steps[i].x.ack)
        || (FreshActive(h.memories[i], h.steps[i].x) && v == h.steps[i].x.start))
  }

  /** A remembered scale-up time is that of an acknowledged scale-up or of a fresh Active state. */
  lemma {:induction false} LastUpWas(h: History, n: nat) returns (i: nat)
    requires h.Valid() && n <= |h.steps| && h.memories[n].lastUp.Some?
    ensures i < n && UpAt(h, i, h.memories[n].lastUp.value)
  {
    assert h.StepAt(n - 1);
    NextTimes(h.memories[n - 1], h.steps[n - 1]);
    if UpAt(h, n - 1, h.memories[n].lastUp.value) {
      i := n - 1;
    } else {
      RuleTimers(h.memories[n - 1], h.steps[n - 1].x);
      i := LastUpWas(h, n - 1);
    }
  }

  lemma {:induction false} LastDownWas(h: History, n: nat) returns (i: nat)
    requires h.Valid() && n <= |h.steps| && h.memories[n].lastDown.Some?
    ensures i < n && DownAt(h, i, h.memories[n].lastDown.value)
  {
    assert h.StepAt(n - 1);
    NextTimes(h.memories[n - 1], h.steps[n - 1]);
    if DownAt(h, n - 1, h.memories[n].lastDown.value) {
      i := n - 1;
    } else {
      RuleTimers(h.memories[n - 1], h.steps[n - 1].x);
      i := LastDownWas(h, n - 1);
    }
  }

  ghost predicate UpWithin(h: History, n: nat, ruled: int) {
    exists i, v :: i <= n && UpAt(h, i, v) && ruled - v < 300_000_000_000
  }

  ghost predicate DownWithin(h: History, n: nat, ruled: int) {
    exists i, v :: i <= n && DownAt(h, i, v) && ruled - v < 120_000_000_000
  }

  /** The stay below the current count began at step w, less than five minutes ago and unbroken since. */
  ghost predicate BelowSince(h: History, w: int, n: nat, ruled: int) {
    && 0 <= w <= n < |h.steps| && w < |h.actions| && h.steps[w].Run? && h.actions[w] == Pending
    && ruled - h.steps[w].x.ruled < 300_000_000_000 && Unbroken(h, w, n)
  }

  /**
   Over every run, a held scale-down has a cause, the counterpart of the spacing theorems: an acknowledged scale-up or
   fresh Active state in the last five minutes, a scale-down or fresh Active state in the last two, a stay below the
   current count that began less than five minutes ago, or nothing left to remove.
   */
  lemma HoldHasCause(h: History, n: nat)
    requires h.Valid() && n < |h.steps| && h.steps[n].Run? && h.actions[n] == Pending
    requires 0 <= h.steps[n].x.reactive && h.steps[n].x.min <= h.steps[n].x.max
    ensures var x := h.steps[n].x;
            || x.current <= 1 || UpWithin(h, n, x.ruled) || DownWithin(h, n, x.ruled)
            || exists w :: BelowSince(h, w, n, x.ruled)
  {
    var s, x := h.memories[n], h.steps[n].x;
    assert h.StepAt(n);
    var f, d := ReconcileActs(s, x);
    RuleTimers(s, x);
    var t := RuleMemory(s, x);
    if x.current > 1 {
      assert HoldsDown(t, x.ruled);
      if t.lastUp.Some? && x.ruled - t.lastUp.value < 300_000_000_000 {
        UpCause(h, n);
      } else if t.lastDown.Some? && x.ruled - t.lastDown.value < 120_000_000_000 {
        DownCause(h, n);
      } else {
        BelowCause(h, n);
      }
    }
  }

  lemma UpCause(h: History, n: nat)
    requires h.Valid() && n < |h.steps| && h.steps[n].Run? && h.steps[n].x.mode == Active
    requires var v := RuleMemory(h.memories[n], h.steps[n].x).lastUp;
             v.Some? && h.steps[n].x.ruled - v.value < 300_000_000_000
    ensures UpWithin(h, n, h.steps[n].x.ruled)
  {
    RuleTimers(h.memories[n], h.steps[n].x);
    if SameState(h.memories[n], h.steps[n].x) {
      var i := LastUpWas(h, n);
    } else {
      assert UpAt(h, n, h.steps[n].x.start);
    }
  }

  lemma DownCause(h: History, n: nat)
    requires h.Valid() && n < |h.steps| && h.steps[n].Run? && h.steps[n].x.mode == Active
    requires var v := RuleMemory(h.memories[n], h.steps[n].x).lastDown;
             v.Some? && h.steps[n].x.ruled - v.value < 120_000_000_000
    ensures DownWithin(h, n, h.steps[n].x.ruled)
  {
    RuleTimers(h.memories[n], h.steps[n].x);
    if SameState(h.memories[n], h.steps[n].x) {
      var i := LastDownWas(h, n);
    } else {
      assert DownAt(h, n, h.steps[n].x.start);
    }
  }

  lemma BelowCause(h: History, n: nat)
    requires h.Valid() && n < |h.steps| && h.steps[n].Run? && h.actions[n] == Pending
    requires var t := RuleMemory(h.memories[n], h.steps[n].x);
             t.belowSince.None? || h.steps[n].x.ruled - t.belowSince.value < 300_000_000_000
    ensures exists w :: BelowSince(h, w, n, h.steps[n].x.ruled)
  {
    var x := h.steps[n].x;
    RuleTimers(h.memories[n], x);
    if RuleMemory(h.memories[n], x).belowSince.None? {
      assert BelowSince(h, n, n, x.ruled);
    } else {
      var w := TimerStart(h, n);
      assert BelowSince(h, w, n, x.ruled);
    }
  }

  // ---------- the override ----------

  /** The state and the query tracked so far. */
  predicate SameTrack(s: Memory, x: Input) { SameState(s, x) && s.signal == x.signal }

  /** A usable v1 forecast above a positive measured need, on level traffic; a new track knows no last rate. */
  predicate Tracks(s: Memory, x: Input) {
    && x.forecast.V1? && !FarOff(x) && 0 < x.reactive < x.forecast.predicted
    && Level(if SameTrack(s, x) then s.lastRPM else 0.0, x.rpm, x.forecast.predictions)
  }

  /** The tenth overestimate is behind and the thirtieth re-evaluation due. */
  predicate Reevaluates(s: Memory, x: Input)
    requires x.forecast.V1?
  {
    5 * x.forecast.predicted > 6 * x.reactive && 10 <= s.streak && 29 <= s.reEval
  }

  ghost predicate Caps(s: Memory, x: Input)
    requires x.forecast.V1?
  {
    CapDue(s, x) && exists cap :: IsCap(cap, x.reactive) && cap < x.forecast.predicted
  }

  /** When the holds are waived: a cap applies now, or one did and every reconcile since kept tracking, without a
      re-evaluation. Nothing else waives them. */
  lemma OverrideIff(s: Memory, x: Input)
    requires 0 <= x.reactive
    ensures RuleMemory(s, x).holds.Overridden?
       <==> SameTrack(s, x) && Tracks(s, x) && (Caps(s, x) || (s.holds.Overridden? && !Reevaluates(s, x)))
  {
    var g := Signalled(Begin(s, x), x);
    if x.forecast.V1? {
      CapIs(x.reactive);
      LevelIff(g.lastRPM, x.rpm, x.forecast.predictions);
      OverIff(x.forecast.predicted, x.reactive);
      assert Caps(g, x) <==> CapDue(g, x) && CapOf(x.reactive) < x.forecast.predicted by {
        CapUnique(x.reactive);
      }
    }
  }

  lemma CapUnique(reactive: int)
    ensures forall cap :: IsCap(cap, reactive) ==> cap == CapOf(reactive)
  {
    CapIs(reactive);
  }

  lemma OverIff(predicted: int, reactive: int)
    ensures Overestimates(predicted, reactive) <==> 5 * predicted > 6 * reactive
  {
    assert (5 * predicted) as real == 5.0 * predicted as real && (6 * reactive) as real == 6.0 * reactive as real;
  }

  /** The counters: an overestimate that is tracked adds to the streak and, from the eleventh on, to the re-evaluations;
      any other tracked forecast ends the streak; everything else clears both. */
  lemma CountersAre(s: Memory, x: Input)
    requires 0 <= x.reactive && 0 <= s.streak
    ensures var t := RuleMemory(s, x);
            if !Tracks(s, x) || (SameTrack(s, x) && Reevaluates(s, x)) then t.streak == 0 && t.reEval == 0
            else
              var streak, reEval := if SameTrack(s, x) then s.streak else 0, if SameTrack(s, x) then s.reEval else 0;
              if 5 * x.forecast.predicted > 6 * x.reactive
              then t.streak == streak + 1 && t.reEval == reEval + if 10 <= streak then 1 else 0
              else t.streak == 0 && t.reEval == reEval
    ensures RuleMemory(s, x).lastRPM == x.rpm
  {
    var g := Signalled(Begin(s, x), x);
    if x.forecast.V1? {
      LevelIff(g.lastRPM, x.rpm, x.forecast.predictions);
      OverIff(x.forecast.predicted, x.reactive);
    }
  }
}
