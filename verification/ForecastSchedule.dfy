/**
 When forecast v2 decisions happen and what they can rely on (k8s-operator/controllers/v2_reconcile.go and the throttle
 of predictiveautoscaler_controller.go): the decision period on the grid, the throttle and the requeue, the lead that is
 published and frozen, and the windows of consecutive decisions. Grid times are seconds, clock readings nanoseconds.
 */
module ForecastSchedule {
  import opened Wrappers
  import opened ForecastWindow

  const SECOND := 1_000_000_000
  const OFFSET := SECOND
  const SLACK := 5
  const MIN_WAIT := 100_000_000

  // ---------- decision period ----------

  function DecisionInterval(reconcile: int, dt: int): int
    requires dt > 0
  {
    var c := (reconcile + dt - 1) / dt * dt;
    if c < dt then dt else c
  }

  function LeadDecisionInterval(reconcile: int, dt: int): int
    requires dt > 0
  {
    DecisionInterval(reconcile, dt) + SLACK
  }

  lemma DecisionIntervalOnGrid(reconcile: nat, dt: int)
    requires dt > 0
    ensures var c := DecisionInterval(reconcile, dt);
            && c % dt == 0 && dt <= c && reconcile <= c && (c == dt || c < reconcile + dt)
            && LeadDecisionInterval(reconcile, dt) == c + 5
  {
    RoundUp(reconcile, dt);
    MultipleHasNoRemainder(1, dt);
  }

  // ---------- the published lead ----------

  /** What a lead was chosen for; its hash is taken as injective. */
  datatype Basis = Basis(settings: Settings, fallback: Option<int>, minimum: int, allowance: int, decision: int)

  datatype Published = Published(basis: Option<Basis>, frozen: int, lead: Option<Lead>)

  /** What one reconcile resolved: the settings when valid, the startup configuration, and the startup budget. */
  datatype Inputs = Inputs(settings: Option<Settings>, fallback: Option<int>, minimum: int, allowance: int,
                           reconcile: int, budget: Option<int>, how: LeadMethod, samples: int, generation: int)

  ghost predicate Sensible(x: Inputs) {
    && (x.settings.Some? ==> InBounds(x.settings.value))
    && x.allowance >= 0 && x.reconcile >= 0 && x.samples >= 0 && x.generation >= 0
    && (x.budget.Some? ==> x.budget.value >= 0 && !x.how.NoMethod?)
  }

  function BasisOf(x: Inputs): Basis
    requires x.settings.Some? && x.settings.value.interval > 0
  {
    Basis(x.settings.value, x.fallback, x.minimum, x.allowance,
          LeadDecisionInterval(x.reconcile, x.settings.value.interval))
  }

  /** The lead carried over: only from a status of the same basis. */
  function Frozen(prev: Option<Published>, b: Basis): int {
    if prev.Some? && prev.value.basis == Some(b) then prev.value.frozen else 0
  }

  function WantedLead(prev: Option<Published>, x: Inputs): int
    requires x.settings.Some? && x.settings.value.interval > 0 && x.budget.Some?
  {
    var b := BasisOf(x);
    var lead := AutomaticLead(x.budget.value, b.decision, x.allowance, b.settings.interval);
    if Frozen(prev, b) > lead then Frozen(prev, b) else lead
  }

  function LeadOf(x: Inputs, seconds: int): Lead
    requires x.budget.Some?
  {
    Lead(seconds, x.budget.value, x.allowance, x.how, if x.how == Measured then x.samples else 0, x.generation)
  }

  function Prepare(prev: Option<Published>, x: Inputs): Published
    requires x.settings.Some? ==> x.settings.value.interval > 0
  {
    if x.settings.None? then Published(None, 0, None)
    else
      var b := BasisOf(x);
      var none := Published(Some(b), Frozen(prev, b), None);
      if x.budget.None? then none
      else
        var lead := WantedLead(prev, x);
        if lead > b.settings.horizon || !LeadAccepted(LeadOf(x, lead), b.settings, x.generation) then none
        else Published(Some(b), lead, Some(LeadOf(x, lead)))
  }

  /** The status of one autoscaler, as the API server holds it. */
  class LeadStatus {
    var stored: Option<Published>

    constructor ()
      ensures stored == None
    {
      stored := None;
    }

    /** Resolves and publishes the lead; nothing comes back, and nothing is requested, when the publication fails. */
    method Publish(x: Inputs, accepted: bool) returns (out: Option<Published>)
      requires Sensible(x)
      modifies this
      ensures var want := Some(Prepare(old(stored), x));
              out == if accepted || old(stored) == want then want else None
      ensures stored == if out.Some? then out else old(stored)
    {
      var want := Published(None, 0, None);
      if x.settings.Some? {
        var s := x.settings.value;
        var c := LeadDecisionInterval(x.reconcile, s.interval);
        want := want.(basis := Some(Basis(s, x.fallback, x.minimum, x.allowance, c)));
        var frozen := 0;
        if stored.Some? && stored.value.basis == want.basis {
          frozen := stored.value.frozen;
        }
        want := want.(frozen := frozen);
        if x.budget.Some? {
          var lead := AutomaticLead(x.budget.value, c, x.allowance, s.interval);
          if frozen > lead {
            lead := frozen;
          }
          if lead <= s.horizon && LeadAccepted(LeadOf(x, lead), s, x.generation) {
            want := want.(lead := Some(LeadOf(x, lead)), frozen := lead);
          }
        }
      }
      if stored != Some(want) {
        if !accepted {
          return None;
        }
        stored := Some(want);
      }
      return Some(want);
    }
  }

  /** The carried lead is a length that its own basis could have published. */
  ghost predicate Carried(p: Option<Published>) {
    p.Some? && p.value.basis.Some? ==>
      var s := p.value.basis.value.settings;
      s.interval > 0 && 0 <= p.value.frozen <= s.horizon && p.value.frozen % s.interval == 0
  }

  /** The lead covers startup, the longest period between two decisions, the allowance and one interval. */
  ghost predicate Covers(l: Lead, b: Basis) {
    l.startup + b.decision + l.allowance + b.settings.interval <= l.seconds
  }

  /** A lead is published exactly when there is a budget and the larger of the automatic and the carried lead fits the
      horizon; it then always passes the service's own check, covers the decision period, and is what is carried on. */
  lemma PublishedLead(prev: Option<Published>, x: Inputs)
    requires Sensible(x) && Carried(prev)
    ensures var p := Prepare(prev, x);
            && Carried(Some(p))
            && (p.lead.Some? <==> && x.settings.Some? && x.budget.Some?
                                  && WantedLead(prev, x) <= x.settings.value.horizon)
            && (p.lead.Some? ==>
                  && LeadAccepted(p.lead.value, x.settings.value, x.generation) && Covers(p.lead.value, BasisOf(x))
                  && p.lead.value.seconds % x.settings.value.interval == 0
                  && p.lead.value.allowance == x.allowance && p.lead.value.generation == x.generation
                  && p.lead.value.how == x.how && p.lead.value.samples == (if x.how == Measured then x.samples else 0)
                  && p.lead.value.startup == x.budget.value && p.lead.value.seconds == p.frozen == WantedLead(prev, x))
  {
    if x.settings.Some? && x.budget.Some? {
      WantedLeadAccepted(prev, x);
    }
  }

  lemma WantedLeadOnGrid(prev: Option<Published>, x: Inputs)
    requires Sensible(x) && Carried(prev) && x.settings.Some? && x.budget.Some?
    ensures var b, lead := BasisOf(x), WantedLead(prev, x);
            && b.settings.interval < b.decision && lead % b.settings.interval == 0
            && x.budget.value + b.decision + x.allowance + b.settings.interval <= lead
  {
    var b := BasisOf(x);
    DecisionIntervalOnGrid(x.reconcile, b.settings.interval);
    AutomaticLeadLeast(x.budget.value, b.decision, x.allowance, b.settings.interval);
  }

  lemma WantedLeadAccepted(prev: Option<Published>, x: Inputs)
    requires Sensible(x) && Carried(prev) && x.settings.Some? && x.budget.Some?
    ensures var b, lead := BasisOf(x), WantedLead(prev, x);
            && (LeadAccepted(LeadOf(x, lead), b.settings, x.generation) <==> lead <= b.settings.horizon)
            && Covers(LeadOf(x, lead), b) && lead % b.settings.interval == 0
  {
    WantedLeadOnGrid(prev, x);
  }

  /** Every published lead gives the exact deadline t + interval - allowance. */
  lemma PublishedDeadline(prev: Option<Published>, x: Inputs, t: int)
    requires Sensible(x) && Carried(prev) && Prepare(prev, x).lead.Some?
    ensures var l, d := Prepare(prev, x).lead.value, x.settings.value.interval;
            ValidUntil(Window(t, d, l.seconds), l.startup, l.allowance) == t + d - x.allowance
  {
    PublishedLead(prev, x);
    var d := x.settings.value.interval;
    DecisionIntervalOnGrid(x.reconcile, d);
    Deadline(Window(t, d, Prepare(prev, x).lead.value.seconds), x.budget.value, x.allowance);
  }

  // ---------- the lead over a run ----------

  /** What became of a status update. */
  datatype Update = Stored | Lost

  /** One reconcile on the v2 path, or one off it that clears the status. */
  datatype Step = On(x: Inputs, update: Update) | Off(update: Update)

  ghost predicate SensibleStep(step: Step) { step.On? ==> Sensible(step.x) }

  /** The lead is published: the update is stored, or there is nothing to update. */
  ghost predicate Publishes(p: Option<Published>, step: Step)
    requires SensibleStep(step)
  {
    step.On? && (step.update.Stored? || p == Some(Prepare(p, step.x)))
  }

  ghost function Next(p: Option<Published>, step: Step): Option<Published>
    requires SensibleStep(step)
  {
    match step
    case Off(update) => if update.Stored? then None else p
    case On(x, update) => if update.Stored? then Some(Prepare(p, x)) else p
  }

  /** One autoscaler's reconciles, with the stored status before each of them and after the last. */
  datatype History = History(steps: seq<Step>, stored: seq<Option<Published>>) {
    ghost predicate Valid() {
      && |stored| == |steps| + 1 && stored[0] == None
      && forall i :: 0 <= i < |steps| ==> StepAt(i)
    }

    ghost predicate StepAt(i: int) {
      && 0 <= i < |steps| && |stored| == |steps| + 1 && SensibleStep(steps[i])
      && stored[i + 1] == Next(stored[i], steps[i])
    }

    /** Step i asked for a forecast, on basis b, with a lead of so many seconds. */
    ghost predicate Issued(i: int, b: Basis, seconds: int) {
      && StepAt(i) && Publishes(stored[i], steps[i]) && OnBasis(steps[i], b)
      && Prepare(stored[i], steps[i].x).lead.Some? && Prepare(stored[i], steps[i].x).lead.value.seconds == seconds
    }
  }

  /** Every sequence of sensible steps is a history. */
  lemma {:induction false} Recorded(steps: seq<Step>) returns (h: History)
    requires forall i :: 0 <= i < |steps| ==> SensibleStep(steps[i])
    ensures h.Valid() && h.steps == steps
  {
    if steps == [] {
      h := History([], [None]);
    } else {
      var front, last := steps[..|steps| - 1], steps[|steps| - 1];
      var g := Recorded(front);
      assert SensibleStep(last);
      h := History(steps, g.stored + [Next(g.stored[|front|], last)]);
      forall i | 0 <= i < |steps| ensures h.StepAt(i) {
        if i < |front| {
          assert g.StepAt(i);
        }
      }
    }
  }

  ghost predicate OnBasis(step: Step, b: Basis) {
    step.On? && step.x.settings.Some? && step.x.settings.value.interval > 0 && BasisOf(step.x) == b
  }

  /** The step replaces the stored basis: a stored update off the v2 path or for another basis; a lost one does not. */
  ghost predicate Breaks(step: Step, b: Basis) { step.update.Stored? && !OnBasis(step, b) }

  ghost predicate Unbroken(h: History, i: int, j: int, b: Basis) {
    forall k :: i < k < j && 0 <= k < |h.steps| ==> !Breaks(h.steps[k], b)
  }

  /** The lead that the inputs of a step ask for by themselves. */
  function OwnLead(x: Inputs): int
    requires x.settings.Some? && x.settings.value.interval > 0 && x.budget.Some?
  {
    AutomaticLead(x.budget.value, BasisOf(x).decision, x.allowance, x.settings.value.interval)
  }

  lemma {:induction false} AlwaysCarried(h: History, n: nat)
    requires h.Valid() && n <= |h.steps|
    ensures Carried(h.stored[n])
  {
    if n > 0 {
      AlwaysCarried(h, n - 1);
      assert h.StepAt(n - 1);
      if h.steps[n - 1].On? {
        PublishedLead(h.stored[n - 1], h.steps[n - 1].x);
      }
    }
  }

  /** What an issued lead is made of, and what it leaves in the status. */
  lemma IssuedLead(h: History, i: nat, b: Basis, seconds: int)
    requires h.Valid() && h.Issued(i, b, seconds)
    ensures h.steps[i].x.budget.Some? && seconds == WantedLead(h.stored[i], h.steps[i].x) && seconds > 0
    ensures h.stored[i + 1].Some? && h.stored[i + 1].value.basis == Some(b) && h.stored[i + 1].value.frozen == seconds
  {
    AlwaysCarried(h, i);
    PublishedLead(h.stored[i], h.steps[i].x);
  }

  ghost predicate Keeps(p: Option<Published>, b: Basis, seconds: int) {
    p.Some? && p.value.basis == Some(b) && seconds <= p.value.frozen
  }

  lemma KeepsStep(p: Option<Published>, step: Step, b: Basis, seconds: int)
    requires SensibleStep(step) && !Breaks(step, b) && Keeps(p, b, seconds)
    ensures Keeps(Next(p, step), b, seconds)
  {
  }

  lemma {:induction false} RunKeeps(h: History, i: nat, n: nat, b: Basis, seconds: int)
    requires h.Valid() && i < n <= |h.steps| && Keeps(h.stored[i + 1], b, seconds) && Unbroken(h, i, n, b)
    ensures Keeps(h.stored[n], b, seconds)
  {
    if i + 1 < n {
      RunKeeps(h, i, n - 1, b, seconds);
      assert h.StepAt(n - 1);
      KeepsStep(h.stored[n - 1], h.steps[n - 1], b, seconds);
    }
  }

  /** While nothing replaces the basis in the status, the lead never shortens. */
  lemma LeadNeverShortens(h: History, i: nat, j: nat, b: Basis, first: int, second: int)
    requires h.Valid() && i <= j && h.Issued(i, b, first) && h.Issued(j, b, second) && Unbroken(h, i, j, b)
    ensures first <= second
  {
    if i < j {
      IssuedLead(h, i, b, first);
      IssuedLead(h, j, b, second);
      RunKeeps(h, i, j, b, first);
    }
  }

  /** A stored length for b that the step left is the step's own lead, or was stored before and the step does not
      break. */
  lemma FrozenFrom(p: Option<Published>, step: Step, b: Basis)
    requires SensibleStep(step) && Carried(p)
    requires Next(p, step).Some? && Next(p, step).value.basis == Some(b) && Next(p, step).value.frozen > 0
    ensures !Breaks(step, b)
    ensures || (p.Some? && p.value.basis == Some(b) && p.value.frozen == Next(p, step).value.frozen)
            || (&& step.update.Stored? && OnBasis(step, b) && Prepare(p, step.x).lead.Some?
                && Prepare(p, step.x).lead.value.seconds == Next(p, step).value.frozen == OwnLead(step.x))
  {
    if step.On? && step.update.Stored? {
      PublishedLead(p, step.x);
    }
  }

  lemma {:induction false} CarriedWasIssued(h: History, n: nat, b: Basis) returns (i: nat)
    requires h.Valid() && n <= |h.steps|
    requires h.stored[n].Some? && h.stored[n].value.basis == Some(b) && h.stored[n].value.frozen > 0
    ensures i < n && h.Issued(i, b, h.stored[n].value.frozen) && Unbroken(h, i, n, b)
    ensures h.steps[i].x.budget.Some? && OwnLead(h.steps[i].x) == h.stored[n].value.frozen
  {
    AlwaysCarried(h, n - 1);
    assert h.StepAt(n - 1);
    var p, step := h.stored[n - 1], h.steps[n - 1];
    FrozenFrom(p, step, b);
    if p.Some? && p.value.basis == Some(b) && p.value.frozen == h.stored[n].value.frozen {
      i := CarriedWasIssued(h, n - 1, b);
    } else {
      i := n - 1;
    }
  }

  /** Every issued lead is the own lead of a step of its unbroken stretch; with LeadNeverShortens, the largest of
      them. */
  lemma LeadWasAskedFor(h: History, j: nat, b: Basis, seconds: int) returns (i: nat)
    requires h.Valid() && h.Issued(j, b, seconds)
    ensures i <= j && h.Issued(i, b, seconds) && Unbroken(h, i, j, b)
    ensures h.steps[i].x.budget.Some? && OwnLead(h.steps[i].x) == seconds
  {
    IssuedLead(h, j, b, seconds);
    if OwnLead(h.steps[j].x) == seconds {
      i := j;
    } else {
      AlwaysCarried(h, j);
      i := CarriedWasIssued(h, j, b);
    }
  }

  /** Step k, after i, issued on b in the unbroken stretch up to j, and by itself asked for at least so many seconds. */
  ghost predicate Recovers(h: History, i: int, k: int, j: int, b: Basis, seconds: int) {
    && i < k <= j && 0 <= k < |h.steps| && Unbroken(h, k, j, b) && (exists s :: h.Issued(k, b, s))
    && h.steps[k].On? && h.steps[k].x.settings.Some? && h.steps[k].x.settings.value.interval > 0
    && h.steps[k].x.budget.Some? && seconds <= OwnLead(h.steps[k].x)
  }

  /**
   Exactly when a later lead of the same basis is not shorter: nothing replaced the basis in between, or some step
   issued since the basis was back asked for at least the earlier length by itself.
   */
  lemma LeadShortensIff(h: History, i: nat, j: nat, b: Basis, first: int, second: int)
    requires h.Valid() && i < j && h.Issued(i, b, first) && h.Issued(j, b, second)
    ensures first <= second <==> Unbroken(h, i, j, b) || exists k :: Recovers(h, i, k, j, b, first)
  {
    if Unbroken(h, i, j, b) {
      LeadNeverShortens(h, i, j, b, first, second);
    }
    if k :| Recovers(h, i, k, j, b, first) {
      var s :| h.Issued(k, b, s);
      IssuedLead(h, k, b, s);
      LeadNeverShortens(h, k, j, b, s, second);
    }
    if first <= second {
      var k := LeadWasAskedFor(h, j, b, second);
      if k <= i {
        assert Unbroken(h, i, j, b);
      } else {
        assert Recovers(h, i, k, j, b, first);
      }
    }
  }

  function ExampleInputs(allowance: int, budget: int): Inputs {
    var s := Settings(300, 3600, 120, 600, 1000, Calibration(128, 512, 7, 100, 2500), Trust(48, 64, 32, 9500, 10000));
    Inputs(Some(s), Some(600), 0, allowance, 60, Some(budget), Measured, 20, 1)
  }

  /** Across a basis that leaves and comes back the lead does shorten: the status holds one basis only. */
  lemma LeadShortensOnReturn() returns (h: History)
    ensures h.Valid() && h.Issued(0, BasisOf(ExampleInputs(15, 600)), 1500)
    ensures h.Issued(2, BasisOf(ExampleInputs(15, 600)), 900)
  {
    var x, y, z := ExampleInputs(15, 600), ExampleInputs(20, 600), ExampleInputs(15, 0);
    var p := Prepare(None, x);
    var q := Prepare(Some(p), y);
    var r := Prepare(Some(q), z);
    h := History([On(x, Stored), On(y, Stored), On(z, Stored)], [None, Some(p), Some(q), Some(r)]);
    assert p.lead.value.seconds == 1500 && r.lead.value.seconds == 900;
    assert h.StepAt(0) && h.StepAt(1) && h.StepAt(2);
  }

  // ---------- throttle and requeue ----------

  /** The grid origin of a decision started at `now`. */
  function Origin(now: int, dt: int): int
    requires dt > 0
  {
    now / SECOND / dt * dt
  }

  /** The last decision's origin, and whether the throttle entry still stands (a fast retry removes it). */
  datatype Throttle = Throttle(last: Option<int>, held: bool)

  predicate Decides(t: Throttle, now: int, dt: int, c: int)
    requires dt > 0
  {
    !(t.last.Some? && Origin(now, dt) < t.last.value + c && t.held)
  }

  function Wait(now: int, next: int): int {
    var d := next * SECOND + OFFSET - now;
    if d > MIN_WAIT then d else MIN_WAIT
  }

  /** A reconcile triggered at `now`; when it decides, `released` says whether it ended in a fast retry. */
  datatype Event = Trigger(now: int, released: bool) | Restart

  function Throttled(t: Throttle, e: Event, dt: int, c: int): Throttle
    requires dt > 0
  {
    match e
    case Restart => Throttle(None, false)
    case Trigger(now, released) =>
      if Decides(t, now, dt, c) then Throttle(Some(Origin(now, dt)), !released) else t
  }

  /** The scheduling state of one autoscaler. */
  class Schedule {
    var last: Option<int>
    var held: bool

    constructor ()
      ensures last == None && !held
    {
      last := None;
      held := false;
    }

    /** A trigger decides or asks to come back; the wait it returns is measured at `later`. */
    method OnTrigger(now: int, later: int, dt: int, c: int, released: bool) returns (decided: bool, wait: int)
      requires dt > 0
      modifies this
      ensures decided == Decides(Throttle(old(last), old(held)), now, dt, c)
      ensures Throttle(last, held) == Throttled(Throttle(old(last), old(held)), Trigger(now, released), dt, c)
      ensures !(decided && released) ==> last.Some? && wait == Wait(later, last.value + c)
      ensures decided && released ==> wait == 5_000_000_000
    {
      var origin := Origin(now, dt);
      if last.Some? && origin < last.value + c {
        if held {
          return false, Wait(later, last.value + c);
        }
      }
      last := Some(origin);
      held := true;
      if released {
        held := false;
        return true, 5 * SECOND;
      }
      return true, Wait(later, origin + c);
    }
  }

  function ThrottleAt(run: seq<Event>, n: nat, dt: int, c: int): Throttle
    requires dt > 0 && n <= |run|
  {
    if n == 0 then Throttle(None, false) else Throttled(ThrottleAt(run, n - 1, dt, c), run[n - 1], dt, c)
  }

  predicate DecidesAt(run: seq<Event>, n: nat, dt: int, c: int)
    requires dt > 0 && n < |run|
  {
    run[n].Trigger? && Decides(ThrottleAt(run, n, dt, c), run[n].now, dt, c)
  }

  /** The step neither restarts the operator nor decides and then releases the throttle. */
  predicate Holds(run: seq<Event>, n: nat, dt: int, c: int)
    requires dt > 0 && n < |run|
  {
    run[n].Trigger? && (DecidesAt(run, n, dt, c) ==> !run[n].released)
  }

  lemma {:induction false} LastOriginKept(run: seq<Event>, i: nat, n: nat, dt: int, c: int)
    requires dt > 0 && 0 <= c && i < n <= |run| && DecidesAt(run, i, dt, c)
    requires forall k :: i <= k < n ==> Holds(run, k, dt, c)
    ensures var t := ThrottleAt(run, n, dt, c); t.held && t.last.Some? && Origin(run[i].now, dt) <= t.last.value
  {
    assert Holds(run, n - 1, dt, c);
    if i < n - 1 {
      LastOriginKept(run, i, n - 1, dt, c);
    }
  }

  /** Whatever triggers the reconciles: two decisions with no restart and no released throttle between them have origins
      at least one decision period apart. */
  lemma DecisionsSpaced(run: seq<Event>, i: nat, j: nat, dt: int, c: int)
    requires dt > 0 && 0 <= c && i < j < |run| && DecidesAt(run, i, dt, c) && DecidesAt(run, j, dt, c)
    requires forall k :: i <= k < j ==> Holds(run, k, dt, c)
    ensures Origin(run[i].now, dt) + c <= Origin(run[j].now, dt)
  {
    LastOriginKept(run, i, j, dt, c);
  }

  lemma OriginFloor(now: nat, dt: int)
    requires dt > 0
    ensures Origin(now, dt) % dt == 0 && Origin(now, dt) * SECOND <= now < (Origin(now, dt) + dt) * SECOND
  {
    var s := now / SECOND;
    assert s == dt * (s / dt) + s % dt;
    MultipleHasNoRemainder(s / dt, dt);
  }

  lemma OriginReaches(now: nat, next: int, dt: int)
    requires dt > 0 && next % dt == 0 && next * SECOND <= now
    ensures next <= Origin(now, dt)
    ensures now < (next + dt) * SECOND ==> Origin(now, dt) == next
  {
    OriginFloor(now, dt);
    GridStep(next, Origin(now, dt), dt);
    GridStep(Origin(now, dt), next, dt);
  }

  /** Two different grid instants are at least one interval apart. */
  lemma GridStep(a: int, b: int, d: int)
    requires d > 0 && a % d == 0 && b % d == 0
    ensures a < b ==> a + d <= b
  {
    assert a == d * (a / d) && b == d * (b / d);
    if a < b {
      if b / d <= a / d {
        Scaled(b / d, a / d, d);
      }
      Scaled(a / d + 1, b / d, d);
      assert (a / d + 1) * d == a + d;
    }
  }

  lemma Scaled(a: int, b: int, d: int)
    requires a <= b && d > 0
    ensures a * d <= b * d
  {
    if a < b {
      StepsOrdered(a, b, d);
    }
  }

  /** The requeue is due one second after the next origin or, when that is nearly there, a tenth of a second from
      now. */
  lemma WaitIs(now: int, next: int)
    ensures var due := next * 1_000_000_000 + 1_000_000_000;
            now + Wait(now, next) == if now < due - 100_000_000 then due else now + 100_000_000
  {
  }

  /** A requeue set while `t` was the last origin (after that decision or after a throttled trigger) decides when it
      fires, unless another decision came first; fired within one interval, it decides for exactly the next origin. */
  lemma RequeueDecides(t: int, held: bool, later: nat, fired: int, dt: int, c: int)
    requires dt > 0 && t >= 0 && t % dt == 0 && c >= 0 && c % dt == 0 && later + Wait(later, t + c) <= fired
    ensures Decides(Throttle(Some(t), held), fired, dt, c)
    ensures fired < (t + c + dt) * SECOND ==> Origin(fired, dt) == t + c
  {
    SumOnGrid(t, c, dt);
    OriginReaches(fired, t + c, dt);
  }

  lemma SumOnGrid(a: int, b: int, d: int)
    requires d > 0 && a % d == 0 && b % d == 0
    ensures (a + b) % d == 0
  {
    assert a == d * (a / d) && b == d * (b / d);
    var q := a / d + b / d;
    assert a + b == q * d;
    if q >= 0 {
      MultipleHasNoRemainder(q, d);
    } else {
      NegativeMultiple(-q, d);
    }
  }

  lemma NegativeMultiple(q: int, d: int)
    requires d > 0 && q >= 0
    ensures (-q * d) % d == 0
  {
    MultipleHasNoRemainder(q, d);
    var x := -q * d;
    assert x == -(q * d);
    assert x == d * (x / d) + x % d;
    var e := x / d + q;
    assert x % d == -(e * d);
    if e < 0 {
      StepsOrdered(e, 0, d);
    } else if e > 0 {
      StepsOrdered(0, e, d);
    }
  }

  // ---------- consecutive windows ----------

  /** One decision: its origin and the lead it forecast with. */
  datatype Decision = Decision(origin: int, lead: Lead)

  ghost predicate PlannedFor(d: Decision, b: Basis) {
    && b.settings.interval > 0 && d.origin % b.settings.interval == 0
    && Covers(d.lead, b) && 0 <= d.lead.startup && d.lead.allowance == b.allowance
  }

  /** The next decision comes within the period that the lead allows for, with a startup budget or a lead that has not
      grown. */
  ghost predicate Follows(d: Decision, e: Decision, b: Basis) {
    && d.origin <= e.origin <= d.origin + b.decision + b.allowance
    && (e.lead.startup <= d.lead.startup || e.lead.seconds <= d.lead.seconds)
  }

  /** When the capacity asked for by a decision is ready: written by its deadline, created within the allowance, started
      within the startup budget. */
  function ReadyAt(d: Decision, b: Basis): int { d.origin + b.settings.interval + d.lead.startup }

  function WindowOf(d: Decision, b: Basis): Window { Window(d.origin, b.settings.interval, d.lead.seconds) }

  /** Each window reaches the moment the next decision's capacity is ready. */
  lemma WindowReachesNext(d: Decision, e: Decision, b: Basis)
    requires PlannedFor(d, b) && PlannedFor(e, b) && Follows(d, e, b)
    ensures ReadyAt(e, b) <= d.origin + d.lead.seconds
  {
  }

  lemma DifferenceOnGrid(a: int, b: int, d: int)
    requires d > 0 && a % d == 0 && b % d == 0
    ensures (a - b) % d == 0
  {
    assert b == d * (b / d);
    var q := -(b / d);
    assert -b == q * d;
    if q >= 0 {
      MultipleHasNoRemainder(q, d);
    } else {
      NegativeMultiple(-q, d);
    }
    SumOnGrid(a, -b, d);
  }

  /** A published lead gives a decision that is planned for its basis. */
  lemma PublishedIsPlanned(prev: Option<Published>, x: Inputs, now: nat)
    requires Sensible(x) && Carried(prev) && Prepare(prev, x).lead.Some?
    ensures PlannedFor(Decision(Origin(now, x.settings.value.interval), Prepare(prev, x).lead.value), BasisOf(x))
  {
    PublishedLead(prev, x);
    OriginFloor(now, x.settings.value.interval);
  }

  // ---------- the next decision ----------

  /** The clock does not go back. */
  ghost predicate InOrder(run: seq<Event>) {
    forall i, j :: 0 <= i <= j < |run| && run[i].Trigger? && run[j].Trigger? ==> 0 <= run[i].now <= run[j].now
  }

  /** The requeue of decision i, set at some later reading of the clock, fires within one interval of its time. */
  ghost predicate Punctual(run: seq<Event>, i: nat, dt: int, c: int)
    requires dt > 0 && i < |run| && run[i].Trigger?
  {
    exists j, later :: i < j < |run| && Requeue(run, i, j, later, dt, c)
  }

  ghost predicate Requeue(run: seq<Event>, i: nat, j: int, later: int, dt: int, c: int)
    requires dt > 0 && i < |run| && run[i].Trigger?
  {
    && 0 <= j < |run| && run[j].Trigger? && 0 <= later
    && var next := Origin(run[i].now, dt) + c; later + Wait(later, next) <= run[j].now < (next + dt) * SECOND
  }

  /** No trigger strictly between i and n decides. */
  ghost predicate NoneBetween(run: seq<Event>, i: int, n: int, dt: int, c: int)
    requires dt > 0
  {
    forall k :: i < k < n && 0 <= k < |run| ==> !DecidesAt(run, k, dt, c)
  }

  lemma {:induction false} LastDecision(run: seq<Event>, i: nat, n: nat, dt: int, c: int)
    requires dt > 0 && i < n <= |run| && DecidesAt(run, i, dt, c) && NoneBetween(run, i, n, dt, c)
    ensures var t := ThrottleAt(run, n, dt, c); t.last == Some(Origin(run[i].now, dt)) || t.last == None
  {
    if i + 1 < n {
      LastDecision(run, i, n - 1, dt, c);
      assert !DecidesAt(run, n - 1, dt, c);
    }
  }

  lemma OriginsInOrder(now: nat, later: nat, dt: int)
    requires dt > 0 && now <= later
    ensures Origin(now, dt) <= Origin(later, dt)
  {
    OriginFloor(now, dt);
    OriginReaches(later, Origin(now, dt), dt);
  }

  /** The first decision after i, up to a given one. */
  lemma {:induction false} FirstDecision(run: seq<Event>, i: nat, j: nat, dt: int, c: int) returns (n: nat)
    requires dt > 0 && i < j < |run| && exists k :: i < k <= j && DecidesAt(run, k, dt, c)
    ensures i < n <= j && DecidesAt(run, n, dt, c) && NoneBetween(run, i, n, dt, c)
  {
    if k :| i < k < j && DecidesAt(run, k, dt, c) {
      n := FirstDecision(run, i, j - 1, dt, c);
    } else {
      n := j;
    }
  }

  /** The requeue decides, for the next origin, unless another trigger has decided since. */
  lemma RequeueOrEarlier(run: seq<Event>, i: nat, j: nat, later: nat, dt: int, c: int)
    requires dt > 0 && c >= 0 && c % dt == 0 && i < j < |run| && DecidesAt(run, i, dt, c) && 0 <= run[i].now
    requires Requeue(run, i, j, later, dt, c)
    ensures Origin(run[j].now, dt) == Origin(run[i].now, dt) + c
    ensures exists k :: i < k <= j && DecidesAt(run, k, dt, c)
  {
    var t := Origin(run[i].now, dt);
    OriginFloor(run[i].now, dt);
    RequeueDecides(t, true, later, run[j].now, dt, c);
    if NoneBetween(run, i, j, dt, c) {
      LastDecision(run, i, j, dt, c);
      RequeueDecides(t, ThrottleAt(run, j, dt, c).held, later, run[j].now, dt, c);
      assert DecidesAt(run, j, dt, c);
    }
  }

  /** Whatever else triggers, restarts the operator or releases the throttle: after a decision with a punctual requeue
      the next one comes within one period, and, with no restart and no release, exactly one period later. */
  lemma NextDecision(run: seq<Event>, i: nat, dt: int, c: int) returns (n: nat)
    requires dt > 0 && c >= 0 && c % dt == 0 && InOrder(run)
    requires i < |run| && DecidesAt(run, i, dt, c) && Punctual(run, i, dt, c)
    ensures i < n < |run| && DecidesAt(run, n, dt, c) && NoneBetween(run, i, n, dt, c)
    ensures Origin(run[i].now, dt) <= Origin(run[n].now, dt) <= Origin(run[i].now, dt) + c
    ensures (forall k :: i <= k < n ==> Holds(run, k, dt, c)) ==>
              Origin(run[n].now, dt) == Origin(run[i].now, dt) + c
  {
    var j, later :| i < j < |run| && Requeue(run, i, j, later, dt, c);
    assert 0 <= run[i].now <= run[j].now;
    RequeueOrEarlier(run, i, j, later, dt, c);
    n := FirstDecision(run, i, j, dt, c);
    assert 0 <= run[i].now <= run[n].now <= run[j].now;
    OriginsInOrder(run[i].now, run[n].now, dt);
    OriginsInOrder(run[n].now, run[j].now, dt);
    if forall k :: i <= k < n ==> Holds(run, k, dt, c) {
      DecisionsSpaced(run, i, n, dt, c);
    }
  }

  // ---------- coverage over a run ----------

  /** The period of the decisions of a basis. */
  function Period(b: Basis): int { b.decision - SLACK }

  /** One autoscaler over its triggers: what each would resolve if it decides, and the stored status before each of them
      and after the last. Only a reconcile that decides resolves and publishes a lead. */
  datatype Service = Service(run: seq<Event>, steps: seq<Step>, stored: seq<Option<Published>>) {
    ghost predicate Valid(b: Basis)
      requires b.settings.interval > 0
    {
      && |steps| == |run| && |stored| == |run| + 1 && stored[0] == None && InOrder(run)
      && forall i :: 0 <= i < |run| ==> StepAt(i, b)
    }

    ghost predicate StepAt(i: int, b: Basis)
      requires b.settings.interval > 0
    {
      && 0 <= i < |run| && |steps| == |run| && |stored| == |run| + 1 && SensibleStep(steps[i])
      && stored[i + 1] == if DecidesFor(i, b) then Next(stored[i], steps[i]) else stored[i]
    }

    ghost predicate DecidesFor(i: int, b: Basis)
      requires b.settings.interval > 0
    {
      0 <= i < |run| && DecidesAt(run, i, b.settings.interval, Period(b))
    }

    /** Trigger i decides, and asks for a forecast on basis b. */
    ghost predicate IssuesFor(i: int, b: Basis)
      requires b.settings.interval > 0
    {
      && DecidesFor(i, b) && StepAt(i, b) && Publishes(stored[i], steps[i]) && OnBasis(steps[i], b)
      && Prepare(stored[i], steps[i].x).lead.Some?
    }

    ghost function DecisionAt(i: int, b: Basis): Decision
      requires b.settings.interval > 0 && IssuesFor(i, b)
    {
      Decision(Origin(run[i].now, b.settings.interval), Prepare(stored[i], steps[i].x).lead.value)
    }
  }

  /** From `first` to `last`, every decision asks for a forecast on the basis, by itself for no more than `seconds`, and
      every one but the last has a punctual requeue. */
  ghost predicate KeepsUp(s: Service, b: Basis, first: nat, last: nat, seconds: int)
    requires b.settings.interval > 0
  {
    && first <= last && s.IssuesFor(first, b) && s.IssuesFor(last, b)
    && (forall k :: first <= k <= last && s.DecidesFor(k, b) ==>
          s.IssuesFor(k, b) && (s.steps[k].x.budget.Some? ==> OwnLead(s.steps[k].x) <= seconds))
    && (forall k :: first <= k < last && s.DecidesFor(k, b) ==> Punctual(s.run, k, b.settings.interval, Period(b)))
  }

  lemma {:induction false} ServedCarried(s: Service, b: Basis, n: nat)
    requires b.settings.interval > 0 && s.Valid(b) && n <= |s.run|
    ensures Carried(s.stored[n])
  {
    if n > 0 {
      ServedCarried(s, b, n - 1);
      assert s.StepAt(n - 1, b);
      if s.steps[n - 1].On? {
        PublishedLead(s.stored[n - 1], s.steps[n - 1].x);
      }
    }
  }

  lemma {:induction false} StoredBetween(s: Service, b: Basis, i: nat, n: nat)
    requires b.settings.interval > 0 && s.Valid(b) && i < n <= |s.run|
    requires NoneBetween(s.run, i, n, b.settings.interval, Period(b))
    ensures s.stored[n] == s.stored[i + 1]
  {
    if i + 1 < n {
      StoredBetween(s, b, i, n - 1);
      assert s.StepAt(n - 1, b) && !DecidesAt(s.run, n - 1, b.settings.interval, Period(b));
    }
  }

  lemma PlannedAt(s: Service, b: Basis, i: nat)
    requires b.settings.interval > 0 && s.Valid(b) && s.IssuesFor(i, b)
    ensures PlannedFor(s.DecisionAt(i, b), b) && b.allowance >= 0 && Period(b) >= 0
    ensures Period(b) % b.settings.interval == 0
  {
    var x := s.steps[i].x;
    ServedCarried(s, b, i);
    assert 0 <= s.run[i].now;
    PublishedIsPlanned(s.stored[i], x, s.run[i].now);
    DecisionIntervalOnGrid(x.reconcile, b.settings.interval);
  }

  /** The lead is carried over: the next decision has the same one while nothing asks for a longer one. */
  lemma SameLead(s: Service, b: Basis, i: nat, n: nat)
    requires b.settings.interval > 0 && s.Valid(b) && i < n && s.IssuesFor(i, b) && s.IssuesFor(n, b)
    requires NoneBetween(s.run, i, n, b.settings.interval, Period(b))
    requires s.steps[n].x.budget.Some? ==> OwnLead(s.steps[n].x) <= s.DecisionAt(i, b).lead.seconds
    ensures s.DecisionAt(n, b).lead.seconds == s.DecisionAt(i, b).lead.seconds
  {
    ServedCarried(s, b, i);
    ServedCarried(s, b, n);
    StoredBetween(s, b, i, n);
    PublishedLead(s.stored[i], s.steps[i].x);
    PublishedLead(s.stored[n], s.steps[n].x);
  }

  /** One decision to the next: its window reaches the moment the next one's capacity is ready. */
  lemma NextReached(s: Service, b: Basis, i: nat, last: nat) returns (n: nat)
    requires b.settings.interval > 0 && s.Valid(b) && i < last && s.IssuesFor(i, b)
    requires KeepsUp(s, b, i, last, s.DecisionAt(i, b).lead.seconds)
    ensures i < n <= last && s.IssuesFor(n, b)
    ensures s.DecisionAt(n, b).lead.seconds == s.DecisionAt(i, b).lead.seconds
    ensures ReadyAt(s.DecisionAt(n, b), b) <= s.DecisionAt(i, b).origin + s.DecisionAt(i, b).lead.seconds
  {
    PlannedAt(s, b, i);
    n := NextDecision(s.run, i, b.settings.interval, Period(b));
    assert s.DecidesFor(last, b) && s.DecidesFor(n, b);
    SameLead(s, b, i, n);
    PlannedAt(s, b, n);
    WindowReachesNext(s.DecisionAt(i, b), s.DecisionAt(n, b), b);
  }

  /**
   Coverage from the run itself: while requeues are punctual, every decision asks for a forecast on one basis and no
   startup budget needs more than the lead in force, no grid instant from the first decision's readiness to the end of
   the last window is left out. Some decision had its capacity ready by then, and the instant is one of its window's
   targets. Other triggers, restarts and fast retries may come in between.
   */
  lemma {:induction false} NoInstantUncovered(s: Service, b: Basis, first: nat, last: nat, g: int) returns (k: nat)
    requires b.settings.interval > 0 && s.Valid(b) && s.IssuesFor(first, b) && s.IssuesFor(last, b)
    requires KeepsUp(s, b, first, last, s.DecisionAt(first, b).lead.seconds) && g % b.settings.interval == 0
    requires ReadyAt(s.DecisionAt(first, b), b) <= g
    requires g <= s.DecisionAt(last, b).origin + s.DecisionAt(last, b).lead.seconds
    ensures first <= k <= last && s.IssuesFor(k, b)
    ensures ReadyAt(s.DecisionAt(k, b), b) <= g && InWindow(WindowOf(s.DecisionAt(k, b), b), g)
    decreases last - first
  {
    var d := s.DecisionAt(first, b);
    if g <= d.origin + d.lead.seconds {
      k := first;
      PlannedAt(s, b, first);
      DifferenceOnGrid(g, d.origin, b.settings.interval);
    } else {
      var n := NextReached(s, b, first, last);
      k := NoInstantUncovered(s, b, n, last, g);
    }
  }
}
