/**
 What holds over every run of the operator (k8s-operator/controllers/predictiveautoscaler_controller.go): reconciles
 with a nondecreasing clock and arbitrary inputs, restarts at any point, mode switches, replaced targets and changed
 queries.
 */
module ScaleRuns {
  import opened Wrappers
  import opened ScaleState
  import opened Controller

  /** A restart loses the memory; a reconcile updates it. */
  datatype Step = Restart | Run(x: Input)

  function Next(s: Memory, step: Step): (Memory, Action) {
    match step
    case Restart => (EMPTY, Stopped)
    case Run(x) => Reconcile(s, x)
  }

  /** A run: its steps, the memory before each of them and after the last, and what each did. */
  datatype History = History(steps: seq<Step>, memories: seq<Memory>, actions: seq<Action>) {
    ghost predicate Valid() {
      && |memories| == |steps| + 1 && |actions| == |steps| && memories[0] == EMPTY
      && forall i :: 0 <= i < |steps| ==> StepAt(i)
    }

    /** Step i leads from memory i to memory i + 1. */
    ghost predicate StepAt(i: int) {
      && 0 <= i < |steps| && |memories| == |steps| + 1 && |actions| == |steps|
      && (memories[i + 1], actions[i]) == Next(memories[i], steps[i])
    }

    /** The clock never goes back. */
    ghost predicate Clocked() {
      && (forall i :: 0 <= i < |steps| && steps[i].Run? ==> steps[i].x.start <= steps[i].x.ruled <= steps[i].x.ack)
      && (forall i, j :: 0 <= i < j < |steps| && steps[i].Run? && steps[j].Run? ==> steps[i].x.ack <= steps[j].x.start)
    }
  }

  /** Every sequence of steps is a run. */
  lemma {:induction false} Played(steps: seq<Step>) returns (h: History)
    ensures h.Valid() && h.steps == steps
  {
    if steps == [] {
      h := History([], [EMPTY], []);
    } else {
      var front, last := steps[..|steps| - 1], steps[|steps| - 1];
      var g := Played(front);
      var (m, a) := Next(g.memories[|front|], last);
      h := History(steps, g.memories + [m], g.actions + [a]);
      forall i | 0 <= i < |steps| ensures h.StepAt(i) {
        if i < |front| {
          assert g.StepAt(i);
        }
      }
    }
  }

  /** The memory the scale-down rule reads. */
  function RuleMemory(s: Memory, x: Input): Memory { Tracked(Signalled(Begin(s, x), x), x).0 }

  predicate FreshActive(s: Memory, x: Input) {
    x.mode == Active && (s.mode != Some(Active) || s.targetUID != x.uid)
  }

  // ---------- hold timers ----------

  /** An Active memory remembers a scale-down or fresh start no earlier than `since`. */
  ghost predicate KeepsDown(s: Memory, since: int) {
    s.mode == Some(Active) ==> s.lastDown.Some? && since <= s.lastDown.value
  }

  /** An Active memory remembers a scale-up or fresh start no earlier than `since`, and a running below-current timer
      started a full window after it. */
  ghost predicate KeepsUp(s: Memory, since: int) {
    s.mode == Some(Active) ==>
      && s.lastUp.Some? && since <= s.lastUp.value
      && (s.belowSince.Some? ==> s.lastUp.value + STABILIZATION <= s.belowSince.value)
  }

  /** Tracking touches only the forecast-dependent part. */
  lemma TrackingFrame(s: Memory, x: Input)
    ensures var t := Tracked(s, x).0;
            && t.lastUp == s.lastUp && t.lastDown == s.lastDown && t.belowSince == s.belowSince
            && t.mode == s.mode && t.signal == s.signal && t.targetUID == s.targetUID
  {
  }

  lemma BeginKeeps(s: Memory, x: Input, up: int, down: int)
    requires up <= x.start && down <= x.start
    ensures KeepsUp(s, up) ==> KeepsUp(Begin(s, x), up)
    ensures KeepsDown(s, down) ==> KeepsDown(Begin(s, x), down)
  {
  }

  /** From the reset on, the rest of the reconcile keeps what the reset left. */
  lemma RestKeeps(s: Memory, x: Input, up: int, down: int)
    requires up <= x.ruled <= x.ack && down <= x.ack && x.stage == Complete
    ensures KeepsUp(Begin(s, x), up) ==> KeepsUp(RuleMemory(s, x), up)
    ensures KeepsDown(Begin(s, x), down) ==> KeepsDown(RuleMemory(s, x), down)
    ensures RuleMemory(s, x).mode == Some(x.mode)
  {
    TrackingFrame(Signalled(Begin(s, x), x), x);
  }

  lemma ApplyKeeps(t: Memory, x: Input, desired: int, up: int, down: int)
    requires up <= x.ruled <= x.ack && down <= x.ack && t.mode == Some(x.mode)
    ensures KeepsUp(t, up) ==> KeepsUp(Apply(t, x, desired).0, up)
    ensures KeepsDown(t, down) ==> KeepsDown(Apply(t, x, desired).0, down)
    ensures Apply(t, x, desired).1.ScaledUp? && up <= x.ack ==> KeepsUp(Apply(t, x, desired).0, x.ack)
    ensures Apply(t, x, desired).1.ScaledDown? ==> KeepsDown(Apply(t, x, desired).0, x.ack)
  {
  }

  /** One reconcile after its reset: it keeps both anchors, and an acknowledged write becomes a new one. */
  lemma StepKeeps(s: Memory, x: Input, up: int, down: int)
    requires up <= x.ruled <= x.ack && down <= x.ack
    ensures KeepsUp(Begin(s, x), up) ==> KeepsUp(Reconcile(s, x).0, up)
    ensures KeepsDown(Begin(s, x), down) ==> KeepsDown(Reconcile(s, x).0, down)
    ensures Reconcile(s, x).1.ScaledUp? ==> KeepsUp(Reconcile(s, x).0, x.ack)
    ensures Reconcile(s, x).1.ScaledDown? ==> KeepsDown(Reconcile(s, x).0, x.ack)
  {
    if x.stage == Complete {
      RestKeeps(s, x, up, down);
      ApplyKeeps(RuleMemory(s, x), x, Desired(Signalled(Begin(s, x), x), x), up, down);
    }
  }

  /** From step i on no reconcile starts before `since`. */
  ghost predicate StartsAfter(h: History, i: nat, since: int) {
    forall k :: i <= k < |h.steps| && h.steps[k].Run?
        ==> since <= h.steps[k].x.start <= h.steps[k].x.ruled <= h.steps[k].x.ack
  }

  lemma NextKeepsDown(s: Memory, step: Step, since: int)
    requires KeepsDown(s, since)
    requires step.Run? ==> since <= step.x.start <= step.x.ruled <= step.x.ack
    ensures KeepsDown(Next(s, step).0, since)
  {
    if step.Run? {
      BeginKeeps(s, step.x, since, since);
      StepKeeps(s, step.x, since, since);
    }
  }

  lemma NextKeepsUp(s: Memory, step: Step, since: int)
    requires KeepsUp(s, since)
    requires step.Run? ==> since <= step.x.start <= step.x.ruled <= step.x.ack
    ensures KeepsUp(Next(s, step).0, since)
  {
    if step.Run? {
      BeginKeeps(s, step.x, since, since);
      StepKeeps(s, step.x, since, since);
    }
  }

  lemma {:induction false} RunKeepsDown(h: History, i: nat, n: nat, since: int)
    requires h.Valid() && i <= n <= |h.steps| && KeepsDown(h.memories[i], since) && StartsAfter(h, i, since)
    ensures KeepsDown(h.memories[n], since)
  {
    if i < n {
      RunKeepsDown(h, i, n - 1, since);
      assert h.StepAt(n - 1);
      NextKeepsDown(h.memories[n - 1], h.steps[n - 1], since);
    }
  }

  lemma {:induction false} RunKeepsUp(h: History, i: nat, n: nat, since: int)
    requires h.Valid() && i <= n <= |h.steps| && KeepsUp(h.memories[i], since) && StartsAfter(h, i, since)
    ensures KeepsUp(h.memories[n], since)
  {
    if i < n {
      RunKeepsUp(h, i, n - 1, since);
      assert h.StepAt(n - 1);
      NextKeepsUp(h.memories[n - 1], h.steps[n - 1], since);
    }
  }

  /** What the scale-down rule required of an acknowledged scale-down. */
  lemma DownNeeds(s: Memory, x: Input)
    requires Reconcile(s, x).1.ScaledDown?
    ensures x.mode == Active && x.stage == Complete && x.write == Acknowledged
    ensures var t := RuleMemory(s, x);
            && !Within(t.lastDown, x.ruled, COOLDOWN)
            && (t.holds.Enforced? ==>
                  && !Within(t.lastUp, x.ruled, STABILIZATION)
                  && t.belowSince.Some? && STABILIZATION <= x.ruled - t.belowSince.value)
  {
  }

  lemma DownAfterDown(s: Memory, x: Input, since: int)
    requires Reconcile(s, x).1.ScaledDown? && KeepsDown(s, since) && since <= x.start <= x.ruled <= x.ack
    ensures since + COOLDOWN <= x.ruled
  {
    BeginKeeps(s, x, since, since);
    DownNeeds(s, x);
    RestKeeps(s, x, since, since);
  }

  lemma DownAfterUp(s: Memory, x: Input, since: int)
    requires Reconcile(s, x).1.ScaledDown? && RuleMemory(s, x).holds.Enforced?
    requires KeepsUp(s, since) && since <= x.start <= x.ruled <= x.ack
    ensures since + 2 * STABILIZATION <= x.ruled
  {
    BeginKeeps(s, x, since, since);
    DownNeeds(s, x);
    RestKeeps(s, x, since, since);
  }

  /** A scale-down at step j, seen from an anchor that memory i keeps. */
  lemma DownLater(h: History, i: nat, j: nat, since: int)
    requires h.Valid() && i <= j < |h.steps| && h.steps[j].Run? && h.actions[j].ScaledDown?
    requires KeepsDown(h.memories[i], since) && StartsAfter(h, i, since)
    ensures since + COOLDOWN <= h.steps[j].x.ruled
  {
    RunKeepsDown(h, i, j, since);
    assert h.StepAt(j);
    DownAfterDown(h.memories[j], h.steps[j].x, since);
  }

  lemma DownMuchLater(h: History, i: nat, j: nat, since: int)
    requires h.Valid() && i <= j < |h.steps| && h.steps[j].Run? && h.actions[j].ScaledDown?
    requires RuleMemory(h.memories[j], h.steps[j].x).holds.Enforced?
    requires KeepsUp(h.memories[i], since) && StartsAfter(h, i, since)
    ensures since + 2 * STABILIZATION <= h.steps[j].x.ruled
  {
    RunKeepsUp(h, i, j, since);
    assert h.StepAt(j);
    DownAfterUp(h.memories[j], h.steps[j].x, since);
  }

  /** Only a reconcile scales. */
  lemma ScalesMeansRun(h: History, i: nat)
    requires h.Valid() && i < |h.steps| && (h.actions[i].ScaledDown? || h.actions[i].ScaledUp?)
    ensures h.steps[i].Run?
  {
    assert h.StepAt(i);
  }

  lemma DownAnchors(h: History, i: nat)
    requires h.Valid() && h.Clocked() && i < |h.steps| && h.steps[i].Run? && h.actions[i].ScaledDown?
    ensures KeepsDown(h.memories[i + 1], h.steps[i].x.ack) && StartsAfter(h, i + 1, h.steps[i].x.ack)
  {
    assert h.StepAt(i);
    StepKeeps(h.memories[i], h.steps[i].x, h.steps[i].x.start, h.steps[i].x.start);
  }

  lemma UpAnchors(h: History, i: nat)
    requires h.Valid() && h.Clocked() && i < |h.steps| && h.steps[i].Run? && h.actions[i].ScaledUp?
    ensures KeepsUp(h.memories[i + 1], h.steps[i].x.ack) && StartsAfter(h, i + 1, h.steps[i].x.ack)
  {
    assert h.StepAt(i);
    StepKeeps(h.memories[i], h.steps[i].x, h.steps[i].x.start, h.steps[i].x.start);
  }

  lemma FreshAnchors(h: History, i: nat)
    requires h.Valid() && h.Clocked() && i < |h.steps| && h.steps[i].Run? && FreshActive(h.memories[i], h.steps[i].x)
    ensures KeepsUp(h.memories[i + 1], h.steps[i].x.start) && KeepsDown(h.memories[i + 1], h.steps[i].x.start)
    ensures StartsAfter(h, i + 1, h.steps[i].x.start)
  {
    assert h.StepAt(i);
    StepKeeps(h.memories[i], h.steps[i].x, h.steps[i].x.start, h.steps[i].x.start);
  }

  /**
   Over every run, with or without the override: two acknowledged scale-downs are at least two minutes apart, counted
   from the first one's acknowledgement to the moment the second one was decided.
   */
  lemma ScaleDownsSpaced(h: History, i: nat, j: nat)
    requires h.Valid() && h.Clocked() && i < j < |h.steps| && h.actions[i].ScaledDown? && h.actions[j].ScaledDown?
    ensures h.steps[i].Run? && h.steps[j].Run?
    ensures h.steps[i].x.ack + 120_000_000_000 <= h.steps[j].x.ruled <= h.steps[j].x.ack
  {
    ScalesMeansRun(h, i);
    ScalesMeansRun(h, j);
    DownAnchors(h, i);
    DownLater(h, i + 1, j, h.steps[i].x.ack);
  }

  /** The instant from which step i keeps scale-downs away: an acknowledged scale-up, or a fresh Active state. */
  ghost predicate Anchors(h: History, i: nat, at: int) {
    && h.Valid() && i < |h.steps| && h.steps[i].Run?
    && ((h.actions[i].ScaledUp? && at == h.steps[i].x.ack)
        || (FreshActive(h.memories[i], h.steps[i].x) && at == h.steps[i].x.start))
  }

  lemma AnchorKeeps(h: History, i: nat, at: int)
    requires h.Clocked() && Anchors(h, i, at)
    ensures KeepsUp(h.memories[i + 1], at) && StartsAfter(h, i + 1, at)
  {
    if h.actions[i].ScaledUp? && at == h.steps[i].x.ack {
      UpAnchors(h, i);
    } else {
      FreshAnchors(h, i);
    }
  }

  /**
   Over every run: a scale-down without an active override comes at least ten minutes after every earlier acknowledged
   scale-up and after every fresh Active state (restart, switch to Active, replaced target): two full windows.
   */
  lemma ScaleDownAfterTwoWindows(h: History, i: nat, j: nat, at: int)
    requires h.Clocked() && Anchors(h, i, at) && i < j < |h.steps| && h.steps[j].Run? && h.actions[j].ScaledDown?
    requires RuleMemory(h.memories[j], h.steps[j].x).holds.Enforced?
    ensures at + 600_000_000_000 <= h.steps[j].x.ruled
  {
    AnchorKeeps(h, i, at);
    DownMuchLater(h, i + 1, j, at);
  }

  /** Even under the override, a fresh Active state keeps scale-downs away for the cooldown. */
  lemma ScaleDownAfterFreshStart(h: History, i: nat, j: nat)
    requires h.Valid() && h.Clocked() && i < j < |h.steps| && h.steps[i].Run?
        && FreshActive(h.memories[i], h.steps[i].x)
    requires h.steps[j].Run? && h.actions[j].ScaledDown?
    ensures h.steps[i].x.start + 120_000_000_000 <= h.steps[j].x.ruled
  {
    FreshAnchors(h, i);
    DownLater(h, i + 1, j, h.steps[i].x.start);
  }

  // ---------- the below-current window ----------

  /** A step that restarts the below-current timer. */
  predicate Interrupts(s: Memory, step: Step) {
    match step
    case Restart => true
    case Run(x) =>
      || s.mode != Some(x.mode) || s.targetUID != x.uid
      || (x.stage != InvalidQuery && s.signal != x.signal)
      || Interrupting(Reconcile(s, x).1)
  }

  predicate Interrupting(a: Action) {
    a.AtTarget? || a.HeadroomHold? || a.ConflictHold? || a.ScaledUp?
  }

  lemma ApplyTimer(t: Memory, x: Input, desired: int)
    requires x.mode == Active || t.belowSince.None?
    ensures var (u, a) := Apply(t, x, desired);
            u.belowSince.Some? ==> || (u.belowSince == t.belowSince && !Interrupting(a))
                                   || (u.belowSince == Some(x.ruled) && a == Pending)
  {
  }

  /** Outside Active mode no timer runs. */
  ghost predicate TimerOnlyActive(s: Memory) { s.belowSince.Some? ==> s.mode == Some(Active) }

  /** A running timer either ran before and was not interrupted, or was started by this reconcile's hold. */
  lemma TimerStep(s: Memory, step: Step)
    requires TimerOnlyActive(s)
    ensures var (t, a) := Next(s, step);
            && TimerOnlyActive(t)
            && (t.belowSince.Some? ==>
                  && step.Run?
                  && (|| (t.belowSince == s.belowSince && !Interrupts(s, step))
                      || (t.belowSince == Some(step.x.ruled) && a == Pending)))
  {
    if step.Run? && step.x.stage == Complete {
      var x := step.x;
      TrackingFrame(Signalled(Begin(s, x), x), x);
      ApplyTimer(RuleMemory(s, x), x, Desired(Signalled(Begin(s, x), x), x));
    }
  }

  lemma {:induction false} TimersOnlyActive(h: History, n: nat)
    requires h.Valid() && n <= |h.steps|
    ensures TimerOnlyActive(h.memories[n])
  {
    if n > 0 {
      TimersOnlyActive(h, n - 1);
      assert h.StepAt(n - 1);
      TimerStep(h.memories[n - 1], h.steps[n - 1]);
    }
  }

  ghost predicate InterruptsAt(h: History, k: nat) {
    k < |h.steps| && k < |h.memories| && Interrupts(h.memories[k], h.steps[k])
  }

  /** No step strictly between w and n interrupts. */
  ghost predicate Unbroken(h: History, w: nat, n: nat) { forall k :: w < k < n ==> !InterruptsAt(h, k) }

  lemma {:induction false} TimerStart(h: History, n: nat) returns (w: nat)
    requires h.Valid() && n <= |h.steps| && h.memories[n].belowSince.Some?
    ensures w < n && h.steps[w].Run? && h.actions[w] == Pending && h.steps[w].x.ruled == h.memories[n].belowSince.value
    ensures Unbroken(h, w, n)
  {
    var s, step := h.memories[n - 1], h.steps[n - 1];
    TimersOnlyActive(h, n - 1);
    assert h.StepAt(n - 1);
    TimerStep(s, step);
    if s.belowSince == h.memories[n].belowSince && !Interrupts(s, step) {
      w := TimerStart(h, n - 1);
      OneMoreUnbroken(h, w, n - 1);
    } else {
      w := n - 1;
    }
  }

  lemma DownKeepsTimer(s: Memory, x: Input)
    requires Reconcile(s, x).1.ScaledDown? && RuleMemory(s, x).belowSince.Some?
    ensures s.belowSince == RuleMemory(s, x).belowSince && !Interrupts(s, Run(x))
  {
    TrackingFrame(Signalled(Begin(s, x), x), x);
  }

  /** A scale-down without override finds the timer it inherited a full window old. */
  lemma DownTimer(s: Memory, x: Input)
    requires Reconcile(s, x).1.ScaledDown? && RuleMemory(s, x).holds.Enforced?
    ensures s.belowSince.Some? && STABILIZATION <= x.ruled - s.belowSince.value && !Interrupts(s, Run(x))
  {
    DownNeeds(s, x);
    DownKeepsTimer(s, x);
  }

  /**
   Over every run: a scale-down without an active override ends an unbroken window of at least five minutes. It began
   with a held scale-down, and no reconcile inside it was at target, held for headroom or for another writer, scaled up,
   or saw a restart, another mode, another target or another query.
   */
  lemma ScaleDownEndsUnbrokenWindow(h: History, j: nat) returns (w: nat)
    requires h.Valid() && j < |h.steps| && h.steps[j].Run? && h.actions[j].ScaledDown?
    requires RuleMemory(h.memories[j], h.steps[j].x).holds.Enforced?
    ensures w < j && h.steps[w].Run? && h.actions[w] == Pending
    ensures 300_000_000_000 <= h.steps[j].x.ruled - h.steps[w].x.ruled
    ensures Unbroken(h, w, j + 1)
  {
    assert h.StepAt(j);
    DownTimer(h.memories[j], h.steps[j].x);
    w := TimerStart(h, j);
    OneMoreUnbroken(h, w, j);
  }

  lemma OneMoreUnbroken(h: History, w: nat, n: nat)
    requires Unbroken(h, w, n) && !InterruptsAt(h, n)
    ensures Unbroken(h, w, n + 1)
  {
  }

  // ---------- what a write may do ----------

  /** Whatever the forecast and the override say, an acknowledged write under a measured need leaves at least the
      clamped reactive count and, on the way down, the headroom floor; without a measured need it only moves the count
      toward the configured bounds; and a scale-down removes at most max(2, 10 %). */
  lemma WriteBounds(s: Memory, x: Input)
    requires 1 <= x.min
    ensures var a := Reconcile(s, x).1;
            var to := if a.ScaledUp? || a.ScaledDown? then a.to else x.current;
            && (a.ScaledUp? ==> x.current < to)
            && (a.ScaledDown? ==> to < x.current && FloorOf(x) <= to && x.current - to <= MaxRemove(x.current))
            && (x.measured && to != x.current ==> Clamp(Max(x.reactive, x.min), x.min, x.max) <= to)
            && (!x.measured && to > x.current ==> to == Clamp(x.current, x.min, x.max))
            && (!x.measured && to < x.current ==> Clamp(x.current, x.min, x.max) <= to)
  {
  }

  /** An acknowledged scale-down writes the gradual target of the eventual count. */
  lemma ScaleDownIsGradual(s: Memory, x: Input)
    requires Reconcile(s, x).1.ScaledDown?
    ensures var e := Max(Desired(Signalled(Begin(s, x), x), x), FloorOf(x));
            e < x.current && Reconcile(s, x).1.to == GradualTarget(x.current, e)
  {
  }

  /** The count after k applied scale-downs toward a fixed eventual count. */
  function Shrink(c: int, e: int, k: nat): int {
    if k == 0 then c else GradualTarget(Shrink(c, e, k - 1), e)
  }

  /** It falls by at least two a step until the eventual count, which it reaches in at most ceil((c - e) / 2) steps,
      never goes below and never leaves. */
  lemma {:induction false} Converges(c: int, e: int, k: nat)
    requires 1 <= e <= c
    ensures e <= Shrink(c, e, k) <= Max(c - 2 * k, e)
    ensures k > 0 ==> Shrink(c, e, k - 1) - Shrink(c, e, k) <= MaxRemove(Shrink(c, e, k - 1))
    ensures (c - e + 1) / 2 <= k ==> Shrink(c, e, k) == e
  {
    if k > 0 {
      Converges(c, e, k - 1);
    }
  }

  /** The replica count before step n when the run's own writes are the only ones. */
  ghost function CountAt(h: History, c: int, n: nat): int
    requires h.Valid() && n <= |h.steps|
  {
    if n == 0 then c else Written(h.actions[n - 1], CountAt(h, c, n - 1))
  }

  function Written(a: Action, count: int): int { if a.ScaledUp? || a.ScaledDown? then a.to else count }

  ghost function DownsBefore(h: History, n: nat): nat
    requires h.Valid() && n <= |h.steps|
  {
    if n == 0 then 0 else DownsBefore(h, n - 1) + if h.actions[n - 1].ScaledDown? then 1 else 0
  }

  /** The reconcile reads this count, and its decision and headroom floor together ask for e. */
  ghost predicate Asks(s: Memory, x: Input, count: int, e: int) {
    x.current == count && (x.stage == Complete ==> Max(Desired(Signalled(Begin(s, x), x), x), FloorOf(x)) == e)
  }

  ghost predicate AsksAt(h: History, c: int, e: int, i: nat)
    requires h.Valid()
  {
    i < |h.steps| && h.steps[i].Run? ==> Asks(h.memories[i], h.steps[i].x, CountAt(h, c, i), e)
  }

  lemma AskedAction(s: Memory, x: Input, count: int, e: int)
    requires Asks(s, x, count, e) && e <= count
    ensures !Reconcile(s, x).1.ScaledUp?
    ensures Reconcile(s, x).1.ScaledDown? ==> Reconcile(s, x).1.to == GradualTarget(count, e)
  {
    if Reconcile(s, x).1.ScaledDown? {
      ScaleDownIsGradual(s, x);
    }
  }

  /**
   Over every run in which the eventual count stays e, holds, refusals and restarts included: the count is never below e
   and has made one gradual step per acknowledged scale-down, so ceil((c - e) / 2) of them reach e.
   */
  lemma RunConverges(h: History, c: int, e: int, n: nat)
    requires h.Valid() && 1 <= e <= c && n <= |h.steps| && forall i :: AsksAt(h, c, e, i)
    ensures CountAt(h, c, n) == Shrink(c, e, DownsBefore(h, n)) && e <= CountAt(h, c, n)
    ensures (c - e + 1) / 2 <= DownsBefore(h, n) ==> CountAt(h, c, n) == e
  {
    RunShrinks(h, c, e, n);
    Converges(c, e, DownsBefore(h, n));
  }

  ghost predicate Shrunk(c: int, e: int, count: int, downs: nat) { count == Shrink(c, e, downs) && e <= count }

  lemma {:induction false} RunShrinks(h: History, c: int, e: int, n: nat)
    requires h.Valid() && 1 <= e <= c && n <= |h.steps| && forall i :: AsksAt(h, c, e, i)
    ensures Shrunk(c, e, CountAt(h, c, n), DownsBefore(h, n))
  {
    if n > 0 {
      RunShrinks(h, c, e, n - 1);
      assert AsksAt(h, c, e, n - 1);
      AskedStep(h, c, e, n - 1);
      ShrunkMore(c, e, CountAt(h, c, n - 1), DownsBefore(h, n - 1));
    }
  }

  lemma ShrunkMore(c: int, e: int, count: int, downs: nat)
    requires Shrunk(c, e, count, downs)
    ensures Shrunk(c, e, GradualTarget(count, e), downs + 1)
  {
    ShrinkStep(c, e, downs);
  }

  lemma ShrinkStep(c: int, e: int, k: nat)
    ensures Shrink(c, e, k + 1) == GradualTarget(Shrink(c, e, k), e)
  {
  }

  lemma AskedStep(h: History, c: int, e: int, i: nat)
    requires h.Valid() && i < |h.steps| && AsksAt(h, c, e, i) && e <= CountAt(h, c, i)
    ensures h.actions[i].ScaledDown? ==> h.actions[i].to == GradualTarget(CountAt(h, c, i), e)
    ensures !h.actions[i].ScaledUp?
  {
    assert h.StepAt(i);
    if h.steps[i].Run? {
      AskedAction(h.memories[i], h.steps[i].x, CountAt(h, c, i), e);
    }
  }

  // ---------- overestimate counters ----------

  ghost predicate CountersBounded(s: Memory) {
    0 <= s.streak && 0 <= s.reEval < REEVAL_INTERVAL && s.streak - MAX_STREAK <= s.reEval
  }

  lemma TrackingBounded(s: Memory, x: Input)
    requires CountersBounded(s)
    ensures CountersBounded(Tracked(s, x).0)
  {
  }

  lemma ApplyFrame(t: Memory, x: Input, desired: int)
    ensures Apply(t, x, desired).0.streak == t.streak && Apply(t, x, desired).0.reEval == t.reEval
  {
  }

  lemma ReconcileBounded(s: Memory, x: Input)
    requires CountersBounded(s)
    ensures CountersBounded(Reconcile(s, x).0)
  {
    var g := Signalled(Begin(s, x), x);
    TrackingBounded(g, x);
    ApplyFrame(Tracked(g, x).0, x, Desired(g, x));
  }

  /** In every reachable memory max(0, streak - 10) <= reEval <= 29. */
  lemma {:induction false} RunCountersBounded(h: History, n: nat)
    requires h.Valid() && n <= |h.steps|
    ensures CountersBounded(h.memories[n])
  {
    if n > 0 {
      RunCountersBounded(h, n - 1);
      assert h.StepAt(n - 1);
      if h.steps[n - 1].Run? {
        ReconcileBounded(h.memories[n - 1], h.steps[n - 1].x);
      }
    }
  }

  /** The adjusted count stays between the reactive and the predicted one. */
  lemma AdjustedBetween(s: Memory, predicted: int, reactive: int, rpm: real, p: seq<real>)
    requires 0 <= reactive < predicted
    ensures reactive <= Adjust(s, predicted, reactive, rpm, p).1 <= predicted
  {
  }

  /** One observation of the tracker. */
  datatype Reading = Reading(predicted: int, reactive: int, rpm: real, predictions: seq<real>)

  function TrackOne(s: Memory, o: Reading): Memory {
    Adjust(s, o.predicted, o.reactive, o.rpm, o.predictions).0.(lastRPM := o.rpm)
  }

  /** The reading overestimates and neither the rate nor the forecast ramps up. */
  predicate Overestimating(s: Memory, o: Reading) {
    && 0 < o.reactive < o.predicted && Overestimates(o.predicted, o.reactive)
    && !RateRamps(s.lastRPM, o.rpm) && !TrendRamps(o.predictions)
  }

  lemma OverestimatingStep(s: Memory, o: Reading)
    requires Overestimating(s, o) && 0 <= s.streak
    ensures var (t, r) := Adjust(s, o.predicted, o.reactive, o.rpm, o.predictions);
            && t.streak == (if s.streak >= MAX_STREAK && s.reEval + 1 >= REEVAL_INTERVAL then 0 else s.streak + 1)
            && t.reEval == (if s.streak < MAX_STREAK then s.reEval
                            else if s.reEval + 1 >= REEVAL_INTERVAL then 0 else s.reEval + 1)
            && r == if 2 <= s.streak < MAX_STREAK && CapOf(o.reactive) < o.predicted then CapOf(o.reactive)
                else o.predicted
  {
  }

  /** The place in the 40-reconcile cycle that the counters encode. */
  ghost predicate AtPhase(s: Memory, m: int) {
    0 <= m < 40 && s.streak == m && s.reEval == Max(0, m - MAX_STREAK)
  }

  function AdjustedFor(s: Memory, o: Reading): int {
    Adjust(s, o.predicted, o.reactive, o.rpm, o.predictions).1
  }

  function Capped(o: Reading, eligible: bool): int {
    if eligible && CapOf(o.reactive) < o.predicted then CapOf(o.reactive) else o.predicted
  }

  lemma PhaseStep(s: Memory, o: Reading, m: int)
    requires Overestimating(s, o) && AtPhase(s, m)
    ensures AtPhase(TrackOne(s, o), if m == 39 then 0 else m + 1)
    ensures AdjustedFor(s, o) == Capped(o, 2 <= m < MAX_STREAK)
  {
    OverestimatingStep(s, o);
  }

  lemma PhaseSuccessor(k: nat)
    requires 0 < k
    ensures k % 40 == if (k - 1) % 40 == 39 then 0 else (k - 1) % 40 + 1
  {
  }

  // ---------- the cycle over consecutive reconciles ----------

  function ReadingOf(x: Input): Reading
    requires x.forecast.V1?
  {
    Reading(x.forecast.predicted, x.reactive, x.rpm, x.forecast.predictions)
  }

  /** A complete reconcile of the same mode, target and query whose usable v1 forecast overestimates. */
  predicate OverestimatingRun(s: Memory, x: Input) {
    && s.mode == Some(x.mode) && s.targetUID == x.uid && s.signal == x.signal && x.stage == Complete
    && x.forecast.V1? && !Diverged(x) && Overestimating(s, ReadingOf(x))
  }

  /** The predicted count that takes part in the decision. */
  function PredictedBy(s: Memory, x: Input): int { Tracked(Signalled(Begin(s, x), x), x).1 }

  lemma ReconcilePhase(s: Memory, x: Input, m: int)
    requires OverestimatingRun(s, x) && AtPhase(s, m)
    ensures AtPhase(Reconcile(s, x).0, if m == 39 then 0 else m + 1)
    ensures PredictedBy(s, x) == Capped(ReadingOf(x), 2 <= m < MAX_STREAK)
  {
    assert Signalled(Begin(s, x), x) == s;
    PhaseStep(s, ReadingOf(x), m);
    assert Tracked(s, x) == (TrackOne(s, ReadingOf(x)), AdjustedFor(s, ReadingOf(x)), true);
    ApplyFrame(TrackOne(s, ReadingOf(x)), x, Desired(s, x));
  }

  ghost predicate OverestimatingStepAt(h: History, i: int) {
    && 0 <= i < |h.steps| && i < |h.memories| && h.steps[i].Run? && OverestimatingRun(h.memories[i], h.steps[i].x)
  }

  /**
   Over every run, whatever is written, held or refused between: k reconciles after a memory with cleared counters,
   all of them overestimating, the counters are at phase k mod 40, and the k-th reconcile decides with the capped
   count exactly when k mod 40 is in 3..10 and the cap is lower.
   */
  lemma {:induction false} RunCapCycle(h: History, i: nat, k: nat)
    requires h.Valid() && i + k <= |h.steps| && AtPhase(h.memories[i], 0)
    requires forall j :: i <= j < i + k ==> OverestimatingStepAt(h, j)
    ensures AtPhase(h.memories[i + k], k % 40)
    ensures k > 0 ==> h.steps[i + k - 1].Run? && h.steps[i + k - 1].x.forecast.V1?
    ensures k > 0 ==> var x := h.steps[i + k - 1].x;
                      PredictedBy(h.memories[i + k - 1], x) == Capped(ReadingOf(x), 3 <= k % 40 <= 10)
  {
    if k > 0 {
      RunCapCycle(h, i, k - 1);
      var n := i + k - 1;
      assert OverestimatingStepAt(h, n) && h.StepAt(n);
      ReconcilePhase(h.memories[n], h.steps[n].x, (k - 1) % 40);
      PhaseSuccessor(k);
    }
  }
}
