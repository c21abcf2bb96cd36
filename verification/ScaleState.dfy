/**
 The operator's per-target memory and the decisions it holds back (k8s-operator/controllers/
 predictiveautoscaler_controller.go and overestimate.go): hold timers, cooldown, gradual scale-down, the headroom floor,
 and the overestimate tracker. Times are nanoseconds; a missing time is Go's zero time. Rates are reals, and a float
 `ceil` is modelled as the exact one.
 */
module ScaleState {
  import opened Wrappers

  const SECOND := 1_000_000_000
  const STABILIZATION := 300 * SECOND
  const COOLDOWN := 120 * SECOND
  const MAX_PERCENT := 10
  const MIN_PODS := 2
  const MAX_INT32 := 0x7fff_ffff

  const RATIO_THRESHOLD := 1.2
  const STREAK_REQUIRED := 3
  const MAX_STREAK := 10
  const RAMP_UP := 0.02
  const RAMP_RATIO := 1.2
  const REEVAL_INTERVAL := 30

  datatype Mode = Active | Recommend

  /** Whether the scale-down holds apply or the overestimate override bypasses them. */
  datatype Holds = Enforced | Overridden

  /** One target's scaling history. */
  datatype Memory = Memory(lastUp: Option<int>, lastDown: Option<int>, belowSince: Option<int>, streak: int,
                           lastRPM: real, reEval: int, holds: Holds, mode: Option<Mode>, signal: string,
                           targetUID: string)

  const EMPTY := Memory(None, None, None, 0, 0.0, 0, Enforced, None, "", "")

  // ---------- arithmetic ----------

  function Ceil(x: real): int { -((-x).Floor) }

  function BoundedReplicas(x: int): int {
    if x <= 0 then 0 else if x >= MAX_INT32 then MAX_INT32 else x
  }

  function Clamp(v: int, min: int, max: int): int {
    var w := if v < min then min else v;
    if w > max then max else w
  }

  function Max(a: int, b: int): int { if a < b then b else a }

  /** The smallest count that leaves `percent` of spare capacity at the measured rate, capped at the maximum; 0 when the
      headroom is off or the capacity unknown. */
  function HeadroomFloor(rpm: real, perPod: real, percent: int, max: int): int {
    if percent <= 0 || percent >= 100 || perPod <= 0.0 || rpm < 0.0 then 0
    else FloorFor(rpm, perPod * (1.0 - percent as real / 100.0), max)
  }

  function FloorFor(rpm: real, usable: real, max: int): int
    requires usable != 0.0
  {
    var f := BoundedReplicas(Ceil(rpm / usable));
    if f > max then max else f
  }

  lemma FloorForExact(rpm: real, usable: real, max: int)
    requires 0.0 < usable && 0.0 <= rpm
    ensures var f := FloorFor(rpm, usable, max);
            && f <= max
            && (f < max && f < MAX_INT32 ==> rpm <= f as real * usable)
            && (0 < f ==> (f - 1) as real * usable < rpm)
  {
    var f := FloorFor(rpm, usable, max);
    if f < max && f < MAX_INT32 {
      CeilCovers(rpm, usable, f);
    }
    if 0 < f {
      CeilIsLeast(rpm, usable, f);
    }
  }

  /** The floor is the exact threshold: that many replicas keep the spare capacity, and one fewer does not, unless the
      maximum or the int32 bound cut it. Without a share between 0 and 100 %, a known capacity and a rate there is
      none. */
  lemma HeadroomFloorExact(rpm: real, perPod: real, percent: int, max: int)
    ensures var f := HeadroomFloor(rpm, perPod, percent, max);
            if 0 < percent < 100 && 0.0 < perPod && 0.0 <= rpm then
              var usable := perPod * (1.0 - percent as real / 100.0);
              && f <= max
              && (f < max && f < MAX_INT32 ==> rpm <= f as real * usable)
              && (0 < f ==> (f - 1) as real * usable < rpm)
            else f == 0
  {
    if 0 < percent < 100 && 0.0 < perPod && 0.0 <= rpm {
      UsablePositive(perPod, 1.0 - percent as real / 100.0);
      FloorForExact(rpm, perPod * (1.0 - percent as real / 100.0), max);
    }
  }

  lemma UsablePositive(perPod: real, share: real)
    requires 0.0 < perPod && 0.0 < share
    ensures 0.0 < perPod * share
  {
  }

  lemma CeilCovers(x: real, y: real, n: int)
    requires y > 0.0 && Ceil(x / y) <= n
    ensures x <= n as real * y
  {
    var q, r := x / y, n as real;
    assert q <= r;
    assert q * y <= r * y;
  }

  lemma CeilIsLeast(x: real, y: real, n: int)
    requires y > 0.0 && n <= Ceil(x / y)
    ensures (n - 1) as real * y < x
  {
    var q, r := x / y, (n - 1) as real;
    assert r < q;
    assert r * y < q * y;
  }

  /** The one decision rule: the forecast may only raise the measured need; without a measurement the count is held. */
  function UnifiedDesired(predicted: int, reactive: int, min: int, max: int, current: int, forecastUsed: bool,
                          measured: bool): (int, bool)
  {
    if !measured then (Clamp(current, min, max), true)
    else (Clamp(Max(if forecastUsed then predicted else 0, reactive), min, max), false)
  }

  /** At most max(2 pods, 10 %) are removed at once, never below the eventual count or one replica. */
  function MaxRemove(current: int): int { Max((current * MAX_PERCENT + 99) / 100, MIN_PODS) }

  function GradualTarget(current: int, eventual: int): int {
    Max(Max(current - MaxRemove(current), eventual), 1)
  }

  // ---------- scale-down holds ----------

  predicate Within(since: Option<int>, now: int, window: int) { since.Some? && now - since.value < window }

  /** Stabilization after a scale-up, the below-current timer, the cooldown, then the gradual reduction. */
  function ScaleDown(s: Memory, now: int, current: int, eventual: int): (Memory, int) {
    if s.holds.Enforced? && Within(s.lastUp, now, STABILIZATION) then (s, current)
    else if s.holds.Enforced? && s.belowSince.None? then (s.(belowSince := Some(now)), current)
    else if s.holds.Enforced? && Within(s.belowSince, now, STABILIZATION) then (s, current)
    else if Within(s.lastDown, now, COOLDOWN) then (s, current)
    else (s, GradualTarget(current, eventual))
  }

  /** The larger of the decision and the floor; not below the current count, the floor holds and the timer restarts. */
  function Headroom(s: Memory, current: int, desired: int, floor: int): (Memory, int, bool) {
    var eventual := Max(desired, floor);
    if eventual >= current then (s.(belowSince := None), current, true) else (s, eventual, false)
  }

  // ---------- overestimate tracking ----------

  function Cleared(s: Memory): Memory { s.(streak := 0, reEval := 0, holds := Enforced) }

  /** The rate rose by more than 2 % (the ratio test, multiplied out by the positive last rate). */
  predicate RateRamps(last: real, rpm: real) { last > 0.0 && rpm > 0.0 && rpm - last > RAMP_UP * last }

  predicate TrendRamps(p: seq<real>) {
    |p| >= 2 && p[0] > 0.0 && (p[1] > p[0] * RAMP_RATIO || (|p| >= 6 && p[5] > p[0] * RAMP_RATIO))
  }

  /** predicted / reactive exceeds 1.2 (multiplied out; the reactive count is positive where it is asked). */
  predicate Overestimates(predicted: int, reactive: int) { predicted as real > RATIO_THRESHOLD * reactive as real }

  function CapOf(reactive: int): int { Ceil(reactive as real * 1.1) }

  function Adjust(s: Memory, predicted: int, reactive: int, rpm: real, p: seq<real>): (Memory, int) {
    if reactive == 0 || predicted <= reactive || RateRamps(s.lastRPM, rpm) || TrendRamps(p) then (Cleared(s), predicted)
    else
      var t := s.(streak := if Overestimates(predicted, reactive) then s.streak + 1 else 0);
      if t.streak > MAX_STREAK then
        if t.reEval + 1 >= REEVAL_INTERVAL then (Cleared(t), predicted) else (t.(reEval := t.reEval + 1), predicted)
      else if t.streak >= STREAK_REQUIRED && CapOf(reactive) < predicted then (t.(holds := Overridden), CapOf(reactive))
      else (t, predicted)
  }

}
