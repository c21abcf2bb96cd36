/**
 One reconcile of the operator (k8s-operator/controllers/predictiveautoscaler_controller.go), from the state reset to
 the scale history it keeps: the imperative state with the methods that update it, and the step it computes on values.
 The measured rate, the forecast, the other replica writers and the outcome of the write are inputs.
 */
module Controller {
  import opened Wrappers
  import opened ScaleState

  /** What the predictive component offers: nothing usable, a v1 forecast, or a verified v2 term. */
  datatype Forecast = NoForecast | V1(predicted: int, predictions: seq<real>) | V2(predicted: int)

  /** How far the reconcile gets: an invalid metric query or a failed publication ends it early. */
  datatype Stage = InvalidQuery | PublishFailed | Complete

  /** A write is acknowledged, refused by the final checks, or fails with an error. */
  datatype WriteResult = Acknowledged | Refused | Failed

  /** `start`, `ruled` and `ack` are the clock readings of the reset, of the scale-down rule and after the write. */
  datatype Input = Input(mode: Mode, uid: string, signal: string, stage: Stage, forecast: Forecast, measured: bool,
                         rpm: real, reactive: int, floor: int, min: int, max: int, current: int, blocked: bool,
                         write: WriteResult, start: int, ruled: int, ack: int)

  datatype Action =
    | Stopped
    | Recommended
    | ConflictHold
    | ScaledUp(to: int)
    | ScaledDown(to: int)
    | NotWritten
    | HeadroomHold
    | Pending
    | AtTarget

  // ---------- one reconcile on values ----------

  /** The state belongs to one mode and one target; a fresh Active state counts as just written. */
  function Begin(s: Memory, x: Input): Memory {
    if s.mode == Some(x.mode) && s.targetUID == x.uid then s
    else
      var clean := EMPTY.(mode := Some(x.mode), targetUID := x.uid);
      if x.mode == Active then clean.(lastUp := Some(x.start), lastDown := Some(x.start)) else clean
  }

  /** Tracking and the below-current timer describe one compiled query. */
  function Signalled(s: Memory, x: Input): Memory {
    if s.signal == x.signal then s
    else Cleared(s).(lastRPM := 0.0, belowSince := None, signal := x.signal)
  }

  /** A v1 forecast more than ten times the measured rate is discarded. */
  predicate Diverged(x: Input) {
    x.forecast.V1? && x.rpm > 0.0 && |x.forecast.predictions| > 0 && x.forecast.predictions[0] > x.rpm * 10.0
  }

  /** The memory after overestimate tracking, the predicted count, and whether a forecast takes part in the decision. */
  function Tracked(s: Memory, x: Input): (Memory, int, bool) {
    var (t, predicted, used) :=
      if x.forecast.V1? && !Diverged(x) then
        var (t, p) := Adjust(s, x.forecast.predicted, x.reactive, x.rpm, x.forecast.predictions);
        (t, p, true)
      else if Diverged(x) then (Cleared(s), x.reactive, false)
      else if x.forecast.V2? then (Cleared(s), x.forecast.predicted, true)
      else (Cleared(s), 0, false);
    (t.(lastRPM := x.rpm), predicted, used)
  }

  function Desired(s: Memory, x: Input): int {
    var (_, predicted, used) := Tracked(s, x);
    UnifiedDesired(predicted, x.reactive, x.min, x.max, x.current, used, x.measured).0
  }

  function FloorOf(x: Input): int { if x.measured then x.floor else 0 }

  function ApplyDown(t: Memory, x: Input, desired: int): (Memory, Action) {
    var (h, eventual, hold) := Headroom(t, x.current, desired, FloorOf(x));
    if hold then (h, HeadroomHold)
    else
      var (d, target) := ScaleDown(h, x.ruled, x.current, eventual);
      if target >= x.current then (d, Pending)
      else if x.write != Acknowledged then (d, NotWritten)
      else (d.(lastDown := Some(x.ack), holds := Enforced), ScaledDown(target))
  }

  function Apply(t: Memory, x: Input, desired: int): (Memory, Action) {
    if x.mode != Active then (t, Recommended)
    else if x.blocked then (t.(belowSince := None), ConflictHold)
    else if desired > x.current then
      if x.write == Acknowledged then (t.(lastUp := Some(x.ack), belowSince := None), ScaledUp(desired))
      else (t, NotWritten)
    else if desired < x.current then ApplyDown(t, x, desired)
    else (t.(belowSince := None), AtTarget)
  }

  function Reconcile(s: Memory, x: Input): (Memory, Action) {
    var b := Begin(s, x);
    if x.stage == InvalidQuery then (b, Stopped)
    else
      var g := Signalled(b, x);
      if x.stage == PublishFailed then (g, Stopped)
      else Apply(Tracked(g, x).0, x, Desired(g, x))
  }

  // ---------- the mutable state ----------

  class Scaler {
    var lastScaleUp: Option<int>
    var lastScaleDown: Option<int>
    var belowCurrentSince: Option<int>
    var overestimateStreak: int
    var lastRPM: real
    var reEvalCounter: int
    var overrideActive: bool
    var mode: Option<Mode>
    var signal: string
    var targetUID: string

    function Value(): Memory
      reads this
    {
      Memory(lastScaleUp, lastScaleDown, belowCurrentSince, overestimateStreak, lastRPM, reEvalCounter,
             if overrideActive then Overridden else Enforced,
             mode, signal, targetUID)
    }

    constructor ()
      ensures Value() == EMPTY
    {
      lastScaleUp, lastScaleDown, belowCurrentSince := None, None, None;
      overestimateStreak, lastRPM, reEvalCounter, overrideActive := 0, 0.0, 0, false;
      mode, signal, targetUID := None, "", "";
    }

    method ClearForecastOverride()
      modifies this
      ensures Value() == Cleared(old(Value()))
    {
      overestimateStreak, reEvalCounter, overrideActive := 0, 0, false;
    }

    method AdjustForOverestimation(predicted: int, reactive: int, rpm: real, predictions: seq<real>) returns (r: int)
      modifies this
      ensures (Value(), r) == Adjust(old(Value()), predicted, reactive, rpm, predictions)
    {
      if reactive == 0 || predicted <= reactive || RateRamps(lastRPM, rpm) || TrendRamps(predictions) {
        ClearForecastOverride();
        return predicted;
      }
      if Overestimates(predicted, reactive) {
        overestimateStreak := overestimateStreak + 1;
      } else {
        overestimateStreak := 0;
      }
      if overestimateStreak > MAX_STREAK {
        reEvalCounter := reEvalCounter + 1;
        if reEvalCounter >= REEVAL_INTERVAL {
          ClearForecastOverride();
        }
        return predicted;
      }
      if overestimateStreak >= STREAK_REQUIRED {
        var capped := CapOf(reactive);
        if capped < predicted {
          overrideActive := true;
          return capped;
        }
      }
      return predicted;
    }

    method HeadroomEventual(current: int, desired: int, floor: int) returns (eventual: int, hold: bool)
      modifies this`belowCurrentSince
      ensures (Value(), eventual, hold) == Headroom(old(Value()), current, desired, floor)
    {
      eventual := desired;
      if floor > eventual {
        eventual := floor;
      }
      if eventual >= current {
        belowCurrentSince := None;
        return current, true;
      }
      return eventual, false;
    }

    method CalculateScaleDownTarget(now: int, current: int, desired: int) returns (target: int)
      modifies this`belowCurrentSince
      ensures (Value(), target) == ScaleDown(old(Value()), now, current, desired)
    {
      if !overrideActive {
        if Within(lastScaleUp, now, STABILIZATION) {
          return current;
        }
        if belowCurrentSince.None? {
          belowCurrentSince := Some(now);
          return current;
        }
        if Within(belowCurrentSince, now, STABILIZATION) {
          return current;
        }
      }
      if Within(lastScaleDown, now, COOLDOWN) {
        return current;
      }
      var maxRemove := (current * MAX_PERCENT + 99) / 100;
      if maxRemove < MIN_PODS {
        maxRemove := MIN_PODS;
      }
      target := current - maxRemove;
      if target < desired {
        target := desired;
      }
      if target < 1 {
        target := 1;
      }
    }

    method ResetFor(x: Input)
      modifies this
      ensures Value() == Begin(old(Value()), x)
    {
      if mode != Some(x.mode) || targetUID != x.uid {
        lastScaleUp, lastScaleDown, belowCurrentSince := None, None, None;
        overestimateStreak, lastRPM, reEvalCounter, overrideActive := 0, 0.0, 0, false;
        mode, signal, targetUID := Some(x.mode), "", x.uid;
        if x.mode == Active {
          lastScaleUp, lastScaleDown := Some(x.start), Some(x.start);
        }
      }
    }

    method AdoptSignal(x: Input)
      modifies this
      ensures Value() == Signalled(old(Value()), x)
    {
      if signal != x.signal {
        ClearForecastOverride();
        lastRPM, belowCurrentSince, signal := 0.0, None, x.signal;
      }
    }

    method Track(x: Input) returns (predicted: int, used: bool)
      modifies this
      ensures (Value(), predicted, used) == Tracked(old(Value()), x)
    {
      if x.forecast.V1? && !Diverged(x) {
        predicted := AdjustForOverestimation(x.forecast.predicted, x.reactive, x.rpm, x.forecast.predictions);
        used := true;
      } else {
        ClearForecastOverride();
        predicted, used := 0, false;
        if Diverged(x) {
          predicted := x.reactive;
        } else if x.forecast.V2? {
          predicted, used := x.forecast.predicted, true;
        }
      }
      lastRPM := x.rpm;
    }

    method ApplyDecision(x: Input, desired: int) returns (a: Action)
      modifies this
      ensures (Value(), a) == Apply(old(Value()), x, desired)
    {
      if x.mode != Active {
        return Recommended;
      }
      if x.blocked {
        belowCurrentSince := None;
        return ConflictHold;
      }
      if desired > x.current {
        if x.write != Acknowledged {
          return NotWritten;
        }
        lastScaleUp, belowCurrentSince := Some(x.ack), None;
        return ScaledUp(desired);
      }
      if desired == x.current {
        belowCurrentSince := None;
        return AtTarget;
      }
      var eventual, hold := HeadroomEventual(x.current, desired, FloorOf(x));
      if hold {
        return HeadroomHold;
      }
      var target := CalculateScaleDownTarget(x.ruled, x.current, eventual);
      if target >= x.current {
        return Pending;
      }
      if x.write != Acknowledged {
        return NotWritten;
      }
      lastScaleDown, overrideActive := Some(x.ack), false;
      return ScaledDown(target);
    }

    method ReconcileOnce(x: Input) returns (a: Action)
      modifies this
      ensures (Value(), a) == Reconcile(old(Value()), x)
    {
      ResetFor(x);
      if x.stage == InvalidQuery {
        return Stopped;
      }
      AdoptSignal(x);
      if x.stage == PublishFailed {
        return Stopped;
      }
      var predicted, used := Track(x);
      var (desired, keep) := UnifiedDesired(predicted, x.reactive, x.min, x.max, x.current, used, x.measured);
      a := ApplyDecision(x, desired);
    }
  }
}
