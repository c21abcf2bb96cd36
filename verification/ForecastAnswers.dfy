/**
 Which forecast v2 answer a decision may use (k8s-operator/controllers/forecast_v2.go:823-888, 961-1002 and
 v2_reconcile.go:152-179): the answer cache, the echo check and the operator's own verdict on its clock.
 */
module ForecastAnswers {
  import opened Wrappers
  import opened ForecastWindow

  const CLOCK_SKEW := 2000

  /** What identifies a request; an answer must echo all of it. */
  datatype Binding = Binding(uid: string, generation: int, targetUid: string, query: string, settings: Settings,
                             origin: int, lead: int, startup: int, allowance: int, evidenceKey: string)

  /** A decoded, coherent answer. `offered`: the service's own eligibility with trust state, reason and upper bound. */
  datatype Answer = Answer(echo: Binding, interval: int, offered: bool, upper: real, calibration: int, prospective: int,
                           evidenceCutoff: Option<int>, issuedMs: int)

  /** What the request gave: an answer, a refusal (4xx), or a failure (transport, 5xx, too large, incoherent). */
  datatype Reply = Decoded(a: Answer) | ClientError | Failed

  predicate Bound(a: Answer, b: Binding) {
    a.echo == b && a.interval == b.settings.interval && b.lead <= b.settings.horizon
  }

  function WindowOf(a: Answer): Window { Window(a.echo.origin, a.interval, a.echo.lead) }

  predicate Actionable(a: Answer, nowMs: int) { ActionableAt(WindowOf(a), nowMs, a.echo.startup, a.echo.allowance) }

  // ---------- the verdict ----------

  datatype Verdict = NotOffered | EvidenceInsufficient | EvidenceStale | IssuedInFuture | DeadlinePassed | Ready

  function MaxAge(a: Answer, s: Settings): int { a.echo.lead + s.settlement + s.grace + 2 * s.interval }

  function VerdictOn(a: Answer, s: Settings, nowMs: int): Verdict {
    if !a.offered then NotOffered
    else if a.calibration < s.calibration.minWindows || a.prospective < s.trust.minProspective then EvidenceInsufficient
    else if a.evidenceCutoff.None? || nowMs - a.evidenceCutoff.value * 1000 > MaxAge(a, s) * 1000 then EvidenceStale
    else if a.issuedMs > nowMs + CLOCK_SKEW then IssuedInFuture
    else if !Actionable(a, nowMs) then DeadlinePassed
    else Ready
  }

  /** The instants at which an answer is Ready form one interval: from its issue less the skew, up to the earlier of its
      deadline and the age of its evidence. Outside the last two it never becomes Ready again. */
  lemma ReadyInterval(a: Answer, s: Settings, nowMs: int)
    ensures VerdictOn(a, s, nowMs) == Ready <==>
              && a.offered && s.calibration.minWindows <= a.calibration && s.trust.minProspective <= a.prospective
              && a.evidenceCutoff.Some?
              && a.issuedMs - 2000 <= nowMs
              && nowMs <= (a.evidenceCutoff.value + a.echo.lead + s.settlement + s.grace + 2 * s.interval) * 1000
              && nowMs < (a.echo.origin + a.interval - a.echo.allowance) * 1000
              && nowMs < (a.echo.origin + a.echo.lead - a.echo.startup - a.interval - a.echo.allowance) * 1000
  {
    Deadline(WindowOf(a), a.echo.startup, a.echo.allowance);
  }

  lemma LateForGood(a: Answer, s: Settings, nowMs: int, laterMs: int)
    requires nowMs <= laterMs && (VerdictOn(a, s, nowMs) == DeadlinePassed || VerdictOn(a, s, nowMs) == EvidenceStale)
    ensures VerdictOn(a, s, laterMs) != Ready
  {
    ReadyInterval(a, s, laterMs);
    Deadline(WindowOf(a), a.echo.startup, a.echo.allowance);
  }

  // ---------- the cache ----------

  datatype Call = Call(key: string, binding: Binding, nowMs: int, reply: Reply, laterMs: int)

  type Cache = map<string, Answer>

  predicate Hit(c: Cache, x: Call) { x.key in c && c[x.key].echo == x.binding && Actionable(c[x.key], x.nowMs) }

  predicate Fetched(c: Cache, x: Call) { !Hit(c, x) && x.reply.Decoded? && Bound(x.reply.a, x.binding) }

  function Without(c: Cache, key: string): Cache { map k | k in c && k != key :: c[k] }

  function After(c: Cache, x: Call): Cache {
    if Hit(c, x) then c else if Fetched(c, x) then c[x.key := x.reply.a] else Without(c, x.key)
  }

  class Answers {
    var cache: Cache

    constructor ()
      ensures cache == map[]
    {
      cache := map[];
    }

    /** The cached answer when it was made for exactly this request and is still actionable, else a fresh one. */
    method Fetch(x: Call) returns (a: Option<Answer>)
      modifies this
      ensures cache == After(old(cache), x)
      ensures a == if x.key in cache then Some(cache[x.key]) else None
    {
      if x.key in cache {
        var c := cache[x.key];
        if c.echo == x.binding && Actionable(c, x.nowMs) {
          return Some(c);
        }
        cache := Without(cache, x.key);
      }
      if !x.reply.Decoded? || !Bound(x.reply.a, x.binding) {
        assert cache == Without(old(cache), x.key);
        return None;
      }
      cache := cache[x.key := x.reply.a];
      return Some(x.reply.a);
    }
  }

  /** A request for a forecast, or a reconcile that drops the key (settings, lead or engine missing), or a restart. */
  datatype Step = Ask(x: Call) | Drop(key: string) | Restart

  function Next(c: Cache, step: Step): Cache {
    match step
    case Ask(x) => After(c, x)
    case Drop(key) => Without(c, key)
    case Restart => map[]
  }

  function At(run: seq<Step>, n: nat): Cache
    requires n <= |run|
  {
    if n == 0 then map[] else Next(At(run, n - 1), run[n - 1])
  }

  /** Between fetch and use the key was asked only for the same request, each time while still actionable. */
  ghost predicate Reuses(run: seq<Step>, k: nat, key: string, a: Answer) {
    k < |run| && !run[k].Restart? && run[k] != Drop(key)
    && (run[k].Ask? && run[k].x.key == key ==> run[k].x.binding == a.echo && Actionable(a, run[k].x.nowMs))
  }

  lemma NextAnswer(c: Cache, step: Step, key: string)
    requires key in Next(c, step)
    ensures step.Ask? && step.x.key == key && Fetched(c, step.x) ==> Next(c, step)[key] == step.x.reply.a
    ensures !(step.Ask? && step.x.key == key && Fetched(c, step.x)) ==>
              && key in c && Next(c, step)[key] == c[key] && !step.Restart? && step != Drop(key)
              && (step.Ask? && step.x.key == key ==> Hit(c, step.x))
  {
  }

  lemma {:induction false} Origin(run: seq<Step>, n: nat, key: string) returns (i: nat)
    requires n <= |run| && key in At(run, n)
    ensures i < n && run[i].Ask? && run[i].x.key == key && Fetched(At(run, i), run[i].x)
    ensures At(run, n)[key] == run[i].x.reply.a
    ensures forall k :: i < k < n ==> Reuses(run, k, key, At(run, n)[key])
  {
    var c, step := At(run, n - 1), run[n - 1];
    NextAnswer(c, step, key);
    if step.Ask? && step.x.key == key && Fetched(c, step.x) {
      i := n - 1;
    } else {
      i := Origin(run, n - 1, key);
      assert Reuses(run, n - 1, key, At(run, n)[key]);
    }
  }

  /** Step k leaves the key's answer as it is: it asks, if at all, for the same request while that can be acted on. */
  ghost predicate ReusedBetween(run: seq<Step>, i: int, n: int, key: string, a: Answer) {
    forall k :: i < k < n && 0 <= k ==> Reuses(run, k, key, a)
  }

  /** Step i asked for the key, had no answer to reuse, and got this one, which echoes its request and fits the
      horizon. */
  ghost predicate FetchedBy(run: seq<Step>, i: int, key: string, a: Answer) {
    && 0 <= i < |run| && run[i].Ask? && run[i].x.key == key && run[i].x.reply == Decoded(a)
    && a.echo == run[i].x.binding && a.interval == run[i].x.binding.settings.interval
    && run[i].x.binding.lead <= run[i].x.binding.settings.horizon
    && !(key in At(run, i) && At(run, i)[key].echo == run[i].x.binding && Actionable(At(run, i)[key], run[i].x.nowMs))
  }

  lemma StepHolds(c: Cache, step: Step, key: string, a: Answer)
    ensures key in Next(c, step) && Next(c, step)[key] == a
       <==> || (step.Ask? && step.x.key == key && Fetched(c, step.x) && step.x.reply.a == a)
            || (key in c && c[key] == a && !step.Restart? && step != Drop(key)
                && (step.Ask? && step.x.key == key ==> a.echo == step.x.binding && Actionable(a, step.x.nowMs)))
  {
  }

  /** The key holds an answer exactly when some lookup fetched it and every step since only reused it. */
  lemma {:induction false} HeldIff(run: seq<Step>, n: nat, key: string, a: Answer)
    requires n <= |run|
    ensures key in At(run, n) && At(run, n)[key] == a
       <==> exists i :: 0 <= i < n && FetchedBy(run, i, key, a) && ReusedBetween(run, i, n, key, a)
  {
    if n > 0 {
      HeldIff(run, n - 1, key, a);
      StepHolds(At(run, n - 1), run[n - 1], key, a);
      if FetchedBy(run, n - 1, key, a) {
        assert ReusedBetween(run, n - 1, n, key, a);
      }
      if i :| 0 <= i < n - 1 && FetchedBy(run, i, key, a) && ReusedBetween(run, i, n - 1, key, a)
                && Reuses(run, n - 1, key, a) {
        assert ReusedBetween(run, i, n, key, a);
      }
      if i :| 0 <= i < n - 1 && FetchedBy(run, i, key, a) && ReusedBetween(run, i, n, key, a) {
        assert Reuses(run, n - 1, key, a) && ReusedBetween(run, i, n - 1, key, a);
      }
    }
  }

  /**
   Over every run: an answer that makes a decision Ready was fetched by a lookup of the same key for the very request
   made now (same objects, generation, query, settings, origin, lead and evidence), was only reused since, and at the
   verdict's clock its own, never extended window can still be acted on.
   */
  lemma UsedAnswer(run: seq<Step>, n: nat, s: Settings) returns (i: nat, a: Answer)
    requires n < |run| && run[n].Ask? && run[n].x.key in At(run, n + 1)
    ensures a == At(run, n + 1)[run[n].x.key]
    ensures i <= n && run[i].Ask? && run[i].x.key == run[n].x.key && run[i].x.binding == run[n].x.binding
    ensures run[i].x.reply == Decoded(a) && Bound(a, run[n].x.binding)
    ensures forall k :: i < k <= n ==> Reuses(run, k, run[n].x.key, a)
    ensures VerdictOn(a, s, run[n].x.laterMs) == Ready ==> Actionable(a, run[n].x.laterMs)
  {
    a := At(run, n + 1)[run[n].x.key];
    i := Origin(run, n + 1, run[n].x.key);
    assert i < n ==> Reuses(run, n, run[n].x.key, a);
  }
}
