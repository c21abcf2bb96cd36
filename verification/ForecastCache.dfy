/**
 The v1 forecast path (k8s-operator/controllers/predictiveautoscaler_controller.go): which forecast a reconcile may use
 (the cache, its binding and its ages), and which of its steps. Times are whole nanoseconds counted from Go's zero time.
 */
module ForecastCache {
  import opened Wrappers

  const SECOND: int := 1_000_000_000
  const MINUTE: int := 60 * SECOND
  const TTL: int := 5 * MINUTE
  const STALE_MAX: int := 2 * TTL

  /** The compiled query the status publishes. */
  datatype Source = Source(targetUid: string, sha256: string, contract: string)

  /** What a cached forecast is valid for. */
  datatype Binding = Binding(uid: string, source: Option<Source>)

  datatype Forecast = Forecast(sha256: string, contract: string, anchor: int, predictions: seq<real>)

  /** What the forecasting service, or the attempt to reach it, gave. */
  datatype Reply =
    | Decoded(f: Forecast)
    | ClientError       // HTTP 4xx
    | Misconfigured     // no token or CA: the request was not sent
    | Failed            // transport, HTTP 5xx, undecodable body

  datatype Entry = Entry(forecast: Forecast, fetchedAt: int, binding: Binding)

  /** One lookup: the clock when the cache is read and when the reply is in. */
  datatype Call = Call(key: string, binding: Binding, now: int, reply: Reply, later: int)

  /** The reply is a forecast computed on the compiled query. */
  predicate Matches(b: Binding, f: Forecast) {
    b.source.Some? && b.source.value.sha256 != "" && f.sha256 == b.source.value.sha256
        && f.contract == b.source.value.contract
  }

  predicate Refusal(b: Binding, r: Reply) {
    r.ClientError? || r.Misconfigured? || (r.Decoded? && !Matches(b, r.f))
  }

  type Cache = map<string, Entry>

  /** The key's entry when it belongs to this binding. */
  function Bound(c: Cache, x: Call): Option<Entry> {
    if x.key in c && c[x.key].binding == x.binding then Some(c[x.key]) else None
  }

  predicate Hit(c: Cache, x: Call) { Bound(c, x).Some? && x.now - Bound(c, x).value.fetchedAt < TTL }

  /** The call asked the service and was refused. */
  predicate Refused(c: Cache, x: Call) { !Hit(c, x) && Refusal(x.binding, x.reply) }

  predicate StaleUse(c: Cache, x: Call) {
    !Hit(c, x) && x.reply.Failed? && Bound(c, x).Some? && x.later - Bound(c, x).value.fetchedAt < STALE_MAX
  }

  predicate Fetched(c: Cache, x: Call) { !Hit(c, x) && x.reply.Decoded? && Matches(x.binding, x.reply.f) }

  /** The entry the key holds after the call: it alone may be used by it. */
  function Held(c: Cache, x: Call): Option<Entry> {
    if Hit(c, x) || StaleUse(c, x) then Bound(c, x)
    else if Fetched(c, x) then Some(Entry(x.reply.f, x.later, x.binding))
    else None
  }

  function Without(c: Cache, key: string): Cache { map k | k in c && k != key :: c[k] }

  function After(c: Cache, x: Call): Cache {
    if Held(c, x).Some? then c[x.key := Held(c, x).value] else Without(c, x.key)
  }

  /** The forecasts of one operator process. */
  class Forecasts {
    var entries: Cache

    constructor ()
      ensures entries == map[]
    {
      entries := map[];
    }

    method Forget(key: string)
      modifies this
      ensures entries == Without(old(entries), key)
    {
      entries := Without(entries, key);
    }

    /** Looks a forecast up: a forecast is returned exactly when the key is left holding one, and it is that one. */
    method Lookup(x: Call) returns (f: Option<Forecast>)
      modifies this
      ensures entries == After(old(entries), x)
      ensures f == if x.key in entries then Some(entries[x.key].forecast) else None
    {
      if x.key in entries && entries[x.key].binding != x.binding {
        Forget(x.key);
      }
      if x.key in entries && x.now - entries[x.key].fetchedAt < TTL {
        assert entries == entries[x.key := entries[x.key]];
        return Some(entries[x.key].forecast);
      }
      if Refusal(x.binding, x.reply) {
        Forget(x.key);
        return None;
      }
      if x.reply.Failed? {
        if x.key in entries {
          if x.later - entries[x.key].fetchedAt < STALE_MAX {
            assert entries == entries[x.key := entries[x.key]];
            return Some(entries[x.key].forecast);
          }
          Forget(x.key);
        }
        return None;
      }
      entries := entries[x.key := Entry(x.reply.f, x.later, x.binding)];
      return Some(x.reply.f);
    }
  }

  // ---------- runs ----------

  /** A lookup, a forecast dropped with an invalid query, or a restart of the process. */
  datatype Step = Ask(x: Call) | Drop(key: string) | Restart

  function Next(c: Cache, step: Step): Cache {
    match step
    case Ask(x) => After(c, x)
    case Drop(key) => Without(c, key)
    case Restart => map[]
  }

  function At(run: seq<Step>, n: nat): Cache
    requires n <= |run|
  {
    if n == 0 then map[] else Next(At(run, n - 1), run[n - 1])
  }

  /** Step i fetched the entry that the key holds before step n, and no step since dropped or refused it. */
  ghost predicate IssuedBy(run: seq<Step>, i: nat, n: nat, key: string, e: Entry) {
    && i < n <= |run| && run[i].Ask? && run[i].x.key == key
    && Fetched(At(run, i), run[i].x) && e == Entry(run[i].x.reply.f, run[i].x.later, run[i].x.binding)
    && forall k :: i < k < n ==> Keeps(run, k, key, e)
  }

  ghost predicate Keeps(run: seq<Step>, k: nat, key: string, e: Entry) {
    k < |run| && !run[k].Restart? && run[k] != Drop(key)
    && (run[k].Ask? && run[k].x.key == key ==> run[k].x.binding == e.binding && !Refused(At(run, k), run[k].x))
  }

  lemma NextEntry(c: Cache, step: Step, key: string)
    requires key in Next(c, step)
    ensures !step.Restart? && step != Drop(key)
    ensures step.Ask? && step.x.key == key ==> Next(c, step)[key] == Held(c, step.x).value && !Refused(c, step.x)
    ensures !(step.Ask? && step.x.key == key) ==> key in c && Next(c, step)[key] == c[key]
  {
  }

  lemma {:induction false} Issuance(run: seq<Step>, n: nat, key: string) returns (i: nat)
    requires n <= |run| && key in At(run, n)
    ensures IssuedBy(run, i, n, key, At(run, n)[key])
    ensures run[n - 1].Ask? && run[n - 1].x.key == key && Fetched(At(run, n - 1), run[n - 1].x) ==> i == n - 1
  {
    var c, step := At(run, n - 1), run[n - 1];
    NextEntry(c, step, key);
    if step.Ask? && step.x.key == key && Fetched(c, step.x) {
      i := n - 1;
    } else {
      i := Issuance(run, n - 1, key);
      assert Keeps(run, n - 1, key, At(run, n)[key]);
    }
  }

  /**
   Over every run with every reply: the forecast a lookup returns was fetched by some lookup i of the same key, for the
   very binding asked for now, and computed on its query and contract. It is that same lookup's, or younger than five
   minutes, or younger than ten after a failure of this lookup that was no refusal; and between its fetch and its use
   (this lookup included) there was no refusal, no dropped query, no other binding and no restart.
   */
  lemma UsedForecast(run: seq<Step>, n: nat) returns (i: nat, e: Entry)
    requires n < |run| && run[n].Ask? && run[n].x.key in At(run, n + 1)
    ensures e == At(run, n + 1)[run[n].x.key]
    ensures i <= n && run[i].Ask? && run[i].x.key == run[n].x.key && run[i].x.binding == run[n].x.binding
    ensures run[i].x.reply.Decoded? && run[i].x.reply.f == e.forecast
    ensures Matches(run[n].x.binding, run[i].x.reply.f)
    ensures var x := run[n].x;
            || i == n
            || x.now - run[i].x.later < 300_000_000_000
            || (x.reply.Failed? && x.later - run[i].x.later < 600_000_000_000)
    ensures forall k :: i < k <= n ==> Keeps(run, k, run[n].x.key, e)
  {
    var x := run[n].x;
    NextEntry(At(run, n), run[n], x.key);
    e := At(run, n + 1)[x.key];
    i := Issuance(run, n + 1, x.key);
    assert e == Held(At(run, n), x).value;
  }

  /** The lookup may use an entry of its binding: younger than five minutes, or younger than ten when the service could
      not be reached. */
  predicate MayUse(x: Call, e: Entry) {
    x.binding == e.binding
    && (x.now - e.fetchedAt < 300_000_000_000 || (x.reply.Failed? && x.later - e.fetchedAt < 600_000_000_000))
  }

  /** Step k leaves the key's entry as it is: no restart, no dropped query, and every lookup of the key may use it. */
  ghost predicate Serves(run: seq<Step>, k: int, key: string, e: Entry) {
    && 0 <= k < |run| && !run[k].Restart? && run[k] != Drop(key)
    && (run[k].Ask? && run[k].x.key == key ==> MayUse(run[k].x, e))
  }

  /** Step i asked for the key, found no entry it may use without asking, and got this forecast for its own query. */
  ghost predicate FetchedBy(run: seq<Step>, i: int, key: string, e: Entry) {
    && 0 <= i < |run| && run[i].Ask? && run[i].x.key == key && run[i].x.reply.Decoded?
    && OwnQuery(run[i].x.binding, run[i].x.reply.f)
    && e == Entry(run[i].x.reply.f, run[i].x.later, run[i].x.binding)
    && !Fresh(At(run, i), run[i].x)
  }

  /** The forecast names the compiled query and its contract. */
  predicate OwnQuery(b: Binding, f: Forecast) {
    match b.source
    case None => false
    case Some(s) => f.sha256 == s.sha256 && f.contract == s.contract && f.sha256 != ""
  }

  /** The cache holds an entry of this binding younger than five minutes. */
  predicate Fresh(c: Cache, x: Call) {
    x.key in c && c[x.key].binding == x.binding && x.now - c[x.key].fetchedAt < 300_000_000_000
  }

  lemma StepHolds(c: Cache, step: Step, key: string, e: Entry)
    ensures key in Next(c, step) && Next(c, step)[key] == e
       <==> || (step.Ask? && step.x.key == key && step.x.reply.Decoded? && OwnQuery(step.x.binding, step.x.reply.f)
                && !Fresh(c, step.x) && e == Entry(step.x.reply.f, step.x.later, step.x.binding))
            || (key in c && c[key] == e && !step.Restart? && step != Drop(key)
                && (step.Ask? && step.x.key == key ==> MayUse(step.x, e)))
  {
  }

  /**
   When the key holds an entry, over every run: exactly when some lookup fetched it and every step since left it usable.
   So a lookup must return the forecast, a stale one after a failed request included, as long as that is so.
   */
  lemma {:induction false} HeldIff(run: seq<Step>, n: nat, key: string, e: Entry)
    requires n <= |run|
    ensures key in At(run, n) && At(run, n)[key] == e
       <==> exists i :: 0 <= i < n && FetchedBy(run, i, key, e) && ServedBetween(run, i, n, key, e)
  {
    if n > 0 {
      HeldIff(run, n - 1, key, e);
      StepHolds(At(run, n - 1), run[n - 1], key, e);
      if FetchedBy(run, n - 1, key, e) {
        assert ServedBetween(run, n - 1, n, key, e);
      }
      if i :| 0 <= i < n - 1 && FetchedBy(run, i, key, e) && ServedBetween(run, i, n - 1, key, e)
                && Serves(run, n - 1, key, e) {
        assert ServedBetween(run, i, n, key, e);
      }
      if i :| 0 <= i < n - 1 && FetchedBy(run, i, key, e) && ServedBetween(run, i, n, key, e) {
        assert Serves(run, n - 1, key, e) && ServedBetween(run, i, n - 1, key, e);
      }
    }
  }

  ghost predicate ServedBetween(run: seq<Step>, i: int, n: int, key: string, e: Entry) {
    forall k :: i < k < n ==> Serves(run, k, key, e)
  }

  // ---------- the lead-time window ----------

  /** Division rounding toward zero, as a conversion of a float to an integer does. */
  function Truncated(a: int, n: int): int
    requires n > 0
  {
    if a >= 0 then a / n else -(-a / n)
  }

  /** The target time of step i of n over the horizon. */
  function Target(anchor: int, horizon: int, n: int, i: int): int
    requires n > 0
  {
    anchor + Truncated((i + 1) * (horizon * MINUTE), n)
  }

  predicate Future(anchor: int, horizon: int, n: int, now: int, i: int)
    requires n > 0
  {
    now < Target(anchor, horizon, n, i)
  }

  predicate Inside(anchor: int, horizon: int, n: int, now: int, lead: int, i: int)
    requires n > 0
  {
    now < Target(anchor, horizon, n, i) <= now + lead * MINUTE
  }

  /** `last` is the target of a future step among the first k. */
  ghost predicate Reached(anchor: int, horizon: int, n: int, now: int, k: int, last: int)
    requires n > 0
  {
    exists i :: 0 <= i < k && Future(anchor, horizon, n, now, i) && last == Target(anchor, horizon, n, i)
  }

  /** The values among the first k whose targets lie in (now, now + lead]. */
  function InsideValues(p: seq<real>, anchor: int, now: int, horizon: int, lead: int, k: nat): seq<real>
    requires k <= |p|
  {
    if k == 0 then []
    else InsideValues(p, anchor, now, horizon, lead, k - 1)
         + (if Inside(anchor, horizon, |p|, now, lead, k - 1) then [p[k - 1]] else [])
  }

  ghost predicate FutureValue(p: seq<real>, anchor: int, now: int, horizon: int, v: real) {
    exists i :: 0 <= i < |p| && Future(anchor, horizon, |p|, now, i) && p[i] == v
  }

  ghost predicate AllFuture(p: seq<real>, anchor: int, now: int, horizon: int, window: seq<real>) {
    forall w :: 0 <= w < |window| ==> FutureValue(p, anchor, now, horizon, window[w])
  }

  /** Every value of the window belongs to a step that has not elapsed. */
  lemma {:induction false} InsideValuesFuture(p: seq<real>, anchor: int, now: int, horizon: int, lead: int,
      k: nat, w: nat)
      returns (i: nat)
    requires k <= |p| && w < |InsideValues(p, anchor, now, horizon, lead, k)|
    ensures i < k && Inside(anchor, horizon, |p|, now, lead, i)
        && InsideValues(p, anchor, now, horizon, lead, k)[w] == p[i]
  {
    if w < |InsideValues(p, anchor, now, horizon, lead, k - 1)| {
      i := InsideValuesFuture(p, anchor, now, horizon, lead, k - 1, w);
    } else {
      i := k - 1;
    }
  }

  lemma InsideAllFuture(p: seq<real>, anchor: int, now: int, horizon: int, lead: int)
    ensures AllFuture(p, anchor, now, horizon, InsideValues(p, anchor, now, horizon, lead, |p|))
  {
    var window := InsideValues(p, anchor, now, horizon, lead, |p|);
    forall w | 0 <= w < |window| ensures FutureValue(p, anchor, now, horizon, window[w]) {
      var i := InsideValuesFuture(p, anchor, now, horizon, lead, |p|, w);
      assert Future(anchor, horizon, |p|, now, i);
    }
  }

  lemma DivMonotone(a: int, b: int, n: int)
    requires 0 <= a <= b && n > 0
    ensures a / n <= b / n
  {
    assert a == n * (a / n) + a % n && b == n * (b / n) + b % n;
    Ordered(n, b / n, a / n);
  }

  /** The targets divide the horizon evenly, each rounded toward the anchor by less than a nanosecond. */
  lemma TargetIs(anchor: int, horizon: nat, n: int, i: nat)
    requires n > 0
    ensures var d := Target(anchor, horizon, n, i) - anchor;
            n * d <= (i + 1) * (horizon * 60_000_000_000) < n * d + n
  {
    var x := (i + 1) * (horizon * MINUTE);
    assert x >= 0;
    assert x == n * (x / n) + x % n;
  }

  /** The values of the window are those of exactly the steps inside it, in order. */
  lemma {:induction false} InsideValuesExact(p: seq<real>, anchor: int, now: int, horizon: int, lead: int, k: nat)
      returns (steps: seq<int>)
    requires k <= |p|
    ensures |steps| == |InsideValues(p, anchor, now, horizon, lead, k)|
    ensures forall w :: 0 <= w < |steps| ==> 0 <= steps[w] < k
                                             && InsideValues(p, anchor, now, horizon, lead, k)[w] == p[steps[w]]
    ensures forall v, w :: 0 <= v < w < |steps| ==> steps[v] < steps[w]
    ensures k > 0 ==> forall i :: 0 <= i < k ==>
                        (i in steps <==> now < Target(anchor, horizon, |p|, i) <= now + lead * 60_000_000_000)
  {
    steps := [];
    if k > 0 {
      steps := InsideValuesExact(p, anchor, now, horizon, lead, k - 1);
      if Inside(anchor, horizon, |p|, now, lead, k - 1) {
        steps := steps + [k - 1];
      }
    }
  }

  /** No step targets later than the anchor plus the horizon, and the last one targets exactly that. */
  lemma LastTarget(anchor: int, horizon: nat, n: int, i: int)
    requires 0 <= i < n
    ensures Target(anchor, horizon, n, i) <= anchor + horizon * MINUTE
    ensures Target(anchor, horizon, n, n - 1) == anchor + horizon * MINUTE
  {
    var x := horizon * MINUTE;
    assert (i + 1) * x <= n * x && 0 <= (i + 1) * x;
    DivMonotone((i + 1) * x, n * x, n);
    assert (n * x) / n == x by {
      DivExact(x, n);
    }
  }

  lemma DivExact(x: nat, n: int)
    requires n > 0
    ensures (n * x) / n == x
  {
    var q := (n * x) / n;
    assert n * x == n * q + (n * x) % n;
    Ordered(n, q, x);
    Ordered(n, x, q);
  }

  lemma Ordered(n: int, a: int, b: int)
    requires n > 0
    ensures a < b ==> n * a + n <= n * b
  {
    if a < b {
      NonNegative(n, b - a - 1);
      assert n * (b - a - 1) == n * b - n * a - n;
    }
  }

  lemma NonNegative(a: nat, b: nat)
    ensures a * b >= 0
  {
  }

  /**
   The window is usable exactly when the anchor plus the horizon lies in the future and reaches the lead; it then holds,
   in order, the values of exactly the steps with targets in (now, now + lead], or when there is none the value of the
   first future step.
   */
  method SelectLeadTimeWindow(p: seq<real>, anchor: int, now: int, horizon: nat, lead: int)
      returns (window: seq<real>, ok: bool)
    requires 0 <= now
    ensures ok <==> && p != [] && now < anchor + horizon * 60_000_000_000
                    && now + lead * 60_000_000_000 <= anchor + horizon * 60_000_000_000
    ensures ok ==> window != [] && AllFuture(p, anchor, now, horizon, window)
    ensures ok && InsideValues(p, anchor, now, horizon, lead, |p|) != [] ==>
              window == InsideValues(p, anchor, now, horizon, lead, |p|)
    ensures ok && InsideValues(p, anchor, now, horizon, lead, |p|) == [] ==>
              exists f :: && 0 <= f < |p| && window == [p[f]] && now < Target(anchor, horizon, |p|, f)
                          && forall i :: 0 <= i < f ==> Target(anchor, horizon, |p|, i) <= now
  {
    if |p| == 0 {
      return [], false;
    }
    var n := |p|;
    var leadEnd := now + lead * MINUTE;
    window := [];
    var first: Option<int> := None;
    var last := 0;
    for k := 0 to n
      invariant window == InsideValues(p, anchor, now, horizon, lead, k)
      invariant first.None? ==> last == 0
      invariant first.Some? ==> 0 <= first.value < k && Future(anchor, horizon, n, now, first.value)
      invariant forall i :: 0 <= i < (if first.Some? then first.value else k) ==> !Future(anchor, horizon, n, now, i)
      invariant forall i :: 0 <= i < k && Future(anchor, horizon, n, now, i) ==> Target(anchor, horizon, n, i) <= last
      invariant first.Some? ==> Reached(anchor, horizon, n, now, k, last)
    {
      var target := Target(anchor, horizon, n, k);
      if target > now {
        assert Future(anchor, horizon, n, now, k);
        if first.None? {
          first := Some(k);
        }
        if target <= leadEnd {
          window := window + [p[k]];
        }
        if target > last {
          last := target;
        }
      }
    }
    ghost var ts := Targets(anchor, horizon, n);
    assert forall i :: 0 <= i < n ==> (Future(anchor, horizon, n, now, i) <==> now < ts[i]);
    FurthestDecides(ts, now, leadEnd, first.Some?, last);
    if first.None? {
      return [], false;
    }
    if last < leadEnd {
      return [], false;
    }
    if |window| == 0 {
      window := [p[first.value]];
    } else {
      InsideAllFuture(p, anchor, now, horizon, lead);
    }
    return window, true;
  }

  /** The target times of all steps: none is later than the last. */
  ghost function Targets(anchor: int, horizon: nat, n: nat): (ts: seq<int>)
    requires n > 0
    ensures |ts| == n && ts[n - 1] == anchor + horizon * MINUTE
    ensures forall i :: 0 <= i < n ==> ts[i] == Target(anchor, horizon, n, i) <= ts[n - 1]
  {
    LastTarget(anchor, horizon, n, n - 1);
    assert forall i :: 0 <= i < n ==> Target(anchor, horizon, n, i) <= anchor + horizon * MINUTE by {
      forall i | 0 <= i < n ensures Target(anchor, horizon, n, i) <= anchor + horizon * MINUTE {
        LastTarget(anchor, horizon, n, i);
      }
    }
    seq(n, i requires 0 <= i < n => Target(anchor, horizon, n, i))
  }

  /** The furthest future target decides what the last step's target decides. */
  lemma FurthestDecides(ts: seq<int>, now: int, leadEnd: int, found: bool, last: int)
    requires ts != [] && forall i :: 0 <= i < |ts| ==> ts[i] <= ts[|ts| - 1]
    requires found <==> exists i :: 0 <= i < |ts| && now < ts[i]
    requires forall i :: 0 <= i < |ts| && now < ts[i] ==> ts[i] <= last
    requires found ==> last in ts
    ensures now < ts[|ts| - 1] && leadEnd <= ts[|ts| - 1] <==> found && leadEnd <= last
  {
  }

  /** Once refused as elapsed, refused at every later time, whatever its values. */
  lemma ElapsedForGood(anchor: int, now: int, later: int, horizon: nat, lead: int)
    requires now <= later
    requires var end := anchor + horizon * 60_000_000_000; !(now < end && now + lead * 60_000_000_000 <= end)
    ensures var end := anchor + horizon * 60_000_000_000; !(later < end && later + lead * 60_000_000_000 <= end)
  {
  }
}
