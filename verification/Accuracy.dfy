/**
 Scoring forecasts when their target time arrives (ml-engine/api/accuracy.py:104-149): queued forecasts per key, taken
 out by observations. Times are microseconds; the tolerance is whole seconds.
 */
module Accuracy {
  import opened Wrappers

  const SECOND := 1_000_000
  const CAPACITY := 512

  datatype Key = Key(application: string, namespace: string, metric: string, component: Option<string>)

  datatype Forecast = Forecast(target: int, predicted: real)

  // ---------- queues ----------

  /** A bounded queue gives up its oldest element. */
  function Pushed<T>(q: seq<T>, x: T): seq<T> {
    if |q| + 1 > CAPACITY then (q + [x])[|q| + 1 - CAPACITY..] else q + [x]
  }

  /** What an observation means for a queued forecast: its target is still ahead, the observation is fresh enough for
      it, or it came too late. */
  datatype Fate = Early | Fresh | Late

  function FateOf(obs: int, tolerance: int, target: int): Fate {
    if obs < target then Early else if obs - target <= tolerance * SECOND then Fresh else Late
  }

  /** The queued forecasts of one fate, in order. */
  function Select(q: seq<Forecast>, obs: int, tolerance: int, fate: Fate): seq<Forecast> {
    if q == [] then []
    else
      var last := q[|q| - 1];
      Select(q[..|q| - 1], obs, tolerance, fate) + if FateOf(obs, tolerance, last.target) == fate then [last] else []
  }

  function Values(q: seq<Forecast>): seq<real> { seq(|q|, i requires 0 <= i < |q| => q[i].predicted) }

  // ---------- the tracker ----------

  class Tracker {
    var pending: map<Key, seq<Forecast>>

    constructor ()
      ensures pending == map[]
    {
      pending := map[];
    }

    function Of(key: Key): seq<Forecast>
      reads this
    {
      if key in pending then pending[key] else []
    }

    method StoreForecast(key: Key, target: int, predicted: real)
      modifies this
      ensures Of(key) == Pushed(old(Of(key)), Forecast(target, predicted))
      ensures forall k :: k != key ==> Of(k) == old(Of(k))
    {
      if key !in pending {
        pending := pending[key := []];
      }
      pending := pending[key := Pushed(pending[key], Forecast(target, predicted))];
    }

    method TakeMatured(key: Key, obs: int, tolerance: int) returns (matured: seq<real>)
      modifies this
      ensures matured == Values(Select(old(Of(key)), obs, tolerance, Fresh))
      ensures Of(key) == Select(old(Of(key)), obs, tolerance, Early)
      ensures forall k :: k != key ==> Of(k) == old(Of(k))
    {
      if key !in pending || pending[key] == [] {
        return [];
      }
      ghost var before := pending;
      var q := pending[key];
      var keep: seq<Forecast> := [];
      matured := [];
      for i := 0 to |q|
        invariant pending == before
        invariant keep == Select(q[..i], obs, tolerance, Early)
        invariant matured == Values(Select(q[..i], obs, tolerance, Fresh))
      {
        assert q[..i + 1][..i] == q[..i];
        var delta := obs - q[i].target;
        if delta < 0 {
          keep := keep + [q[i]];
        } else if delta <= tolerance * SECOND {
          matured := matured + [q[i].predicted];
        }
      }
      assert q[..|q|] == q;
      pending := pending[key := keep];
    }
  }

  // ---------- runs of one key ----------

  datatype Event = Store(forecast: Forecast) | Take(obs: int, tolerance: int)

  /** The key's queue before event n. */
  function At(run: seq<Event>, n: nat): seq<Forecast>
    requires n <= |run|
  {
    if n == 0 then [] else Next(At(run, n - 1), run[n - 1])
  }

  /** One event on the queue. */
  function Next(q: seq<Forecast>, e: Event): seq<Forecast> {
    match e
    case Store(f) => Pushed(q, f)
    case Take(obs, tolerance) => Select(q, obs, tolerance, Early)
  }

  function ForecastOf(run: seq<Event>, i: int): Forecast {
    if 0 <= i < |run| && run[i].Store? then run[i].forecast else Forecast(0, 0.0)
  }

  /** Forecasts named by the event that stored them. */
  function SelectNames(run: seq<Event>, q: seq<int>, obs: int, tolerance: int, fate: Fate): seq<int> {
    if q == [] then []
    else
      var last := q[|q| - 1];
      SelectNames(run, q[..|q| - 1], obs, tolerance, fate)
      + if FateOf(obs, tolerance, ForecastOf(run, last).target) == fate then [last] else []
  }

  /** One event on the queue of names. */
  function NextNames(run: seq<Event>, q: seq<int>, n: nat): seq<int>
    requires n < |run|
  {
    match run[n]
    case Store(_) => Pushed(q, n)
    case Take(obs, tolerance) => SelectNames(run, q, obs, tolerance, Early)
  }

  /** The same queue by name. */
  function Names(run: seq<Event>, n: nat): seq<int>
    requires n <= |run|
  {
    if n == 0 then [] else NextNames(run, Names(run, n - 1), n - 1)
  }

  /** The forecasts that event n scores. */
  function Scored(run: seq<Event>, n: nat): seq<int>
    requires n < |run|
  {
    match run[n]
    case Store(_) => []
    case Take(obs, tolerance) => SelectNames(run, Names(run, n), obs, tolerance, Fresh)
  }

  function Named(run: seq<Event>, q: seq<int>): seq<Forecast> {
    seq(|q|, i requires 0 <= i < |q| => ForecastOf(run, q[i]))
  }

  lemma {:induction false} SelectNamed(run: seq<Event>, q: seq<int>, obs: int, tolerance: int, fate: Fate)
    ensures Select(Named(run, q), obs, tolerance, fate) == Named(run, SelectNames(run, q, obs, tolerance, fate))
  {
    if q != [] {
      var front, last := q[..|q| - 1], q[|q| - 1];
      SelectNamed(run, front, obs, tolerance, fate);
      assert Named(run, q)[..|q| - 1] == Named(run, front);
    }
  }

  lemma NextNamed(run: seq<Event>, fs: seq<Forecast>, q: seq<int>, n: nat)
    requires n < |run| && fs == Named(run, q)
    ensures Next(fs, run[n]) == Named(run, NextNames(run, q, n))
  {
    match run[n]
    case Take(obs, tolerance) => SelectNamed(run, q, obs, tolerance, Early);
    case Store(f) =>
      var more := q + [n];
      assert Named(run, more) == Named(run, q) + [f];
      if |q| + 1 > CAPACITY {
        assert Named(run, more[|q| + 1 - CAPACITY..]) == Named(run, more)[|q| + 1 - CAPACITY..];
      }
  }

  /** Naming forgets nothing: the queue and the scores are those of the named forecasts. */
  lemma {:induction false} NamesFaithful(run: seq<Event>, n: nat)
    requires n <= |run|
    ensures At(run, n) == Named(run, Names(run, n))
  {
    if n > 0 {
      NamesFaithful(run, n - 1);
      NextNamed(run, At(run, n - 1), Names(run, n - 1), n - 1);
    }
  }

  lemma ScoresFaithful(run: seq<Event>, n: nat)
    requires n < |run| && run[n].Take?
    ensures Select(At(run, n), run[n].obs, run[n].tolerance, Fresh) == Named(run, Scored(run, n))
  {
    NamesFaithful(run, n);
    SelectNamed(run, Names(run, n), run[n].obs, run[n].tolerance, Fresh);
  }

  // ---------- membership ----------

  lemma {:induction false} Selected(run: seq<Event>, q: seq<int>, obs: int, tolerance: int, fate: Fate, i: int)
    ensures i in SelectNames(run, q, obs, tolerance, fate)
            <==> i in q && FateOf(obs, tolerance, ForecastOf(run, i).target) == fate
  {
    if q != [] {
      Selected(run, q[..|q| - 1], obs, tolerance, fate, i);
      assert q == q[..|q| - 1] + [q[|q| - 1]];
    }
  }

  ghost predicate Increasing(q: seq<int>) { forall a, b :: 0 <= a < b < |q| ==> q[a] < q[b] }

  lemma {:induction false} SelectedIncreasing(run: seq<Event>, q: seq<int>, obs: int, tolerance: int, fate: Fate)
    requires Increasing(q)
    ensures Increasing(SelectNames(run, q, obs, tolerance, fate)) && |SelectNames(run, q, obs, tolerance, fate)| <= |q|
  {
    if q != [] {
      var front, last := q[..|q| - 1], q[|q| - 1];
      SelectedIncreasing(run, front, obs, tolerance, fate);
      var r := SelectNames(run, front, obs, tolerance, fate);
      forall a | 0 <= a < |r| ensures r[a] < last {
        Selected(run, front, obs, tolerance, fate, r[a]);
      }
    }
  }

  lemma PushedMember(q: seq<int>, x: int, i: int)
    requires |q| <= CAPACITY
    ensures |Pushed(q, x)| <= CAPACITY
    ensures i in Pushed(q, x) <==> i == x || (if |q| == CAPACITY then i in q[1..] else i in q)
  {
    if |q| == CAPACITY {
      assert Pushed(q, x) == q[1..] + [x];
    }
  }

  /** A queue of distinct stored forecasts, oldest first. */
  ghost predicate Queue(run: seq<Event>, q: seq<int>, n: nat) {
    && n <= |run| && Increasing(q) && |q| <= CAPACITY
    && forall i :: i in q ==> 0 <= i < n && run[i].Store?
  }

  lemma NextQueue(run: seq<Event>, q: seq<int>, n: nat)
    requires n < |run| && Queue(run, q, n)
    ensures Queue(run, NextNames(run, q, n), n + 1)
  {
    var r := NextNames(run, q, n);
    match run[n]
    case Take(obs, tolerance) =>
      SelectedIncreasing(run, q, obs, tolerance, Early);
      forall i | i in r ensures 0 <= i < n + 1 && run[i].Store? {
        Selected(run, q, obs, tolerance, Early, i);
      }
    case Store(_) =>
      PushedIncreasing(q, n);
      assert |q| > 0 ==> forall x :: x in q[1..] ==> x in q;
      forall i | i in r ensures 0 <= i < n + 1 && run[i].Store? {
        PushedMember(q, n, i);
      }
  }

  lemma {:induction false} AlwaysQueue(run: seq<Event>, n: nat)
    requires n <= |run|
    ensures Queue(run, Names(run, n), n)
  {
    if n > 0 {
      AlwaysQueue(run, n - 1);
      var q := Names(run, n - 1);
      var r := NextNames(run, q, n - 1);
      NextQueue(run, q, n - 1);
      assert Queue(run, r, n) && Names(run, n) == r;
    }
  }

  lemma PushedIncreasing(q: seq<int>, x: int)
    requires Increasing(q) && |q| <= CAPACITY && forall i :: i in q ==> i < x
    ensures Increasing(Pushed(q, x)) && |Pushed(q, x)| <= CAPACITY
  {
    assert forall a :: 0 <= a < |q| ==> q[a] in q;
  }

  /** Event m is an observation that has reached forecast i's target. */
  predicate Reaches(run: seq<Event>, m: nat, i: nat) {
    m < |run| && run[m].Take? && run[m].obs >= ForecastOf(run, i).target
  }

  /** Event m pushes forecast i out of the full queue. */
  predicate Evicts(run: seq<Event>, m: nat, i: nat) {
    m < |run| && run[m].Store? && |Names(run, m)| == 512 && Names(run, m)[0] == i
  }

  ghost predicate Survives(run: seq<Event>, m: nat, i: nat) { !Reaches(run, m, i) && !Evicts(run, m, i) }

  lemma NextMember(run: seq<Event>, q: seq<int>, n: nat, i: nat)
    requires n < |run| && Queue(run, q, n)
    ensures i in NextNames(run, q, n) <==>
              if run[n].Take? then i in q && run[n].obs < ForecastOf(run, i).target
              else i == n || (i in q && !(|q| == CAPACITY && q[0] == i))
  {
    match run[n]
    case Take(obs, tolerance) => Selected(run, q, obs, tolerance, Early, i);
    case Store(_) =>
      PushedMember(q, n, i);
      if |q| == CAPACITY {
        assert q == [q[0]] + q[1..];
        assert forall a :: 0 <= a < |q[1..]| ==> q[1..][a] == q[a + 1];
      }
  }

  lemma QueueStep(run: seq<Event>, n: nat, i: nat)
    requires n < |run|
    ensures i in Names(run, n + 1) <==> (i == n && run[n].Store?) || (i in Names(run, n) && Survives(run, n, i))
  {
    AlwaysQueue(run, n);
    NextMember(run, Names(run, n), n, i);
  }

  /** A forecast is queued exactly from its store until an observation reaches its target or the bound pushes it out. */
  lemma {:induction false} QueuedIff(run: seq<Event>, n: nat, i: nat)
    requires n <= |run|
    ensures i in Names(run, n) <==> i < n && run[i].Store? && SurvivesUntil(run, i, n)
  {
    if n > 0 {
      QueuedIff(run, n - 1, i);
      QueueStep(run, n - 1, i);
      OneMoreSurvived(run, i, n - 1);
      AlwaysQueue(run, n - 1);
    }
  }

  ghost predicate SurvivesUntil(run: seq<Event>, i: nat, n: nat) { forall m :: i < m < n ==> Survives(run, m, i) }

  lemma OneMoreSurvived(run: seq<Event>, i: nat, n: nat)
    ensures SurvivesUntil(run, i, n + 1) <==> SurvivesUntil(run, i, n) && (i < n ==> Survives(run, n, i))
  {
  }

  // ---------- results ----------

  /**
   Exactly when a forecast is scored: event n scores it if and only if n is the first observation after its store to
   reach its target, comes within the tolerance, and the bound has not pushed the forecast out before.
   */
  lemma ScoredIff(run: seq<Event>, n: nat, i: nat)
    requires n < |run|
    ensures i in Scored(run, n) <==>
              && i < n && run[i].Store? && run[n].Take?
              && 0 <= run[n].obs - run[i].forecast.target <= run[n].tolerance * 1_000_000
              && SurvivesUntil(run, i, n)
  {
    QueuedIff(run, n, i);
    if run[n].Take? {
      Selected(run, Names(run, n), run[n].obs, run[n].tolerance, Fresh, i);
    }
  }

  /** No forecast is scored twice, neither by two observations nor by one. */
  lemma ScoredAtMostOnce(run: seq<Event>, n: nat, m: nat, a: nat, b: nat)
    requires n <= m < |run| && a < |Scored(run, n)| && b < |Scored(run, m)| && Scored(run, n)[a] == Scored(run, m)[b]
    ensures n == m && a == b
  {
    var i := Scored(run, n)[a];
    assert i in Scored(run, n) && i in Scored(run, m);
    AlwaysQueue(run, n);
    Selected(run, Names(run, n), run[n].obs, run[n].tolerance, Fresh, i);
    ScoredIff(run, n, i);
    ScoredIff(run, m, i);
    assert n < m ==> Survives(run, n, i);
    SelectedIncreasing(run, Names(run, n), run[n].obs, run[n].tolerance, Fresh);
  }

  /** What becomes of forecast i at event m. */
  ghost predicate Leaves(run: seq<Event>, m: nat, i: nat)
    requires m < |run|
  {
    i in Names(run, m) && i !in Names(run, m + 1)
  }

  /** Conservation: a stored forecast is still queued, or left at exactly one event, which scored it, found it too
      late, or pushed it out; exactly one of the three. */
  lemma Conservation(run: seq<Event>, n: nat, i: nat)
    requires i < n <= |run| && run[i].Store?
    ensures i in Names(run, n) <==> !exists m :: i < m < n && Leaves(run, m, i)
    ensures forall m, k :: i < m < n && i < k < n && Leaves(run, m, i) && Leaves(run, k, i) ==> m == k
    ensures forall m :: i < m < n && Leaves(run, m, i) ==>
              if run[m].Store? then Evicts(run, m, i)
              else run[m].obs >= run[i].forecast.target
                   && (i in Scored(run, m) <==> run[m].obs - run[i].forecast.target <= run[m].tolerance * SECOND)
  {
    forall m | i < m < n && Leaves(run, m, i)
      ensures !Survives(run, m, i) && forall k :: i < k < m ==> Survives(run, k, i)
      ensures run[m].Take? ==> (i in Scored(run, m)
          <==> run[m].obs - run[i].forecast.target <= run[m].tolerance * SECOND)
    {
      QueueStep(run, m, i);
      QueuedIff(run, m, i);
      ScoredIff(run, m, i);
    }
    QueuedIff(run, n, i);
    if i !in Names(run, n) {
      var m := FirstLeaving(run, n, i);
    }
  }

  lemma {:induction false} FirstLeaving(run: seq<Event>, n: nat, i: nat) returns (m: nat)
    requires i < n <= |run| && run[i].Store? && i !in Names(run, n)
    ensures i < m < n && Leaves(run, m, i)
  {
    QueueStep(run, n - 1, i);
    if i in Names(run, n - 1) {
      m := n - 1;
    } else {
      m := FirstLeaving(run, n - 1, i);
    }
  }

  /** How many of events i..n-1 are stores. */
  function Stores(run: seq<Event>, i: nat, n: nat): nat
    requires n <= |run|
  {
    if n <= i then 0 else Stores(run, i, n - 1) + (if run[n - 1].Store? then 1 else 0)
  }

  /** At most the later stores queue behind a forecast. */
  lemma {:induction false} Behind(run: seq<Event>, n: nat, i: nat, a: nat)
    requires n <= |run| && a < |Names(run, n)| && Names(run, n)[a] == i
    ensures |Names(run, n)| - a - 1 <= Stores(run, i + 1, n)
  {
    AlwaysQueue(run, n);
    AlwaysQueue(run, n - 1);
    if !(run[n - 1].Store? && a == |Names(run, n)| - 1) {
      var b := NextBehind(run, Names(run, n - 1), n - 1, a);
      assert i in Names(run, n - 1);
      Behind(run, n - 1, i, b);
    }
  }

  /** One event: where a remaining forecast was in the queue before, and that at most a new store came behind it. */
  lemma NextBehind(run: seq<Event>, q: seq<int>, n: nat, a: nat) returns (b: nat)
    requires n < |run| && Queue(run, q, n) && a < |NextNames(run, q, n)|
    requires run[n].Store? ==> a < |NextNames(run, q, n)| - 1
    ensures b < |q| && q[b] == NextNames(run, q, n)[a]
    ensures |NextNames(run, q, n)| - a <= |q| - b + if run[n].Store? then 1 else 0
  {
    match run[n]
    case Store(_) =>
      b := if |q| == CAPACITY then a + 1 else a;
    case Take(obs, tolerance) =>
      b := SelectedBehind(run, q, obs, tolerance, Early, a);
  }

  lemma {:induction false} SelectedBehind(run: seq<Event>, q: seq<int>, obs: int, tolerance: int, fate: Fate, a: nat)
      returns (b: nat)
    requires a < |SelectNames(run, q, obs, tolerance, fate)|
    ensures b < |q| && q[b] == SelectNames(run, q, obs, tolerance, fate)[a]
    ensures |SelectNames(run, q, obs, tolerance, fate)| - a <= |q| - b
  {
    var front := q[..|q| - 1];
    if a < |SelectNames(run, front, obs, tolerance, fate)| {
      b := SelectedBehind(run, front, obs, tolerance, fate, a);
    } else {
      b := |q| - 1;
    }
  }

  /** Pushing a forecast out takes 512 later stores. */
  lemma EvictionNeedsCapacity(run: seq<Event>, m: nat, i: nat)
    requires i < m < |run| && Evicts(run, m, i)
    ensures |StoresIn(run, i + 1, m + 1)| >= 512
  {
    Behind(run, m, i, 0);
    StoresAre(run, i + 1, m + 1);
  }

  /** The stores among events i..n-1. */
  function StoresIn(run: seq<Event>, i: nat, n: nat): set<int>
    requires n <= |run|
  {
    set m | i <= m < n && run[m].Store?
  }

  lemma {:induction false} StoresAre(run: seq<Event>, i: nat, n: nat)
    requires n <= |run|
    ensures Stores(run, i, n) == |StoresIn(run, i, n)|
  {
    if n <= i {
      assert StoresIn(run, i, n) == {};
    } else {
      StoresAre(run, i, n - 1);
      var before := StoresIn(run, i, n - 1);
      assert StoresIn(run, i, n) == if run[n - 1].Store? then before + {n - 1} else before;
    }
  }

  lemma {:induction false} StoresGrow(run: seq<Event>, from: nat, m: nat, n: nat)
    requires m <= n <= |run|
    ensures Stores(run, from, m) <= Stores(run, from, n)
  {
    if m < n {
      StoresGrow(run, from, m, n - 1);
    }
  }

  /** Observation times never go back, and two neighbouring ones are at most a tolerance apart. */
  ghost predicate Regular(run: seq<Event>, tolerance: int) {
    && (forall m :: 0 <= m < |run| && run[m].Take? ==> run[m].tolerance == tolerance)
    && (forall m, n :: 0 <= m < n < |run| && run[m].Take? && run[n].Take? ==> run[m].obs <= run[n].obs)
    && (forall m, n :: 0 <= m < n < |run| && Neighbours(run, m, n) ==> run[n].obs - run[m].obs <= tolerance * SECOND)
  }

  ghost predicate Neighbours(run: seq<Event>, m: nat, n: nat) {
    m < n < |run| && run[m].Take? && run[n].Take? && forall k :: m < k < n ==> run[k].Store?
  }

  lemma {:induction false} LastTake(run: seq<Event>, m: nat, n: nat) returns (k: nat)
    requires m < n < |run| && run[m].Take? && run[n].Take?
    ensures m <= k < n && Neighbours(run, k, n)
  {
    k := n - 1;
    while run[k].Store?
      invariant m <= k < n && forall j :: k < j < n ==> run[j].Store?
      decreases k
    {
      k := k - 1;
    }
  }

  /** Before its target is reached, and with fewer than 512 later stores, a forecast survives. */
  lemma SurvivesIff(run: seq<Event>, i: nat, n: nat)
    requires i < n <= |run| && Stores(run, i + 1, n) < CAPACITY
    ensures SurvivesUntil(run, i, n) <==> forall m :: i < m < n ==> !Reaches(run, m, i)
  {
    forall m | i < m < n ensures Survives(run, m, i) <==> !Reaches(run, m, i) {
      StoresGrow(run, i + 1, m + 1, n);
      if Evicts(run, m, i) {
        EvictionNeedsCapacity(run, m, i);
        StoresAre(run, i + 1, m + 1);
      }
    }
  }

  /** Event n is the first observation after the store of i that reaches its target. */
  ghost predicate FirstReach(run: seq<Event>, i: nat, n: nat) {
    Reaches(run, n, i) && forall m :: i < m < n ==> !Reaches(run, m, i)
  }

  predicate Timely(run: seq<Event>, i: nat, n: nat)
    requires i < |run| && run[i].Store? && n < |run| && run[n].Take?
  {
    run[n].obs - run[i].forecast.target <= run[n].tolerance * 1_000_000
  }

  /** The last observation before n, whether before or after the store of i, is not past its target. */
  ghost predicate NotPassed(run: seq<Event>, i: nat, n: nat) {
    exists k :: 0 <= k < n && Neighbours(run, k, n) && run[k].obs <= ForecastOf(run, i).target
  }

  /** If no observation before the store is past the target, then none before the first reach is. */
  lemma NotPassedIff(run: seq<Event>, i: nat, n: nat)
    requires i < n < |run| && run[i].Store? && FirstReach(run, i, n)
    requires forall m :: 0 <= m < i && run[m].Take? ==> run[m].obs <= run[i].forecast.target
    ensures NotPassed(run, i, n) <==> exists m :: 0 <= m < n && run[m].Take?
  {
    if m :| 0 <= m < n && run[m].Take? {
      var k := LastTake(run, m, n);
      assert i < k ==> !Reaches(run, k, i);
      assert k != i && run[k].obs <= ForecastOf(run, i).target;
    }
  }

  /**
   With regular observations and fewer than 512 later stores, a forecast is scored at n if and only if n is the first
   observation after its store to reach its target, and either the observation before n, anywhere in the run, was not
   past the target, or n comes within the tolerance by itself. For a target that no observation before the store is
   past, the first of these only says that n is not the very first observation.
   */
  lemma RegularScoring(run: seq<Event>, tolerance: int, i: nat, n: nat)
    requires Regular(run, tolerance) && i < n < |run| && run[i].Store? && run[n].Take?
    requires |StoresIn(run, i + 1, n)| < 512
    ensures i in Scored(run, n) <==> FirstReach(run, i, n) && (NotPassed(run, i, n) || Timely(run, i, n))
    ensures (forall m :: 0 <= m < i && run[m].Take? ==> run[m].obs <= run[i].forecast.target)
        ==> (i in Scored(run, n) <==>
               FirstReach(run, i, n) && ((exists m :: 0 <= m < n && run[m].Take?) || Timely(run, i, n)))
  {
    ScoredIff(run, n, i);
    StoresAre(run, i + 1, n);
    SurvivesIff(run, i, n);
    if FirstReach(run, i, n) && forall m :: 0 <= m < i && run[m].Take? ==> run[m].obs <= run[i].forecast.target {
      NotPassedIff(run, i, n);
    }
  }

  /** As the very first observation, n may come too late, and the forecast is dropped unscored. */
  lemma FirstObservationCanMiss()
    ensures var run := [Store(Forecast(0, 1.0)), Take(400 * SECOND, 300)];
            Regular(run, 300) && 0 !in Scored(run, 1) && 0 !in Names(run, 2)
  {
    var run := [Store(Forecast(0, 1.0)), Take(400 * SECOND, 300)];
    ScoredIff(run, 1, 0);
    QueueStep(run, 1, 0);
    assert Reaches(run, 1, 0);
  }
}
