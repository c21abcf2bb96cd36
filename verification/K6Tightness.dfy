/**
 The k6 bounds are as narrow as the samples allow (deploy/prodcluster/collect_load_evidence.py:133-157): for whatever
 the collector accepts there is a lawful history, with pushes that store exactly these samples, in which the hour's
 count is the lower bound, and another in which it is the upper one.
 */
module K6Tightness {
  import opened Wrappers
  import opened Ordering
  import opened Counting
  import opened K6Counters

  // ---------- where the bounds come from ----------

  ghost predicate ByStamp(s: seq<Sample>) { forall i, j :: 0 <= i < j < |s| ==> s[i].stamp <= s[j].stamp }

  /** The value after the first k samples. */
  function After(s: seq<Sample>, base: int, k: nat): int
    requires k <= |s|
  {
    if k == 0 then base else s[k - 1].value
  }

  /** The values never fall, from the base on. */
  ghost predicate Climbs(s: seq<Sample>, base: int) {
    0 <= base && forall i, j | 0 <= i <= j <= |s| :: After(s, base, i) <= After(s, base, j)
  }

  lemma {:induction false} MonotoneClimbs(s: seq<Sample>, base: int)
    requires Monotone([base] + Values(s))
    ensures Climbs(s, base)
  {
    var vs := [base] + Values(s);
    assert vs[0] == base && forall i :: 0 <= i <= |s| ==> vs[i] == After(s, base, i);
    forall i, j | 0 <= i <= j <= |s| ensures vs[i] <= vs[j] {
      NeverFalls(vs, i, j);
    }
  }

  lemma {:induction false} NeverFalls(vs: seq<int>, i: nat, j: nat)
    requires i <= j < |vs| && Monotone(vs)
    ensures vs[i] <= vs[j]
  {
    if i < j {
      NeverFalls(vs, i, j - 1);
    }
  }

  /** How many of the samples are stamped below t. */
  ghost predicate CountsBelow(s: seq<Sample>, t: int, c: nat) {
    c <= |s| && (forall i :: 0 <= i < c ==> s[i].stamp < t) && forall i :: c <= i < |s| ==> t <= s[i].stamp
  }

  lemma CountsOrdered(s: seq<Sample>, t: int, u: int, c: nat, d: nat)
    requires CountsBelow(s, t, c) && CountsBelow(s, u, d) && t <= u
    ensures c <= d
  {
    if c > 0 {
      var last := s[c - 1].stamp;
      assert last < t;
    }
  }

  lemma {:induction false} Below(s: seq<Sample>, base: int, t: int) returns (c: nat)
    requires ByStamp(s)
    ensures CountsBelow(s, t, c) && LastBelow(s, base, t) == After(s, base, c)
  {
    if s == [] {
      c := 0;
    } else if s[|s| - 1].stamp < t {
      c := |s|;
    } else {
      c := Below(s[..|s| - 1], base, t);
    }
  }

  lemma {:induction false} From(s: seq<Sample>, base: int, t: int, c: nat)
    requires ByStamp(s) && CountsBelow(s, t, c)
    ensures FirstFrom(s, t) == if c < |s| then Some(After(s, base, c + 1)) else None
  {
    if s != [] && c > 0 {
      From(s[1..], base, t, c - 1);
    }
  }

  lemma {:induction false} EarlierToo(s: seq<Sample>, t: int, u: int)
    requires t <= u && FirstFrom(s, u).Some?
    ensures FirstFrom(s, t).Some?
  {
    if s[0].stamp < t {
      EarlierToo(s[1..], t, u);
    }
  }

  /** Both sides of an instant. */
  lemma Edge(s: seq<Sample>, base: int, t: int) returns (c: nat)
    requires ByStamp(s)
    ensures CountsBelow(s, t, c) && LastBelow(s, base, t) == After(s, base, c)
    ensures FirstFrom(s, t) == if c < |s| then Some(After(s, base, c + 1)) else None
  {
    c := Below(s, base, t);
    From(s, base, t, c);
  }

  // ---------- building a history ----------

  /** One flush right after each stamp, in order. */
  ghost predicate Flushes(s: seq<Sample>, phi: seq<real>) {
    && |phi| == |s|
    && (forall i :: 0 <= i < |s| ==> s[i].stamp as real <= phi[i] < (s[i].stamp + 1) as real)
    && (forall i, j :: 0 <= i < j < |s| ==> phi[i] < phi[j])
  }

  lemma Share(i: nat, j: nat, n: nat)
    requires i < j < n
    ensures 0.0 <= i as real / n as real < j as real / n as real < 1.0
  {
  }

  lemma FlushTimes(s: seq<Sample>) returns (phi: seq<real>)
    requires ByStamp(s)
    ensures Flushes(s, phi)
  {
    var n := |s|;
    phi := seq(n, i requires 0 <= i < n => s[i].stamp as real + i as real / (n + 1) as real);
    forall i | 0 <= i < n ensures s[i].stamp as real <= phi[i] < (s[i].stamp + 1) as real {
      Share(i, n, n + 1);
    }
    forall i, j | 0 <= i < j < n ensures phi[i] < phi[j] {
      Share(i, j, n + 1);
    }
  }

  /** When each sample's increase happened and reached the exporter: within the lag, after the flush before the sample's
      and by its own. */
  ghost predicate Timed(phi: seq<real>, at: seq<real>, arrive: seq<real>, lag: int) {
    && |at| == |arrive| == |phi|
    && (forall i :: 0 <= i < |phi| ==> at[i] <= arrive[i] <= at[i] + lag as real && arrive[i] <= phi[i])
    && (forall i, j :: 0 <= i < j < |phi| ==> phi[i] < arrive[j])
  }

  /** The increase of sample i, and an event that adds nothing but sets its stamp. */
  function Pair(s: seq<Sample>, base: int, phi: seq<real>, at: seq<real>, arrive: seq<real>, i: nat): seq<Event>
    requires i < |s| == |phi| == |at| == |arrive| && Climbs(s, base)
  {
    [Event(phi[i], phi[i], 0), Event(at[i], arrive[i], After(s, base, i + 1) - After(s, base, i))]
  }

  /** What was counted before the samples. */
  function Earlier(s: seq<Sample>, base: int, start: real): Event
    requires Climbs(s, base)
  {
    Event(start, start, base)
  }

  /** The events behind the first k samples; what was counted before them happened at `start`. */
  function Events(s: seq<Sample>, base: int, phi: seq<real>, at: seq<real>, arrive: seq<real>, start: real, k: nat)
    : seq<Event>
    requires k <= |s| == |phi| == |at| == |arrive| && Climbs(s, base)
  {
    if k == 0 then [Earlier(s, base, start)]
    else Events(s, base, phi, at, arrive, start, k - 1) + Pair(s, base, phi, at, arrive, k - 1)
  }

  lemma {:induction false} TotalConcat<T>(a: seq<T>, b: seq<T>, f: T -> nat)
    ensures Total(a + b, f) == Total(a, f) + Total(b, f)
  {
    if a == [] {
      assert a + b == b;
    } else {
      TotalConcat(a[1..], b, f);
      assert (a + b)[1..] == a[1..] + b;
    }
  }

  lemma TotalTwo<T>(x: T, y: T, f: T -> nat)
    ensures Total([x, y], f) == f(x) + f(y)
  {
    assert [x, y][1..] == [y] && [y][1..] == [];
    assert Total([y], f) == f(y) + Total([], f);
  }

  /** f gives each event its weight or nothing. */
  ghost predicate Weighs(f: Event -> nat, e: Event, counted: bool) { f(e) == if counted then e.weight else 0 }

  /** One more sample adds its increase where f counts it. */
  lemma MoreEvents(s: seq<Sample>, base: int, phi: seq<real>, at: seq<real>, arrive: seq<real>, start: real, k: nat,
                   f: Event -> nat, zero: bool, counted: bool)
    requires k < |s| == |phi| == |at| == |arrive| && Climbs(s, base)
    requires Weighs(f, Pair(s, base, phi, at, arrive, k)[0], zero)
    requires Weighs(f, Pair(s, base, phi, at, arrive, k)[1], counted)
    ensures Total(Events(s, base, phi, at, arrive, start, k + 1), f)
         == Total(Events(s, base, phi, at, arrive, start, k), f)
            + if counted then After(s, base, k + 1) - After(s, base, k) else 0
  {
    var pair := Pair(s, base, phi, at, arrive, k);
    TotalConcat(Events(s, base, phi, at, arrive, start, k), pair, f);
    TotalTwo(pair[0], pair[1], f);
    assert pair == [pair[0], pair[1]];
  }

  lemma TotalOne(e: Event, f: Event -> nat)
    ensures Total([e], f) == f(e)
  {
    assert [e][1..] == [];
  }

  lemma ArrivalWeighs(s: seq<Sample>, base: int, phi: seq<real>, at: seq<real>, arrive: seq<real>, lag: int, k: nat,
                      i: nat)
    requires k < |s| && i < |s| && Flushes(s, phi) && Timed(phi, at, arrive, lag) && Climbs(s, base)
    ensures Weighs(ArrivedBy(phi[i]), Pair(s, base, phi, at, arrive, k)[0], k <= i)
    ensures Weighs(ArrivedBy(phi[i]), Pair(s, base, phi, at, arrive, k)[1], k <= i)
  {
    assert k < i ==> phi[k] < phi[i];
    assert i < k ==> phi[i] < arrive[k];
  }

  /** By the flush of sample i exactly its own increase and the earlier ones have arrived. */
  lemma {:induction false} ArrivedTotal(s: seq<Sample>, base: int, phi: seq<real>, at: seq<real>, arrive: seq<real>,
                                        lag: int, start: real, k: nat, i: nat)
    requires k <= |s| && i < |s| && Flushes(s, phi) && Timed(phi, at, arrive, lag) && Climbs(s, base)
    requires start <= phi[0]
    ensures Total(Events(s, base, phi, at, arrive, start, k), ArrivedBy(phi[i]))
         == After(s, base, if k <= i then k else i + 1)
  {
    if k == 0 {
      TotalOne(Events(s, base, phi, at, arrive, start, k)[0], ArrivedBy(phi[i]));
      assert i > 0 ==> phi[0] < phi[i];
    } else {
      ArrivedTotal(s, base, phi, at, arrive, lag, start, k - 1, i);
      ArrivalWeighs(s, base, phi, at, arrive, lag, k - 1, i);
      MoreEvents(s, base, phi, at, arrive, start, k - 1, ArrivedBy(phi[i]), k - 1 <= i, k - 1 <= i);
    }
  }

  /** Exactly the increases of samples p..q-1 happen in the hour. */
  ghost predicate HourOf(at: seq<real>, t0: int, t1: int, p: nat, q: nat) {
    forall i :: 0 <= i < |at| ==> (p <= i < q <==> t0 as real <= at[i] < t1 as real)
  }

  lemma {:induction false} HourTotal(s: seq<Sample>, base: int, phi: seq<real>, at: seq<real>, arrive: seq<real>,
                                     start: real, k: nat, t0: int, t1: int, p: nat, q: nat)
    requires k <= |s| == |phi| == |at| == |arrive| && Climbs(s, base)
    requires HourOf(at, t0, t1, p, q) && p <= q <= |s| && start < t0 as real
    ensures Total(Events(s, base, phi, at, arrive, start, k), InHour(t0, t1))
         == if k <= p then 0 else After(s, base, if k <= q then k else q) - After(s, base, p)
  {
    if k == 0 {
      TotalOne(Events(s, base, phi, at, arrive, start, k)[0], InHour(t0, t1));
    } else {
      HourTotal(s, base, phi, at, arrive, start, k - 1, t0, t1, p, q);
      var pair := Pair(s, base, phi, at, arrive, k - 1);
      assert Weighs(InHour(t0, t1), pair[0], false) && Weighs(InHour(t0, t1), pair[1], p <= k - 1 < q);
      MoreEvents(s, base, phi, at, arrive, start, k - 1, InHour(t0, t1), false, p <= k - 1 < q);
    }
  }

  lemma {:induction false} EventIs(s: seq<Sample>, base: int, phi: seq<real>, at: seq<real>, arrive: seq<real>,
                                   start: real, k: nat, e: Event)
    requires k <= |s| == |phi| == |at| == |arrive| && Climbs(s, base)
    ensures e in Events(s, base, phi, at, arrive, start, k)
       <==> || e == Earlier(s, base, start)
            || exists i :: 0 <= i < k && e in Pair(s, base, phi, at, arrive, i)
  {
    if k > 0 {
      EventIs(s, base, phi, at, arrive, start, k - 1, e);
    }
  }

  /** The samples and the base are those of the history. */
  ghost predicate Behind(es: seq<Event>, flushes: seq<real>, samples: seq<Sample>, base: int, t0: int, lag: int) {
    Lawful(es, lag) && Stored(es, flushes, samples) && GoodBase(es, samples, base, t0)
  }

  ghost predicate CountPossible(samples: seq<Sample>, base: int, t0: int, t1: int, lag: int, count: int) {
    exists es, flushes :: Behind(es, flushes, samples, base, t0, lag) && Total(es, InHour(t0, t1)) == count
  }

  lemma EventsLawful(s: seq<Sample>, base: int, phi: seq<real>, at: seq<real>, arrive: seq<real>, lag: int, start: real)
    requires Flushes(s, phi) && Timed(phi, at, arrive, lag) && 0 <= lag && Climbs(s, base)
    ensures Lawful(Events(s, base, phi, at, arrive, start, |s|), lag)
  {
    var es := Events(s, base, phi, at, arrive, start, |s|);
    forall e | e in es ensures e.at <= e.arrive <= e.at + lag as real {
      EventIs(s, base, phi, at, arrive, start, |s|, e);
    }
  }

  /** Flush i pushes sample i. */
  lemma PushesSample(s: seq<Sample>, base: int, phi: seq<real>, at: seq<real>, arrive: seq<real>, lag: int, start: real,
                     i: nat)
    requires i < |s| && Flushes(s, phi) && Timed(phi, at, arrive, lag) && Climbs(s, base)
    requires start <= phi[0]
    ensures PushedAt(Events(s, base, phi, at, arrive, start, |s|), phi[i], s[i])
  {
    var es := Events(s, base, phi, at, arrive, start, |s|);
    ArrivedTotal(s, base, phi, at, arrive, lag, start, |s|, i);
    var z := Event(phi[i], phi[i], 0);
    assert z == Pair(s, base, phi, at, arrive, i)[0];
    EventIs(s, base, phi, at, arrive, start, |s|, z);
    assert z in es && Reached(z, phi[i]) && z.at.Floor == s[i].stamp;
    forall e | e in es && Reached(e, phi[i]) ensures e.at.Floor <= s[i].stamp {
      EventIs(s, base, phi, at, arrive, start, |s|, e);
      EventEarly(s, base, phi, at, arrive, lag, start, i, e);
    }
  }

  lemma EventEarly(s: seq<Sample>, base: int, phi: seq<real>, at: seq<real>, arrive: seq<real>, lag: int, start: real,
                   i: nat, e: Event)
    requires i < |s| && Flushes(s, phi) && Timed(phi, at, arrive, lag) && Climbs(s, base)
    requires Reached(e, phi[i]) && start <= phi[0]
    requires e == Earlier(s, base, start) || exists j :: 0 <= j < |s| && e in Pair(s, base, phi, at, arrive, j)
    ensures e.at <= phi[i]
  {
    assert i > 0 ==> phi[0] < phi[i];
  }

  /** A timed history with its flushes stores exactly the samples it was made for. */
  lemma HistoryStores(samples: seq<Sample>, s: seq<Sample>, base: int, phi: seq<real>, at: seq<real>, arrive: seq<real>,
                      lag: int, start: real)
    requires s != [] && Flushes(s, phi) && Timed(phi, at, arrive, lag) && Climbs(s, base)
    requires start <= phi[0] && SameSamples(samples, s)
    ensures Stored(Events(s, base, phi, at, arrive, start, |s|), phi, samples)
    ensures forall x :: x in samples ==> base <= x.value
  {
    forall x | x in samples ensures Pushed(Events(s, base, phi, at, arrive, start, |s|), phi, x) && base <= x.value {
      assert x in s;
      var i :| 0 <= i < |s| && s[i] == x;
      PushesSample(s, base, phi, at, arrive, lag, start, i);
      assert phi[i] in phi;
      assert After(s, base, 0) <= After(s, base, i + 1);
    }
  }

  lemma HistoryBehind(samples: seq<Sample>, s: seq<Sample>, base: int, phi: seq<real>, at: seq<real>, arrive: seq<real>,
                      t0: int, lag: int, start: real)
    requires s != [] && Flushes(s, phi) && Timed(phi, at, arrive, lag) && Climbs(s, base) && 0 <= lag
    requires start <= phi[0] && start < t0 as real && SameSamples(samples, s)
    ensures Behind(Events(s, base, phi, at, arrive, start, |s|), phi, samples, base, t0, lag)
  {
    EventsLawful(s, base, phi, at, arrive, lag, start);
    HistoryStores(samples, s, base, phi, at, arrive, lag, start);
    BaseCounted(s, base, phi, at, arrive, start, t0, |s|);
  }

  lemma Possible(es: seq<Event>, flushes: seq<real>, samples: seq<Sample>, base: int, t0: int, t1: int, lag: int,
                 count: int)
    requires Behind(es, flushes, samples, base, t0, lag) && Total(es, InHour(t0, t1)) == count
    ensures CountPossible(samples, base, t0, t1, lag, count)
  {
  }

  lemma HistoryCounts(samples: seq<Sample>, s: seq<Sample>, base: int, phi: seq<real>, at: seq<real>, arrive: seq<real>,
                      t0: int, t1: int, lag: int, p: nat, q: nat, count: int)
    requires s != [] && Flushes(s, phi) && Timed(phi, at, arrive, lag) && Climbs(s, base) && 0 <= lag
    requires p <= q <= |s| && HourOf(at, t0, t1, p, q) && SameSamples(samples, s)
    requires count == After(s, base, q) - After(s, base, p)
    ensures CountPossible(samples, base, t0, t1, lag, count)
  {
    var early := (t0 - 1) as real;
    var start := if phi[0] < early then phi[0] else early;
    var es := Events(s, base, phi, at, arrive, start, |s|);
    HourTotal(s, base, phi, at, arrive, start, |s|, t0, t1, p, q);
    assert Total(es, InHour(t0, t1)) == count;
    HistoryBehind(samples, s, base, phi, at, arrive, t0, lag, start);
    Possible(es, phi, samples, base, t0, t1, lag, count);
  }

  lemma {:induction false} BaseCounted(s: seq<Sample>, base: int, phi: seq<real>, at: seq<real>, arrive: seq<real>,
                                       start: real, t0: int, k: nat)
    requires k <= |s| == |phi| == |at| == |arrive| && Climbs(s, base) && start < t0 as real
    ensures 0 <= base <= Total(Events(s, base, phi, at, arrive, start, k), Before(t0))
  {
    if k == 0 {
      TotalOne(Earlier(s, base, start), Before(t0));
    } else {
      BaseCounted(s, base, phi, at, arrive, start, t0, k - 1);
      TotalConcat(Events(s, base, phi, at, arrive, start, k - 1), Pair(s, base, phi, at, arrive, k - 1), Before(t0));
    }
  }

  // ---------- the two extreme histories ----------

  function Larger(a: real, b: real): real { if a < b then b else a }

  /** The latest time in the hour, within the lag of the arrival a. */
  function InHourBefore(a: real, t0: real, t1: real, lag: real): real { if a < t1 then a else Larger(t0, a - lag) }

  /** A time before the hour, within the lag of the arrival a. */
  function BeforeHour(a: real, t0: real, lag: real): real { if a < t0 then a else a - lag }

  /** As much as possible in the hour: what was first counted from t0 on, up to the first sample a lag past t1, happened
      in the hour. */
  lemma MostInHour(s: seq<Sample>, phi: seq<real>, t0: int, t1: int, lag: int, p: nat, last: nat)
      returns (at: seq<real>, arrive: seq<real>)
    requires Flushes(s, phi) && t0 < t1 && 0 <= lag && last < |s|
    requires CountsBelow(s, t0, p) && CountsBelow(s, t1 + lag, last)
    ensures Timed(phi, at, arrive, lag) && p <= last && HourOf(at, t0, t1, p, last + 1)
  {
    var a, b, l := t0 as real, t1 as real, lag as real;
    var mid := (Larger(a, if last > 0 then phi[last - 1] else a) + (b + l)) / 2.0;
    assert a < mid < b + l && (last > 0 ==> phi[last - 1] < mid);
    arrive := seq(|s|, i requires 0 <= i < |s| => if i == last then mid else phi[i]);
    at := seq(|s|, i requires 0 <= i < |s| => if p <= i <= last then InHourBefore(arrive[i], a, b, l) else arrive[i]);
    CountsOrdered(s, t0, t1 + lag, p, last);
    forall i | 0 <= i < |s|
      ensures at[i] <= arrive[i] <= at[i] + l && arrive[i] <= phi[i] && (p <= i < last + 1 <==> a <= at[i] < b)
    {
      assert i < p ==> phi[i] < a;
      assert p <= i < last ==> a <= phi[i] < b + l;
      assert last < i ==> b <= phi[i];
    }
    forall i, j | 0 <= i < j < |s| ensures phi[i] < arrive[j] {
      assert j == last && i < last - 1 ==> phi[i] < phi[last - 1];
    }
  }

  /** As little as possible: what was first counted up to the first sample a lag past t0 happened before the hour, and
      nothing that was first counted from t1 on happened in it. */
  lemma LeastInHour(s: seq<Sample>, phi: seq<real>, t0: int, t1: int, lag: int, first: nat, q: nat)
      returns (at: seq<real>, arrive: seq<real>)
    requires Flushes(s, phi) && t0 < t1 && 0 <= lag
    requires CountsBelow(s, t0 + lag, first) && CountsBelow(s, t1, q)
    ensures Timed(phi, at, arrive, lag)
    ensures HourOf(at, t0, t1, first + 1, if first + 1 <= q then q else first + 1)
  {
    var a, b, l := t0 as real, t1 as real, lag as real;
    var mid := if first > 0 then (phi[first - 1] + (a + l)) / 2.0 else a + l - 1.0;
    assert mid < a + l && (first > 0 ==> phi[first - 1] < mid);
    arrive := seq(|s|, i requires 0 <= i < |s| => if i == first < q then mid else phi[i]);
    at := seq(|s|, i requires 0 <= i < |s| =>
              if i < first || i == first < q then BeforeHour(arrive[i], a, l) else arrive[i]);
    forall i | 0 <= i < |s|
      ensures at[i] <= arrive[i] <= at[i] + l && arrive[i] <= phi[i]
      ensures first + 1 <= i < (if first + 1 <= q then q else first + 1) <==> a <= at[i] < b
    {
      assert i < first ==> phi[i] < a + l;
      assert first <= i ==> a + l <= phi[i];
      assert i < q ==> phi[i] < b;
      assert q <= i ==> b <= phi[i];
    }
    forall i, j | 0 <= i < j < |s| ensures phi[i] < arrive[j] {
      assert j == first && i < first - 1 ==> phi[i] < phi[first - 1];
    }
  }

  // ---------- the result ----------

  lemma SortedByStamp(samples: seq<Sample>)
    ensures ByStamp(SortSamples(samples))
  {
    var s := SortSamples(samples);
    SortedLex(samples);
    forall i, j | 0 <= i < j < |s| ensures s[i].stamp <= s[j].stamp {
      assert LexLe(s[i], s[j]);
    }
  }

  /**
   The bounds cannot be narrowed: whenever there are any, some lawful history behind these very samples has exactly
   the lower bound's count in the hour, and some other exactly the upper bound's. (Histories may contain events that
   add nothing, as those of the dense failure counter do.)
   */
  lemma K6BoundsTight(samples: seq<Sample>, base: int, t0: int, t1: int, lag: int, zeroAllowed: bool, b: Bounds)
    requires t0 < t1 && 0 <= lag && K6Bounds(samples, base, t0, t1, lag, zeroAllowed) == Ok(b)
    ensures CountPossible(samples, base, t0, t1, lag, b.low) && CountPossible(samples, base, t0, t1, lag, b.high)
  {
    HighIsTight(samples, base, t0, t1, lag, zeroAllowed, b);
    LowIsTight(samples, base, t0, t1, lag, zeroAllowed, b);
  }

  lemma HighIsTight(samples: seq<Sample>, base: int, t0: int, t1: int, lag: int, zeroAllowed: bool, b: Bounds)
    requires t0 < t1 && 0 <= lag && K6Bounds(samples, base, t0, t1, lag, zeroAllowed) == Ok(b)
    ensures CountPossible(samples, base, t0, t1, lag, b.high)
  {
    var s := SortSamples(samples);
    SortedByStamp(samples);
    MonotoneClimbs(s, base);
    if FirstFrom(s, t1 + lag).None? {
      NothingInHour(samples, s, base, t0, t1, lag);
    } else {
      HighPossible(samples, s, base, t0, t1, lag, b.high);
    }
  }

  lemma LowIsTight(samples: seq<Sample>, base: int, t0: int, t1: int, lag: int, zeroAllowed: bool, b: Bounds)
    requires t0 < t1 && 0 <= lag && K6Bounds(samples, base, t0, t1, lag, zeroAllowed) == Ok(b)
    ensures CountPossible(samples, base, t0, t1, lag, b.low)
  {
    var s := SortSamples(samples);
    SortedByStamp(samples);
    MonotoneClimbs(s, base);
    if FirstFrom(s, t1 + lag).None? {
      NothingInHour(samples, s, base, t0, t1, lag);
    } else {
      EarlierToo(s, t0 + lag, t1 + lag);
      LowPossible(samples, s, base, t0, t1, lag, b.low);
    }
  }

  ghost predicate SameSamples(samples: seq<Sample>, s: seq<Sample>) { forall x :: x in samples <==> x in s }

  lemma HighPossible(samples: seq<Sample>, s: seq<Sample>, base: int, t0: int, t1: int, lag: int, count: int)
    requires t0 < t1 && 0 <= lag && ByStamp(s) && Climbs(s, base) && SameSamples(samples, s)
    requires FirstFrom(s, t1 + lag).Some? && count == FirstFrom(s, t1 + lag).value - LastBelow(s, base, t0)
    ensures CountPossible(samples, base, t0, t1, lag, count)
  {
    var p := Edge(s, base, t0);
    var last := Edge(s, base, t1 + lag);
    HighHistory(samples, s, base, t0, t1, lag, p, last, count);
  }

  lemma HighHistory(samples: seq<Sample>, s: seq<Sample>, base: int, t0: int, t1: int, lag: int, p: nat, last: nat,
                    count: int)
    requires t0 < t1 && 0 <= lag && ByStamp(s) && Climbs(s, base) && SameSamples(samples, s)
    requires CountsBelow(s, t0, p) && CountsBelow(s, t1 + lag, last) && last < |s|
    requires count == After(s, base, last + 1) - After(s, base, p)
    ensures CountPossible(samples, base, t0, t1, lag, count)
  {
    var phi := FlushTimes(s);
    var at, arrive := MostInHour(s, phi, t0, t1, lag, p, last);
    HistoryCounts(samples, s, base, phi, at, arrive, t0, t1, lag, p, last + 1, count);
  }

  lemma NothingInHour(samples: seq<Sample>, s: seq<Sample>, base: int, t0: int, t1: int, lag: int)
    requires ByStamp(s) && Climbs(s, base) && 0 <= lag
    requires SameSamples(samples, s) && forall x :: x in s ==> x.stamp < t0
    ensures CountPossible(samples, base, t0, t1, lag, 0)
  {
    if s == [] {
      NothingAtAll(samples, base, t0, t1, lag);
    } else {
      var phi := FlushTimes(s);
      forall i | 0 <= i < |s| ensures phi[i] < t0 as real {
        assert s[i] in s;
      }
      HistoryCounts(samples, s, base, phi, phi, phi, t0, t1, lag, 0, 0, 0);
    }
  }

  lemma NothingAtAll(samples: seq<Sample>, base: int, t0: int, t1: int, lag: int)
    requires 0 <= lag && (forall x :: x !in samples) && 0 <= base
    ensures CountPossible(samples, base, t0, t1, lag, 0)
  {
    var e := Earlier([], base, (t0 - 1) as real);
    TotalOne(e, Before(t0));
    TotalOne(e, InHour(t0, t1));
    assert Behind([e], [], samples, base, t0, lag);
  }

  lemma LowPossible(samples: seq<Sample>, s: seq<Sample>, base: int, t0: int, t1: int, lag: int, count: int)
    requires t0 < t1 && 0 <= lag && ByStamp(s) && Climbs(s, base) && SameSamples(samples, s)
    requires FirstFrom(s, t0 + lag).Some? && count == Gain(LastBelow(s, base, t1), FirstFrom(s, t0 + lag).value)
    ensures CountPossible(samples, base, t0, t1, lag, count)
  {
    var first := Edge(s, base, t0 + lag);
    var q := Edge(s, base, t1);
    LowHistory(samples, s, base, t0, t1, lag, first, q, count);
  }

  function Gain(l: int, h: int): int { if l > h then l - h else 0 }

  lemma LowHistory(samples: seq<Sample>, s: seq<Sample>, base: int, t0: int, t1: int, lag: int, first: nat, q: nat,
                   count: int)
    requires t0 < t1 && 0 <= lag && ByStamp(s) && Climbs(s, base) && SameSamples(samples, s)
    requires CountsBelow(s, t0 + lag, first) && CountsBelow(s, t1, q) && first < |s|
    requires count == Gain(After(s, base, q), After(s, base, first + 1))
    ensures CountPossible(samples, base, t0, t1, lag, count)
  {
    var phi := FlushTimes(s);
    var at, arrive := LeastInHour(s, phi, t0, t1, lag, first, q);
    var r := if first + 1 <= q then q else first + 1;
    HistoryCounts(samples, s, base, phi, at, arrive, t0, t1, lag, first + 1, r, count);
  }
}
