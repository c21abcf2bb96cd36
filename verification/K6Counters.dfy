/**
 The k6 side of the hourly load gate (deploy/prodcluster/collect_load_evidence.py): from the sparse, delayed samples a
 remote-write exporter happened to store, bounds on how much a counter grew in the hour [t0, t1).

 The hidden run is a history of events, each with the instant it happened, the instant it reached the exporter and the
 amount it added to the counter (1 for a built-in counter; 0 or 1 for the dense failure counter, which is touched by
 every request). Times are milliseconds: real for hidden instants, int for recorded stamps. Counter values are whole.
 */
module K6Counters {
  import opened Wrappers
  import opened Ordering
  import opened Counting

  const LAG := 600_000
  const PUSH := 10_000
  const HB_GAP := 15_000
  const SHORT := 180_000

  datatype Event = Event(at: real, arrive: real, weight: nat)

  /** One stored point (L, V) of a counter series. */
  datatype Sample = Sample(stamp: int, value: int)

  /** Why an hour has no bounds: only the second can be resolved by another counter. */
  datatype Problem = Incomplete | UnboundedTail

  // ---------- the collector ----------

  predicate LexLe(x: Sample, y: Sample) {
    x.stamp < y.stamp || (x.stamp == y.stamp && x.value <= y.value)
  }

  function SortSamples(s: seq<Sample>): (r: seq<Sample>)
    ensures |r| == |s| && forall x :: x in r <==> x in s
  {
    Sort(s, Lex())
  }

  function Lex(): (Sample, Sample) -> bool { (x: Sample, y: Sample) => LexLe(x, y) }

  lemma SortedLex(s: seq<Sample>)
    ensures forall i, j :: 0 <= i < j < |s| ==> LexLe(SortSamples(s)[i], SortSamples(s)[j])
  {
    var le, r := Lex(), SortSamples(s);
    assert TotalPreorder(le);
    SortOrdered(s, le);
    forall i, j | 0 <= i < j < |s| ensures LexLe(r[i], r[j]) {
      assert le(r[i], r[j]);
    }
  }

  predicate Monotone(values: seq<int>) {
    && (forall i :: 0 <= i < |values| ==> values[i] >= 0)
    && (forall i :: 0 < i < |values| ==> values[i - 1] <= values[i])
  }

  function Values(s: seq<Sample>): (r: seq<int>)
    ensures |r| == |s| && forall i :: 0 <= i < |s| ==> r[i] == s[i].value
  {
    seq(|s|, i requires 0 <= i < |s| => s[i].value)
  }

  /** The value of the last sample below t, else the base. */
  function LastBelow(s: seq<Sample>, base: int, t: int): int {
    if s == [] then base
    else if s[|s| - 1].stamp < t then s[|s| - 1].value
    else LastBelow(s[..|s| - 1], base, t)
  }

  /** The value of the first sample at or after t. */
  function FirstFrom(s: seq<Sample>, t: int): Option<int> {
    if s == [] then None
    else if s[0].stamp >= t then Some(s[0].value)
    else FirstFrom(s[1..], t)
  }

  function K6Bounds(samples: seq<Sample>, base: int, t0: int, t1: int, lag: int, zeroAllowed: bool)
    : Result<Bounds, Problem>
  {
    var s := SortSamples(samples);
    if !Monotone([base] + Values(s)) then Err(Incomplete)
    else
      var hi1 := FirstFrom(s, t1 + lag);
      if hi1.None? then
        if zeroAllowed && forall x :: x in s ==> x.stamp < t0 then Ok(Bounds(0, 0)) else Err(UnboundedTail)
      else
        var hi0 := FirstFrom(s, t0 + lag);
        var low := if hi0.Some? && LastBelow(s, base, t1) > hi0.value then LastBelow(s, base, t1) - hi0.value else 0;
        var high := hi1.value - LastBelow(s, base, t0);
        if low > high then Err(Incomplete) else Ok(Bounds(low, high))
  }

  /** True when the timestamps bracket [t0, t1] and no two consecutive ones in the bracketing range are more than gap
      apart. `CountUpTo` and `CountBelow` are the two bisections. */
  predicate Covers(ts: seq<int>, t0: int, t1: int, gap: int) { CoversSorted(SortInts(ts), t0, t1, gap) }

  predicate CoversSorted(pts: seq<int>, t0: int, t1: int, gap: int)
    requires Ascending(pts)
  {
    var i0 := CountUpTo(pts, t0) - 1;
    var i1 := CountBelow(pts, t1);
    0 <= i0 && i1 < |pts| && forall i :: i0 <= i < i1 ==> pts[i + 1] - pts[i] <= gap
  }

  function CountUpTo(pts: seq<int>, t: int): (n: nat)
    requires Ascending(pts)
    ensures n <= |pts|
    ensures forall i :: 0 <= i < |pts| ==> (i < n <==> pts[i] <= t)
  {
    if pts == [] || pts[0] > t then 0
    else
      var n := 1 + CountUpTo(pts[1..], t);
      assert forall i :: 0 < i < |pts| ==> pts[i] == pts[1..][i - 1];
      n
  }

  function CountBelow(pts: seq<int>, t: int): (n: nat)
    requires Ascending(pts)
    ensures n <= |pts|
    ensures forall i :: 0 <= i < |pts| ==> (i < n <==> pts[i] < t)
  {
    CountUpTo(pts, t - 1)
  }

  ghost predicate Bracketed(ts: seq<int>, x: int, gap: int) {
    exists p, q :: p in ts && q in ts && p <= x <= q && q - p <= gap
  }

  /** What the coverage check means: every instant of [t0, t1] has an observation on each side, close together. */
  lemma CoversMeaning(ts: seq<int>, t0: int, t1: int, gap: int)
    requires t0 <= t1 && 1 <= gap
    ensures Covers(ts, t0, t1, gap) <==> forall x :: t0 <= x <= t1 ==> Bracketed(ts, x, gap)
  {
    SortedMeaning(SortInts(ts), t0, t1, gap);
    forall x ensures Bracketed(SortInts(ts), x, gap) <==> Bracketed(ts, x, gap) {
      SameBrackets(SortInts(ts), ts, x, gap);
    }
  }

  lemma SameBrackets(pts: seq<int>, ts: seq<int>, x: int, gap: int)
    requires forall p :: p in pts <==> p in ts
    ensures Bracketed(pts, x, gap) <==> Bracketed(ts, x, gap)
  {
  }

  lemma SortedMeaning(pts: seq<int>, t0: int, t1: int, gap: int)
    requires Ascending(pts) && t0 <= t1 && 1 <= gap
    ensures CoversSorted(pts, t0, t1, gap) <==> forall x :: t0 <= x <= t1 ==> Bracketed(pts, x, gap)
  {
    if CoversSorted(pts, t0, t1, gap) {
      forall x | t0 <= x <= t1 ensures Bracketed(pts, x, gap) {
        CoveredInstant(pts, t0, t1, gap, x);
      }
    }
    if forall x :: t0 <= x <= t1 ==> Bracketed(pts, x, gap) {
      BracketedCovers(pts, t0, t1, gap);
    }
  }

  lemma CoveredInstant(pts: seq<int>, t0: int, t1: int, gap: int, x: int)
    requires Ascending(pts) && CoversSorted(pts, t0, t1, gap) && t0 <= x <= t1 && 0 <= gap
    ensures Bracketed(pts, x, gap)
  {
    var i0, i1 := CountUpTo(pts, t0) - 1, CountBelow(pts, t1);
    var i := CountUpTo(pts, x) - 1;
    assert pts[i0] <= x;
    assert pts[i] in pts;
    if pts[i] < x {
      assert x <= pts[i1];
      assert i0 <= i < i1;
      assert pts[i + 1] in pts;
    }
  }

  lemma BracketedCovers(pts: seq<int>, t0: int, t1: int, gap: int)
    requires Ascending(pts) && t0 <= t1 && 1 <= gap && forall x :: t0 <= x <= t1 ==> Bracketed(pts, x, gap)
    ensures CoversSorted(pts, t0, t1, gap)
  {
    var i0, i1 := CountUpTo(pts, t0) - 1, CountBelow(pts, t1);
    assert Bracketed(pts, t0, gap) && Bracketed(pts, t1, gap);
    var p :| p in pts && p <= t0;
    var q :| q in pts && t1 <= q;
    forall i | i0 <= i < i1 ensures pts[i + 1] - pts[i] <= gap {
      NoWideStep(pts, t0, t1, gap, i);
    }
  }

  lemma NoWideStep(pts: seq<int>, t0: int, t1: int, gap: int, i: int)
    requires Ascending(pts) && t0 <= t1 && 1 <= gap && forall x :: t0 <= x <= t1 ==> Bracketed(pts, x, gap)
    requires 0 <= i < |pts| - 1 && pts[i] < t1 && t0 < pts[i + 1]
    ensures pts[i + 1] - pts[i] <= gap
  {
    var x := if pts[i] < t0 then t0 else pts[i] + 1;
    assert Bracketed(pts, x, gap);
    var p, q :| p in pts && q in pts && p <= x <= q && q - p <= gap;
  }

  // ---------- the contract with the hidden run ----------

  function Before(t: int): Event -> nat { (e: Event) => if e.at < t as real then e.weight else 0 }
  function InHour(t0: int, t1: int): Event -> nat {
    (e: Event) => if t0 as real <= e.at < t1 as real then e.weight else 0
  }
  function ArrivedBy(flush: real): Event -> nat { (e: Event) => if Reached(e, flush) then e.weight else 0 }

  /** Every event reaches the exporter after it happened and within the lag (assumption A1'). */
  ghost predicate Lawful(es: seq<Event>, lag: int) {
    forall e :: e in es ==> e.at <= e.arrive <= e.at + lag as real
  }

  /** The sample a flush pushes: V counts every event received so far, L is the latest of them, floored. */
  ghost predicate PushedAt(es: seq<Event>, flush: real, x: Sample) {
    && x.value == Total(es, ArrivedBy(flush))
    && (exists e :: e in es && Reached(e, flush) && e.at.Floor == x.stamp)
    && (forall e :: e in es && Reached(e, flush) ==> e.at.Floor <= x.stamp)
  }

  predicate Reached(e: Event, flush: real) { e.arrive <= flush }

  /** Whatever was stored came from some flush; any push may have been lost. */
  ghost predicate Stored(es: seq<Event>, flushes: seq<real>, samples: seq<Sample>) {
    forall x :: x in samples ==> Pushed(es, flushes, x)
  }

  ghost predicate Pushed(es: seq<Event>, flushes: seq<real>, x: Sample) {
    exists f :: f in flushes && PushedAt(es, f, x)
  }

  // ---------- soundness of one series ----------

  lemma SampleBelow(es: seq<Event>, flush: real, x: Sample, t: int)
    requires PushedAt(es, flush, x) && x.stamp < t
    ensures 0 <= x.value <= Total(es, Before(t))
  {
    TotalMonotone(es, ArrivedBy(flush), Before(t));
  }

  lemma SampleAbove(es: seq<Event>, lag: int, flush: real, x: Sample, t: int)
    requires Lawful(es, lag) && PushedAt(es, flush, x) && x.stamp >= t + lag
    ensures Total(es, Before(t)) <= x.value
  {
    var last :| last in es && Reached(last, flush) && last.at.Floor == x.stamp;
    TotalMonotone(es, Before(t), ArrivedBy(flush));
  }

  lemma SamplesNested(es: seq<Event>, f: real, x: Sample, g: real, y: Sample)
    requires PushedAt(es, f, x) && PushedAt(es, g, y) && x.stamp < y.stamp
    ensures x.value <= y.value
  {
    var last :| last in es && Reached(last, g) && last.at.Floor == y.stamp;
    assert f < g;
    TotalMonotone(es, ArrivedBy(f), ArrivedBy(g));
  }

  lemma HourIsDifference(es: seq<Event>, t0: int, t1: int)
    requires t0 <= t1
    ensures Total(es, InHour(t0, t1)) == Total(es, Before(t1)) - Total(es, Before(t0))
  {
    TotalSplit(es, Before(t0), InHour(t0, t1), Before(t1));
  }

  lemma {:induction false} LastBelowIsLowerBound(es: seq<Event>, flushes: seq<real>, s: seq<Sample>, base: int, t: int)
    requires Stored(es, flushes, s) && base <= Total(es, Before(t))
    ensures LastBelow(s, base, t) <= Total(es, Before(t))
  {
    if s != [] {
      var x := s[|s| - 1];
      assert x in s;
      if x.stamp < t {
        var f :| f in flushes && PushedAt(es, f, x);
        SampleBelow(es, f, x, t);
      } else {
        LastBelowIsLowerBound(es, flushes, s[..|s| - 1], base, t);
      }
    }
  }

  lemma {:induction false} FirstFromIsUpperBound(es: seq<Event>, lag: int, flushes: seq<real>, s: seq<Sample>, t: int)
    requires Lawful(es, lag) && Stored(es, flushes, s)
    ensures FirstFrom(s, t + lag).Some? ==> Total(es, Before(t)) <= FirstFrom(s, t + lag).value
  {
    if s != [] {
      var x := s[0];
      assert x in s;
      if x.stamp >= t + lag {
        var f :| f in flushes && PushedAt(es, f, x);
        SampleAbove(es, lag, f, x, t);
      } else {
        FirstFromIsUpperBound(es, lag, flushes, s[1..], t);
      }
    }
  }

  lemma {:induction false} FirstFromSome(s: seq<Sample>, t: int)
    ensures FirstFrom(s, t).Some? <==> exists x :: x in s && t <= x.stamp
  {
    if s != [] {
      FirstFromSome(s[1..], t);
      assert s[0] in s && forall x :: x in s <==> x == s[0] || x in s[1..];
    }
  }

  lemma SamplesMonotone(es: seq<Event>, flushes: seq<real>, s: seq<Sample>, base: int)
    requires Stored(es, flushes, s)
    requires forall i, j :: 0 <= i < j < |s| ==> LexLe(s[i], s[j])
    requires 0 <= base && forall x :: x in s ==> base <= x.value
    ensures Monotone([base] + Values(s))
  {
    var vs := [base] + Values(s);
    forall i | 0 < i < |vs|
      ensures vs[i - 1] <= vs[i]
    {
      assert s[i - 1] in s;
      if i > 1 {
        var x, y := s[i - 2], s[i - 1];
        assert LexLe(x, y) && x in s;
        if x.stamp < y.stamp {
          var f :| f in flushes && PushedAt(es, f, x);
          var g :| g in flushes && PushedAt(es, g, y);
          SamplesNested(es, f, x, g, y);
        }
      }
    }
  }

  /** The base taken before the window is a lower bound on the count at t0 and on every later sample. */
  ghost predicate GoodBase(es: seq<Event>, samples: seq<Sample>, base: int, t0: int) {
    0 <= base <= Total(es, Before(t0)) && forall x :: x in samples ==> base <= x.value
  }

  /**
   Soundness of the bounds against every lawful history and every subset of pushes that survived: the bounds contain
   the truth, a lawful history is never called inconsistent, and the only way to have no bounds is a missing tail
   witness. The (0, 0) answer rests on what the collector establishes from the heartbeat before it allows it.
   */
  lemma K6BoundsSound(es: seq<Event>, flushes: seq<real>, samples: seq<Sample>, base: int, t0: int, t1: int, lag: int,
                      zeroAllowed: bool)
    requires t0 <= t1 && 0 <= lag && Lawful(es, lag) && Stored(es, flushes, samples)
    requires GoodBase(es, samples, base, t0)
    requires zeroAllowed && (forall x :: x in samples ==> x.stamp < t0) ==> Total(es, InHour(t0, t1)) == 0
    ensures match K6Bounds(samples, base, t0, t1, lag, zeroAllowed)
            case Ok(b) => b.Contains(Total(es, InHour(t0, t1))) && 0 <= b.low
            case Err(p) => p == UnboundedTail
  {
    var s := SortSamples(samples);
    assert Stored(es, flushes, s);
    SortedLex(samples);
    SamplesMonotone(es, flushes, s, base);
    HourIsDifference(es, t0, t1);
    TotalMonotone(es, Before(t0), Before(t1));
    LastBelowIsLowerBound(es, flushes, s, base, t0);
    LastBelowIsLowerBound(es, flushes, s, base, t1);
    FirstFromIsUpperBound(es, lag, flushes, s, t0);
    FirstFromIsUpperBound(es, lag, flushes, s, t1);
  }

  /** Consistent samples have bounds exactly when one of them is a lag past the hour or, where zero is allowed, none is
      in or after the hour. */
  lemma K6BoundsIff(samples: seq<Sample>, base: int, t0: int, t1: int, lag: int, zeroAllowed: bool)
    requires K6Bounds(samples, base, t0, t1, lag, zeroAllowed) != Err(Incomplete)
    ensures K6Bounds(samples, base, t0, t1, lag, zeroAllowed).Ok?
       <==> || (exists x :: x in samples && t1 + lag <= x.stamp)
            || (zeroAllowed && forall x :: x in samples ==> x.stamp < t0)
  {
    FirstFromSome(SortSamples(samples), t1 + lag);
  }

  // ---------- the (0, 0) answer ----------

  /** A flush that brings an event later than everything before it pushes the series. */
  ghost predicate MustPush(es: seq<Event>, flushes: seq<real>, i: nat)
    requires i < |flushes|
  {
    exists e :: e in es && Reached(e, flushes[i])
                && forall d, k :: d in es && 0 <= k < i && Reached(d, flushes[k]) ==> d.at.Floor < e.at.Floor
  }

  ghost predicate Spaced(flushes: seq<real>) {
    forall i, j :: 0 <= i < j < |flushes| ==> HB_GAP as real < 2.0 * (flushes[j] - flushes[i])
  }

  /** The flush's heartbeat was stored; its stamp is the flush time. */
  ghost predicate Delivered(heartbeats: seq<int>, flush: real) { exists h :: h in heartbeats && h as real == flush }

  /**
   The exporter's schedule: flushes more than half a heartbeat gap apart, each delivered flush storing its heartbeat
   and, when the series has something new, the series' sample.
   */
  ghost predicate Schedule(es: seq<Event>, flushes: seq<real>, heartbeats: seq<int>, samples: seq<Sample>) {
    && Spaced(flushes)
    && (forall h :: h in heartbeats ==> h as real in flushes)
    && (forall i :: 0 <= i < |flushes| && Delivered(heartbeats, flushes[i]) && MustPush(es, flushes, i)
          ==> exists x :: x in samples && PushedAt(es, flushes[i], x))
  }

  /** The heartbeat check proves that no flush from the last one at or before t0 to the first one at or after t1 was
      lost: a lost flush would leave a gap of two flush spacings. */
  lemma CoveredFlushesDelivered(flushes: seq<real>, heartbeats: seq<int>, t0: int, t1: int, b: nat)
    requires t0 <= t1 && Spaced(flushes) && Covers(heartbeats, t0, t1, HB_GAP)
    requires forall h :: h in heartbeats ==> h as real in flushes
    requires b < |flushes| && t0 as real <= flushes[b]
    requires forall h :: h in heartbeats && t1 <= h ==> flushes[b] <= h as real
    ensures Delivered(heartbeats, flushes[b])
  {
    var pts, f := SortInts(heartbeats), flushes[b];
    var i0, i1 := CountUpTo(pts, t0) - 1, CountBelow(pts, t1);
    var i := CountUpTo(pts, f.Floor) - 1;
    assert f <= pts[i1] as real by {
      assert pts[i1] in heartbeats;
    }
    assert pts[i0] <= t0 <= f.Floor;
    assert pts[i] in heartbeats;
    if pts[i] as real != f {
      assert i < i1 && pts[i] as real < f < pts[i + 1] as real;
      assert pts[i + 1] in heartbeats;
      LostFlushLeavesGap(flushes, pts[i], b, pts[i + 1]);
    }
  }

  lemma LostFlushLeavesGap(flushes: seq<real>, p: int, b: nat, q: int)
    requires Spaced(flushes) && p as real in flushes && q as real in flushes && b < |flushes|
    requires p as real < flushes[b] < q as real
    ensures HB_GAP < q - p
  {
    var a :| 0 <= a < |flushes| && flushes[a] == p as real;
    var c :| 0 <= c < |flushes| && flushes[c] == q as real;
    assert a < b < c;
  }

  /** Of the flushes that received an event in or after the hour, the first had to push it. */
  lemma FirstLateFlush(es: seq<Event>, flushes: seq<real>, t0: int, n: nat, e: Event) returns (i: nat, d: Event)
    requires n < |flushes| && e in es && Reached(e, flushes[n]) && t0 <= e.at.Floor
    ensures i <= n && MustPush(es, flushes, i)
    ensures d in es && Reached(d, flushes[i]) && t0 <= d.at.Floor
  {
    if k, d' :| 0 <= k < n && d' in es && Reached(d', flushes[k]) && t0 <= d'.at.Floor {
      i, d := FirstLateFlush(es, flushes, t0, k, d');
    } else {
      i, d := n, e;
    }
  }

  /**
   The zero answer is exact: when the heartbeat covers the hour, the lag and one push interval, and no sample stored by
   the last heartbeat is stamped in or after the hour, nothing happened in the hour.
   */
  lemma SilentHourIsEmpty(es: seq<Event>, flushes: seq<real>, heartbeats: seq<int>, samples: seq<Sample>, t0: int,
                          t1: int)
    requires t0 <= t1 && Lawful(es, LAG) && Schedule(es, flushes, heartbeats, samples)
    requires Covers(heartbeats, t0, t1 + LAG + PUSH, HB_GAP)
    requires forall x, h :: x in samples && h in heartbeats && x.stamp <= h ==> x.stamp < t0
    ensures Total(es, InHour(t0, t1)) == 0
  {
    forall e | e in es
      ensures InHour(t0, t1)(e) == 0
    {
      if t0 as real <= e.at < t1 as real {
        EventIsStored(es, flushes, heartbeats, samples, t0, t1, e);
      }
    }
    TotalMonotone(es, InHour(t0, t1), (e: Event) => 0);
    TotalZero(es);
  }

  lemma EventIsStored(es: seq<Event>, flushes: seq<real>, heartbeats: seq<int>, samples: seq<Sample>, t0: int, t1: int,
                      e: Event)
    requires t0 <= t1 && Lawful(es, LAG) && Schedule(es, flushes, heartbeats, samples)
    requires Covers(heartbeats, t0, t1 + LAG + PUSH, HB_GAP)
    requires e in es && t0 as real <= e.at < t1 as real
    ensures exists x, h :: x in samples && h in heartbeats && t0 <= x.stamp <= h
  {
    var end := t1 + LAG + PUSH;
    var closing, n := ClosingFlush(flushes, heartbeats, t0, end);
    ReachedLater(e, t0, t1, closing);
    var i, d := FirstLateFlush(es, flushes, t0, n, e);
    ReachedNotBefore(d, t0, flushes[i]);
    assert flushes[i] <= closing as real by {
      assert i < n ==> flushes[i] < flushes[n];
    }
    CoveredFlushesDelivered(flushes, heartbeats, t0, end, i);
    var x :| x in samples && PushedAt(es, flushes[i], x);
    var last :| last in es && Reached(last, flushes[i]) && last.at.Floor == x.stamp;
    var h :| h in heartbeats && h as real == flushes[i];
    assert x.stamp <= h;
  }

  lemma ReachedLater(e: Event, t0: int, t1: int, flush: int)
    requires t0 as real <= e.at < t1 as real && e.arrive <= e.at + LAG as real && t1 + LAG <= flush
    ensures Reached(e, flush as real) && t0 <= e.at.Floor
  {
  }

  lemma ReachedNotBefore(d: Event, t0: int, flush: real)
    requires Reached(d, flush) && d.at <= d.arrive && t0 <= d.at.Floor
    ensures t0 as real <= flush
  {
  }

  lemma ClosingFlush(flushes: seq<real>, heartbeats: seq<int>, t0: int, end: int) returns (closing: int, n: nat)
    requires Covers(heartbeats, t0, end, HB_GAP) && forall h :: h in heartbeats ==> h as real in flushes
    ensures n < |flushes| && flushes[n] == closing as real && end <= closing
    ensures forall h :: h in heartbeats && end <= h ==> closing <= h
  {
    var pts := SortInts(heartbeats);
    closing := pts[CountBelow(pts, end)];
    assert closing in heartbeats;
    n :| 0 <= n < |flushes| && flushes[n] == closing as real;
    forall h | h in heartbeats && end <= h
      ensures closing <= h
    {
      assert h in pts;
    }
  }

  lemma {:induction false} TotalZero(es: seq<Event>)
    ensures Total(es, (e: Event) => 0) == 0
  {
    if es != [] {
      TotalZero(es[1..]);
    }
  }

  // ---------- the counter of one selector ----------

  function Window(stored: seq<Sample>, after: int, upTo: int): (r: seq<Sample>)
    ensures forall x :: x in r <==> x in stored && after < x.stamp <= upTo
  {
    if stored == [] then []
    else
      var rest := Window(stored[1..], after, upTo);
      if after < stored[0].stamp <= upTo then [stored[0]] + rest else rest
  }

  function Max(a: int, b: int): int { if a < b then b else a }

  /** The last value before the window since the container start; the look-back is whole seconds long. */
  function BaseOf(stored: seq<Sample>, start: int, ws: int): int {
    if ws > start then LastBelow(SortSamples(Window(stored, ws - (ws - start) / 1000 * 1000, ws)), 0, ws + 1) else 0
  }

  predicate InAnswer(stored: seq<Sample>, t0: int, start: int, end: int) {
    Window(stored, Max(t0 - SHORT, start), end) != []
  }

  /** One series of the answer; a series without a sample in the window is not in the answer and adds nothing. */
  function SeriesBounds(stored: seq<Sample>, t0: int, t1: int, start: int, end: int, lag: int, zeroAllowed: bool)
    : Result<Bounds, Problem>
  {
    var ws := Max(t0 - SHORT, start);
    if !InAnswer(stored, t0, start, end) then Ok(Bounds(0, 0))
    else K6Bounds(Window(stored, ws, end), BaseOf(stored, start, ws), t0, t1, lag, zeroAllowed)
  }

  function SeriesParts(series: seq<seq<Sample>>, t0: int, t1: int, start: int, end: int, lag: int, zeroAllowed: bool)
    : seq<Result<Bounds, Problem>>
  {
    seq(|series|, i requires 0 <= i < |series| => SeriesBounds(series[i], t0, t1, start, end, lag, zeroAllowed))
  }

  /** The accumulation over the series of a selector: the first problem ends it. */
  method K6Counter(series: seq<seq<Sample>>, t0: int, t1: int, start: int, end: int, lag: int, zeroAllowed: bool)
    returns (r: Result<Bounds, Problem>)
    ensures r == SumOf(SeriesParts(series, t0, t1, start, end, lag, zeroAllowed))
  {
    r := Accumulate(SeriesParts(series, t0, t1, start, end, lag, zeroAllowed));
  }

  /** What is known of one generator run: its start, its flushes and delivered heartbeats up to the end of the query. */
  datatype Exporter = Exporter(start: int, flushes: seq<real>, heartbeats: seq<int>) {
    /** The series' events and what the store holds of them. */
    ghost predicate Produced(es: seq<Event>, stored: seq<Sample>, lag: int) {
      && Lawful(es, lag)
      && (forall e :: e in es ==> start < e.at.Floor)
      && Stored(es, flushes, stored)
      && Schedule(es, flushes, heartbeats, stored)
    }

    /** The checks made before any counter is read: the container precedes the hour and no flush was lost. */
    predicate Checked(t0: int, t1: int, end: int) {
      && start <= t0 <= t1
      && Covers(heartbeats, t0, t1 + LAG + PUSH, HB_GAP)
      && forall h :: h in heartbeats ==> h <= end
    }
  }

  lemma StampsFollowStart(es: seq<Event>, flushes: seq<real>, stored: seq<Sample>, start: int, x: Sample)
    requires Stored(es, flushes, stored) && x in stored && forall e :: e in es ==> start < e.at.Floor
    ensures start < x.stamp && 0 <= x.value
  {
    assert Pushed(es, flushes, x);
    var f :| f in flushes && PushedAt(es, f, x);
    var e :| e in es && Reached(e, f) && e.at.Floor == x.stamp;
  }

  /** Everything below the first stamp of the window is counted by every sample in it. */
  lemma {:induction false} BaseIsGood(es: seq<Event>, flushes: seq<real>, s: seq<Sample>, visible: seq<Sample>, ws: int,
                                      t0: int)
    requires Stored(es, flushes, s) && Stored(es, flushes, visible) && ws < t0
    requires forall x :: x in s ==> x.stamp <= ws
    requires forall x :: x in visible ==> ws < x.stamp
    ensures GoodBase(es, visible, LastBelow(s, 0, ws + 1), t0)
  {
    if s == [] {
      forall x | x in visible
        ensures 0 <= x.value
      {
        var f :| f in flushes && PushedAt(es, f, x);
      }
    } else {
      var y := s[|s| - 1];
      assert y in s;
      var g :| g in flushes && PushedAt(es, g, y);
      SampleBelow(es, g, y, t0);
      forall x | x in visible
        ensures y.value <= x.value
      {
        var f :| f in flushes && PushedAt(es, f, x);
        SamplesNested(es, g, y, f, x);
      }
    }
  }

  /** The base of a series: what was stored by the start of its window, or nothing. */
  lemma SeriesBase(w: Exporter, es: seq<Event>, stored: seq<Sample>, t0: int, ws: int, end: int)
    requires w.Produced(es, stored, LAG) && w.start <= t0 && ws == Max(t0 - SHORT, w.start)
    ensures GoodBase(es, Window(stored, ws, end), BaseOf(stored, w.start, ws), t0)
  {
    if ws > w.start {
      WindowStored(es, w.flushes, stored, ws, end);
      BaseBefore(es, w.flushes, stored, Window(stored, ws, end), w.start, ws, t0);
    } else {
      BaseAtStart(w, es, stored, ws, end);
    }
  }

  lemma BaseBefore(es: seq<Event>, flushes: seq<real>, stored: seq<Sample>, visible: seq<Sample>, start: int,
      ws: int, t0: int)
    requires Stored(es, flushes, stored) && Stored(es, flushes, visible) && start < ws < t0
    requires forall x :: x in visible ==> ws < x.stamp
    ensures GoodBase(es, visible, BaseOf(stored, start, ws), t0)
  {
    var s, base := LookBack(es, flushes, stored, start, ws);
    BaseIsGood(es, flushes, s, visible, ws, t0);
    assert GoodBase(es, visible, base, t0);
  }

  /** The look-back behind a base: stored samples up to the window. */
  lemma LookBack(es: seq<Event>, flushes: seq<real>, stored: seq<Sample>, start: int, ws: int)
      returns (s: seq<Sample>, base: int)
    requires Stored(es, flushes, stored) && start < ws
    ensures base == BaseOf(stored, start, ws) == LastBelow(s, 0, ws + 1)
    ensures Stored(es, flushes, s) && forall x :: x in s ==> x.stamp <= ws
  {
    var look := Window(stored, ws - (ws - start) / 1000 * 1000, ws);
    WindowStored(es, flushes, stored, ws - (ws - start) / 1000 * 1000, ws);
    s := SortSamples(look);
    base := LastBelow(s, 0, ws + 1);
    SortedStored(es, flushes, look);
  }

  lemma SortedStored(es: seq<Event>, flushes: seq<real>, samples: seq<Sample>)
    requires Stored(es, flushes, samples)
    ensures Stored(es, flushes, SortSamples(samples))
  {
  }

  lemma BaseAtStart(w: Exporter, es: seq<Event>, stored: seq<Sample>, ws: int, end: int)
    requires w.Produced(es, stored, LAG)
    ensures forall x :: x in Window(stored, ws, end) ==> 0 <= x.value
  {
    forall x | x in Window(stored, ws, end) ensures 0 <= x.value {
      StampsFollowStart(es, w.flushes, stored, w.start, x);
    }
  }

  lemma WindowStored(es: seq<Event>, flushes: seq<real>, stored: seq<Sample>, after: int, upTo: int)
    requires Stored(es, flushes, stored)
    ensures Stored(es, flushes, Window(stored, after, upTo))
  {
  }

  /** A window that ends before the hour proves the hour empty. */
  lemma SilentWindow(w: Exporter, es: seq<Event>, stored: seq<Sample>, t0: int, t1: int, ws: int, end: int)
    requires w.Produced(es, stored, LAG) && w.Checked(t0, t1, end) && ws == Max(t0 - SHORT, w.start)
    requires forall x :: x in Window(stored, ws, end) ==> x.stamp < t0
    ensures Total(es, InHour(t0, t1)) == 0
  {
    forall x, h | x in stored && h in w.heartbeats && x.stamp <= h ensures x.stamp < t0 {
      StampsFollowStart(es, w.flushes, stored, w.start, x);
      assert x.stamp <= ws || x in Window(stored, ws, end);
    }
    SilentHourIsEmpty(es, w.flushes, w.heartbeats, stored, t0, t1);
  }

  /** The sample lies in the query's window: from three minutes before the hour, or the container's start, to the
      end. */
  predicate Visible(x: Sample, t0: int, start: int, end: int) {
    t0 - 180_000 < x.stamp && start < x.stamp && x.stamp <= end
  }

  /** What decides whether a series has bounds: a visible sample a lag past the hour, or, where zero is allowed, none in
      or after the hour, or none at all. */
  ghost predicate Tailed(stored: seq<Sample>, t0: int, t1: int, start: int, end: int, zeroAllowed: bool) {
    || (exists x :: x in stored && Visible(x, t0, start, end) && t1 + 600_000 <= x.stamp)
    || (forall x :: x in stored && Visible(x, t0, start, end) ==> zeroAllowed && x.stamp < t0)
  }

  /** The sample lies in the look-back: the whole seconds from the container's start that end with the window's
      start. */
  predicate InLookBack(x: Sample, start: int, ws: int) { ws - (ws - start) / 1000 * 1000 < x.stamp <= ws }

  /** The base is the value of the latest sample of the look-back, the larger one of two with its stamp; nothing
      else. */
  lemma BaseIsLatest(stored: seq<Sample>, start: int, ws: int)
    requires start < ws
    ensures if forall x :: x in stored ==> !InLookBack(x, start, ws) then BaseOf(stored, start, ws) == 0
            else exists x :: x in stored && InLookBack(x, start, ws) && BaseOf(stored, start, ws) == x.value
                             && forall y :: y in stored && InLookBack(y, start, ws) ==> LexLe(y, x)
  {
    var look := Window(stored, ws - (ws - start) / 1000 * 1000, ws);
    var s := SortSamples(look);
    SortedLex(look);
    if s != [] {
      var x := s[|s| - 1];
      assert x in s && x in look;
      forall y | y in stored && InLookBack(y, start, ws) ensures LexLe(y, x) {
        assert y in look && y in s;
        var i :| 0 <= i < |s| && s[i] == y;
      }
    } else {
      assert forall x :: x in look ==> x in s;
    }
  }

  /** One series: nothing when none of its samples is visible, else the bounds of exactly the visible ones from the base
      before them. */
  lemma SeriesIs(stored: seq<Sample>, t0: int, t1: int, start: int, end: int, lag: int, zeroAllowed: bool)
      returns (visible: seq<Sample>, ws: int)
    ensures ws == if t0 - 180_000 < start then start else t0 - 180_000
    ensures forall x :: x in visible <==> x in stored && Visible(x, t0, start, end)
    ensures SeriesBounds(stored, t0, t1, start, end, lag, zeroAllowed)
         == if visible == [] then Ok(Bounds(0, 0))
            else K6Bounds(visible, BaseOf(stored, start, ws), t0, t1, lag, zeroAllowed)
    ensures start == ws ==> BaseOf(stored, start, ws) == 0
  {
    ws := Max(t0 - SHORT, start);
    visible := Window(stored, ws, end);
  }

  lemma SeriesSound(w: Exporter, es: seq<Event>, stored: seq<Sample>, t0: int, t1: int, end: int, zeroAllowed: bool)
    requires w.Produced(es, stored, LAG) && w.Checked(t0, t1, end)
    ensures match SeriesBounds(stored, t0, t1, w.start, end, LAG, zeroAllowed)
            case Ok(b) => b.Contains(Total(es, InHour(t0, t1))) && 0 <= b.low
            case Err(p) => p == UnboundedTail
    ensures SeriesBounds(stored, t0, t1, w.start, end, LAG, zeroAllowed).Ok?
       <==> Tailed(stored, t0, t1, w.start, end, zeroAllowed)
  {
    var ws := Max(t0 - SHORT, w.start);
    var visible, base := Window(stored, ws, end), BaseOf(stored, w.start, ws);
    WindowStored(es, w.flushes, stored, ws, end);
    SeriesBase(w, es, stored, t0, ws, end);
    if forall x :: x in visible ==> x.stamp < t0 {
      SilentWindow(w, es, stored, t0, t1, ws, end);
    }
    K6BoundsSound(es, w.flushes, visible, base, t0, t1, LAG, zeroAllowed);
    K6BoundsIff(visible, base, t0, t1, LAG, zeroAllowed);
    TailedWindow(stored, t0, t1, w.start, ws, end, zeroAllowed);
  }

  lemma TailedWindow(stored: seq<Sample>, t0: int, t1: int, start: int, ws: int, end: int, zeroAllowed: bool)
    requires ws == Max(t0 - SHORT, start)
    ensures Tailed(stored, t0, t1, start, end, zeroAllowed)
       <==> var visible := Window(stored, ws, end);
            || visible == []
            || (exists x :: x in visible && t1 + LAG <= x.stamp)
            || (zeroAllowed && forall x :: x in visible ==> x.stamp < t0)
  {
    var visible := Window(stored, ws, end);
    assert forall x :: x in visible <==> x in stored && Visible(x, t0, start, end);
    if visible != [] {
      assert visible[0] in visible;
    }
  }

  function Truths(runs: seq<seq<Event>>, t0: int, t1: int): seq<nat> {
    seq(|runs|, i requires 0 <= i < |runs| => Total(runs[i], InHour(t0, t1)))
  }

  /** The whole selector: the sum of the bounds contains the sum of the truths. */
  lemma CounterSound(w: Exporter, runs: seq<seq<Event>>, series: seq<seq<Sample>>, t0: int, t1: int, end: int,
                     zeroAllowed: bool)
    requires |runs| == |series| && w.Checked(t0, t1, end)
    requires forall i :: 0 <= i < |runs| ==> w.Produced(runs[i], series[i], LAG)
    ensures match SumOf(SeriesParts(series, t0, t1, w.start, end, LAG, zeroAllowed))
            case Ok(b) => 0 <= b.low && b.Contains(SumInts(Truths(runs, t0, t1)))
            case Err(p) => p == UnboundedTail
  {
    var parts := SeriesParts(series, t0, t1, w.start, end, LAG, zeroAllowed);
    forall i | 0 <= i < |parts|
      ensures Holds(parts[i], Truths(runs, t0, t1)[i]) && (parts[i].Err? ==> parts[i].error == UnboundedTail)
    {
      SeriesSound(w, runs[i], series[i], t0, t1, end, zeroAllowed);
    }
    SumSound(parts, Truths(runs, t0, t1));
  }

  /** And it has bounds exactly when every series has. */
  lemma CounterIff(w: Exporter, runs: seq<seq<Event>>, series: seq<seq<Sample>>, t0: int, t1: int, end: int,
                   zeroAllowed: bool)
    requires |runs| == |series| && w.Checked(t0, t1, end)
    requires forall i :: 0 <= i < |runs| ==> w.Produced(runs[i], series[i], LAG)
    ensures SumOf(SeriesParts(series, t0, t1, w.start, end, LAG, zeroAllowed)).Ok?
       <==> forall i :: 0 <= i < |series| ==> Tailed(series[i], t0, t1, w.start, end, zeroAllowed)
  {
    var parts := SeriesParts(series, t0, t1, w.start, end, LAG, zeroAllowed);
    forall i | 0 <= i < |parts|
      ensures Holds(parts[i], Truths(runs, t0, t1)[i])
      ensures parts[i].Ok? <==> Tailed(series[i], t0, t1, w.start, end, zeroAllowed)
    {
      SeriesSound(w, runs[i], series[i], t0, t1, end, zeroAllowed);
    }
    SumSound(parts, Truths(runs, t0, t1));
  }
}
