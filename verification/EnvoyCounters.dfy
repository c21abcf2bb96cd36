/**
 The server side of the hourly load gate (deploy/prodcluster/collect_load_evidence.py): bounds on how much one Envoy
 request counter grew in [t0, t1), from the values read at a target's successful scrapes, its pod's start and, for a pod
 that ended, its final snapshot. Times are milliseconds.
 */
module EnvoyCounters {
  import opened Wrappers
  import opened Counting
  import opened Ordering

  const CAPTURE_SECOND := 1000

  datatype Problem =
    | StrayOrDecreasing     // samples off the scrapes, a negative value, or a counter that decreased
    | SnapshotInconsistent
    | StartNotBracketed
    | EndNotBracketed
    | InvalidBounds

  /** A final snapshot: its receipt's second and the counter's last value. */
  datatype Snapshot = Snapshot(capture: int, final: int)

  // ---------- the collector ----------

  /** The value at each scrape: the sample stored there, or 0 when a successful scrape did not expose the series. */
  function ValueAt(samples: map<int, int>, s: int): int {
    if s in samples then samples[s] else 0
  }

  predicate ConsistentValues(samples: map<int, int>, scrapes: seq<int>) {
    && (forall t :: t in samples ==> t in scrapes)
    && (forall s :: s in scrapes ==> 0 <= ValueAt(samples, s))
    && (forall s, u :: s in scrapes && u in scrapes && s < u ==> ValueAt(samples, s) <= ValueAt(samples, u))
  }

  predicate SnapshotAgrees(samples: map<int, int>, scrapes: seq<int>, snap: Snapshot) {
    && (forall s :: s in scrapes && s <= snap.capture ==> ValueAt(samples, s) <= snap.final)
    && (forall s :: s in scrapes && snap.capture < s ==> ValueAt(samples, s) == snap.final)
  }

  function LowBefore(samples: map<int, int>, scrapes: seq<int>, t: int): int {
    var b := LastBefore(scrapes, t);
    if b.Some? then ValueAt(samples, b.value) else 0
  }

  /** Bounds on the count below t0, or None when the hour start has nothing after it. */
  function AtStart(samples: map<int, int>, scrapes: seq<int>, t0: int, podStart: Option<int>, snap: Option<Snapshot>)
    : Option<Bounds>
  {
    var a := FirstAfter(scrapes, t0);
    if podStart.Some? && podStart.value >= t0 then Some(Bounds(0, 0))
    else if snap.Some? && snap.value.capture + CAPTURE_SECOND <= t0
    then Some(Bounds(snap.value.final, snap.value.final))
    else if a.Some? then Some(Bounds(LowBefore(samples, scrapes, t0), ValueAt(samples, a.value)))
    else if snap.Some? then Some(Bounds(LowBefore(samples, scrapes, t0), snap.value.final))
    else None
  }

  /** Bounds on the count below t1, or None when the target ends before it without a snapshot. */
  function AtEnd(samples: map<int, int>, scrapes: seq<int>, t1: int, podStart: Option<int>, snap: Option<Snapshot>)
    : Option<Bounds>
  {
    var a := FirstAfter(scrapes, t1);
    if podStart.Some? && podStart.value >= t1 then Some(Bounds(0, 0))
    else if a.Some? then Some(Bounds(LowBefore(samples, scrapes, t1), ValueAt(samples, a.value)))
    else if snap.Some? then
      if snap.value.capture + CAPTURE_SECOND <= t1 then Some(Bounds(snap.value.final, snap.value.final))
      else Some(Bounds(LowBefore(samples, scrapes, t1), snap.value.final))
    else None
  }

  function TargetSeriesBounds(samples: map<int, int>, scrapes: seq<int>, t0: int, t1: int, podStart: Option<int>,
                              snap: Option<Snapshot>): Result<Bounds, Problem>
  {
    if !ConsistentValues(samples, scrapes) then Err(StrayOrDecreasing)
    else if snap.Some? && !SnapshotAgrees(samples, scrapes, snap.value) then Err(SnapshotInconsistent)
    else
      var v0 := AtStart(samples, scrapes, t0, podStart, snap);
      var v1 := AtEnd(samples, scrapes, t1, podStart, snap);
      if v0.None? then Err(StartNotBracketed)
      else if v1.None? then Err(EndNotBracketed)
      else
        var gain := v1.value.low - v0.value.high;
        var low := if gain < 0 then 0 else gain;
        var high := v1.value.high - v0.value.low;
        if low > high then Err(InvalidBounds) else Ok(Bounds(low, high))
  }

  // ---------- the hidden target ----------

  /** A successful scrape: its millisecond stamp and the instant the counter was really read. */
  datatype Scrape = Scrape(stamp: int, readAt: real)

  /** The capture of a final snapshot: its receipt carries only the second; nothing is counted after it. */
  datatype Capture = Capture(second: int, at: real)

  datatype Target = Target(requests: seq<real>, scrapes: seq<Scrape>, podStart: Option<int>, capture: Option<Capture>) {
    ghost predicate Lawful() {
      && (forall s :: s in scrapes ==> s.stamp as real <= s.readAt < (s.stamp + 1) as real)
      && (forall s, u :: s in scrapes && u in scrapes && s.stamp == u.stamp ==> s == u)
      && (podStart.Some? ==> forall r :: r in requests ==> podStart.value as real <= r)
      && (capture.Some? ==> capture.value.second as real <= capture.value.at
                              < (capture.value.second + CAPTURE_SECOND) as real
                              && forall r :: r in requests ==> r <= capture.value.at)
    }

    function Count(f: real -> nat): nat { Total(requests, f) }

    /** What the store holds: the series at each scrape that counted anything, and the final value at the capture. */
    ghost predicate Produced(samples: map<int, int>, stamps: seq<int>, snap: Option<Snapshot>) {
      && (forall t :: t in stamps <==> exists s :: s in scrapes && s.stamp == t)
      && (forall t :: t in samples ==> t in stamps)
      && (forall s :: s in scrapes ==> ValueAt(samples, s.stamp) == Count(Until(s.readAt)))
      && (capture.None? ==> snap.None?)
      && (capture.Some? ==> snap == Some(Snapshot(capture.value.second, Count(Always()))))
    }
  }

  function Until(x: real): real -> nat { (r: real) => if r <= x then 1 else 0 }
  function Before(t: int): real -> nat { (r: real) => if r < t as real then 1 else 0 }
  function InHour(t0: int, t1: int): real -> nat { (r: real) => if t0 as real <= r < t1 as real then 1 else 0 }
  function Always(): real -> nat { (r: real) => 1 }

  /** A scrape stamped inside the capture second, read before a request that the capture still counted. */
  predicate ReadsEarlyInCaptureSecond(samples: map<int, int>, scrapes: seq<int>, snap: Snapshot) {
    exists s :: s in scrapes && snap.capture < s < snap.capture + CAPTURE_SECOND && ValueAt(samples, s) != snap.final
  }

  // ---------- soundness ----------

  lemma ScrapeBounds(h: Target, s: Scrape, t: int)
    requires h.Lawful() && s in h.scrapes
    ensures s.stamp < t ==> h.Count(Until(s.readAt)) <= h.Count(Before(t))
    ensures t <= s.stamp ==> h.Count(Before(t)) <= h.Count(Until(s.readAt))
  {
    if s.stamp < t {
      assert (s.stamp + 1) as real <= t as real;
      TotalMonotone(h.requests, Until(s.readAt), Before(t));
    } else {
      TotalMonotone(h.requests, Before(t), Until(s.readAt));
    }
  }

  /** Each edge's interval holds the count below that edge. */
  lemma EdgeSound(h: Target, samples: map<int, int>, scrapes: seq<int>, snap: Option<Snapshot>, t: int)
    requires h.Lawful() && h.Produced(samples, scrapes, snap)
    ensures LowBefore(samples, scrapes, t) <= h.Count(Before(t))
    ensures FirstAfter(scrapes, t).Some? ==> h.Count(Before(t)) <= ValueAt(samples, FirstAfter(scrapes, t).value)
    ensures snap.Some? ==> h.Count(Before(t)) <= snap.value.final
    ensures snap.Some? && snap.value.capture + CAPTURE_SECOND <= t ==> h.Count(Before(t)) == snap.value.final
    ensures h.podStart.Some? && t <= h.podStart.value ==> h.Count(Before(t)) == 0
  {
    var b, a := LastBefore(scrapes, t), FirstAfter(scrapes, t);
    if b.Some? {
      var s :| s in h.scrapes && s.stamp == b.value;
      ScrapeBounds(h, s, t);
    }
    if a.Some? {
      var s :| s in h.scrapes && s.stamp == a.value;
      ScrapeBounds(h, s, t);
    }
    TotalMonotone(h.requests, Before(t), Always());
    if snap.Some? && snap.value.capture + CAPTURE_SECOND <= t {
      TotalMonotone(h.requests, Always(), Before(t));
    }
    if h.podStart.Some? && t <= h.podStart.value {
      NothingBefore(h.requests, t);
    }
  }

  lemma {:induction false} NothingBefore(requests: seq<real>, t: int)
    requires forall r :: r in requests ==> t as real <= r
    ensures Total(requests, Before(t)) == 0
  {
    if requests != [] {
      assert requests[0] in requests && forall r :: r in requests[1..] ==> r in requests;
      NothingBefore(requests[1..], t);
    }
  }

  /** A lawful target's values are never stray and never decrease. */
  lemma ValuesConsistent(h: Target, samples: map<int, int>, scrapes: seq<int>, snap: Option<Snapshot>)
    requires h.Lawful() && h.Produced(samples, scrapes, snap)
    ensures ConsistentValues(samples, scrapes)
  {
    forall s, u | s in scrapes && u in scrapes && s < u
      ensures ValueAt(samples, s) <= ValueAt(samples, u)
    {
      var a :| a in h.scrapes && a.stamp == s;
      var b :| b in h.scrapes && b.stamp == u;
      ScrapeBounds(h, a, u);
      ScrapeBounds(h, b, u);
    }
    forall s | s in scrapes
      ensures 0 <= ValueAt(samples, s)
    {
      var a :| a in h.scrapes && a.stamp == s;
    }
  }

  /** The snapshot check fails on a lawful target only for a scrape inside the capture second that was read early. */
  lemma SnapshotAgreesIff(h: Target, samples: map<int, int>, scrapes: seq<int>, snap: Snapshot)
    requires h.Lawful() && h.Produced(samples, scrapes, Some(snap))
    ensures SnapshotAgrees(samples, scrapes, snap) <==> !ReadsEarlyInCaptureSecond(samples, scrapes, snap)
  {
    forall s | s in scrapes
      ensures ValueAt(samples, s) <= snap.final
      ensures snap.capture + CAPTURE_SECOND <= s ==> ValueAt(samples, s) == snap.final
    {
      var a :| a in h.scrapes && a.stamp == s;
      TotalMonotone(h.requests, Until(a.readAt), Always());
      if snap.capture + CAPTURE_SECOND <= s {
        assert (snap.capture + CAPTURE_SECOND) as real <= s as real;
        TotalMonotone(h.requests, Always(), Until(a.readAt));
      }
    }
  }

  /** Both edges' intervals hold the counts below the edges, and are missing only without anything after the edge. */
  lemma EdgesHold(h: Target, samples: map<int, int>, scrapes: seq<int>, snap: Option<Snapshot>, t0: int, t1: int)
    requires h.Lawful() && h.Produced(samples, scrapes, snap)
    ensures var v0 := AtStart(samples, scrapes, t0, h.podStart, snap);
            && (v0.Some? <==> Followed(scrapes, h.podStart, snap, t0))
            && (v0.Some? ==> v0.value.Contains(h.Count(Before(t0))))
    ensures var v1 := AtEnd(samples, scrapes, t1, h.podStart, snap);
            && (v1.Some? <==> Followed(scrapes, h.podStart, snap, t1))
            && (v1.Some? ==> v1.value.Contains(h.Count(Before(t1))))
  {
    EdgeSound(h, samples, scrapes, snap, t0);
    EdgeSound(h, samples, scrapes, snap, t1);
  }

  /** An edge is followed by a scrape, by the pod's start or by a final snapshot. */
  predicate Followed(scrapes: seq<int>, podStart: Option<int>, snap: Option<Snapshot>, t: int) {
    snap.Some? || (podStart.Some? && t <= podStart.value) || exists s :: s in scrapes && t <= s
  }

  /**
   For every lawful target: the bounds contain the true increment, and the series is rejected exactly when an hour edge
   has nothing after it or a scrape inside the capture second was read before the last counted request.
   */
  lemma TargetSound(h: Target, samples: map<int, int>, scrapes: seq<int>, snap: Option<Snapshot>, t0: int, t1: int)
    requires t0 <= t1 && h.Lawful() && h.Produced(samples, scrapes, snap)
    ensures Holds(TargetSeriesBounds(samples, scrapes, t0, t1, h.podStart, snap), h.Count(InHour(t0, t1)))
    ensures TargetSeriesBounds(samples, scrapes, t0, t1, h.podStart, snap).Ok?
       <==> && (snap.Some? ==> !ReadsEarlyInCaptureSecond(samples, scrapes, snap.value))
            && Followed(scrapes, h.podStart, snap, t0)
            && Followed(scrapes, h.podStart, snap, t1)
  {
    ValuesConsistent(h, samples, scrapes, snap);
    if snap.Some? {
      SnapshotAgreesIff(h, samples, scrapes, snap.value);
    }
    EdgesHold(h, samples, scrapes, snap, t0, t1);
    TotalSplit(h.requests, Before(t0), InHour(t0, t1), Before(t1));
  }

  /** The documented capture-second rule does not protect a scrape read inside that second: a lawful pod, captured at
      5.9 s with a request at 5.5 s, is refused because of its scrape at 5.3 s. */
  lemma CaptureSecondRejectsLawfulTarget()
    ensures var h := Target([5500.0], [Scrape(5300, 5300.0)], None, Some(Capture(5000, 5900.0)));
            && h.Lawful()
            && h.Produced(map[], [5300], Some(Snapshot(5000, 1)))
            && TargetSeriesBounds(map[], [5300], 0, 3_600_000, None,
                Some(Snapshot(5000, 1))) == Err(SnapshotInconsistent)
  {
    var h := Target([5500.0], [Scrape(5300, 5300.0)], None, Some(Capture(5000, 5900.0)));
    assert h.scrapes[0] in h.scrapes;
    assert h.requests[1..] == [];
    assert 5300 in [5300] && ValueAt(map[], 5300) == 0;
  }
}
