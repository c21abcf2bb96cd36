/**
 The Envoy bounds are as narrow as the evidence allows (deploy/prodcluster/collect_load_evidence.py:160-209). From any
 lawful target others are made that leave the same evidence, by moving requests across an edge of the hour as far as the
 neighbouring scrapes permit. So the upper bound is always some target's count, and the lower bound is, except where the
 code reads the scrape after the hour although the final snapshot had settled the count.
 */
module EnvoyTightness {
  import opened Wrappers
  import opened Counting
  import opened Ordering
  import opened EnvoyCounters

  // ---------- moving requests ----------

  function Mapped(rs: seq<real>, f: real -> real): (r: seq<real>)
    ensures |r| == |rs| && forall i :: 0 <= i < |rs| ==> r[i] == f(rs[i])
  {
    seq(|rs|, i requires 0 <= i < |rs| => f(rs[i]))
  }

  lemma {:induction false} TotalMapped(rs: seq<real>, f: real -> real, g: real -> nat, k: real -> nat)
    requires forall r :: r in rs ==> g(f(r)) == k(r)
    ensures Total(Mapped(rs, f), g) == Total(rs, k)
  {
    if rs == [] {
      assert Mapped(rs, f) == [];
    } else {
      assert rs[0] in rs;
      TotalMapped(rs[1..], f, g, k);
      var ms := Mapped(rs, f);
      assert ms[0] == f(rs[0]) && ms[1..] == Mapped(rs[1..], f);
      var r := rs[0];
      assert r in rs && g(f(r)) == k(r);
      assert Total(ms, g) == g(ms[0]) + Total(ms[1..], g);
    }
  }

  /** The same evidence could come from this target. */
  ghost predicate Leaves(h: Target, podStart: Option<int>, samples: map<int, int>, stamps: seq<int>,
                         snap: Option<Snapshot>)
  {
    h.Lawful() && h.Produced(samples, stamps, snap) && h.podStart == podStart
  }

  /** Moving requests crosses no read of a scrape, no pod start and no capture. */
  ghost predicate Harmless(h: Target, f: real -> real, capture: Option<Capture>) {
    && (forall r, s :: r in h.requests && s in h.scrapes ==> (f(r) <= s.readAt <==> r <= s.readAt))
    && (h.podStart.Some? ==> forall r :: r in h.requests ==> h.podStart.value as real <= f(r))
    && (capture.None? <==> h.capture.None?)
    && (capture.Some? ==>
          && capture.value.second == h.capture.value.second
          && capture.value.second as real <= capture.value.at < (capture.value.second + CAPTURE_SECOND) as real
          && forall r :: r in h.requests ==> f(r) <= capture.value.at)
  }

  function Moved(h: Target, f: real -> real, capture: Option<Capture>): Target {
    h.(requests := Mapped(h.requests, f), capture := capture)
  }

  lemma MovedLeaves(h: Target, f: real -> real, capture: Option<Capture>, podStart: Option<int>,
                    samples: map<int, int>, stamps: seq<int>, snap: Option<Snapshot>)
    requires Leaves(h, podStart, samples, stamps, snap) && Harmless(h, f, capture)
    ensures Leaves(Moved(h, f, capture), podStart, samples, stamps, snap)
  {
    var g := Moved(h, f, capture);
    forall r | r in g.requests ensures exists q :: q in h.requests && f(q) == r {
      var i :| 0 <= i < |g.requests| && g.requests[i] == r;
      var q := h.requests[i];
      assert q in h.requests && f(q) == r;
    }
    forall s | s in g.scrapes ensures ValueAt(samples, s.stamp) == g.Count(Until(s.readAt)) {
      TotalMapped(h.requests, f, Until(s.readAt), Until(s.readAt));
    }
    TotalMapped(h.requests, f, Always(), Always());
  }

  // ---------- the two moves at an edge ----------

  lemma ScrapesOrdered(h: Target, s: Scrape, u: Scrape)
    requires h.Lawful() && s in h.scrapes && u in h.scrapes && s.stamp < u.stamp
    ensures s.readAt < u.stamp as real <= u.readAt
  {
    assert (s.stamp + 1) as real <= u.stamp as real;
  }

  /** Requests that happened before t, and after the last scrape before it, happen at t instead. */
  function Later(t: real, after: Option<real>): real -> real {
    (r: real) => if r < t && (after.None? || after.value < r) then t else r
  }

  /** Requests from t on, up to the first scrape from t on, happen at `m` instead. */
  function Sooner(t: real, upTo: Option<real>, m: real): real -> real {
    (r: real) => if t <= r && (upTo.None? || r <= upTo.value) then m else r
  }

  /** When the last scrape before t was read. */
  lemma ReadBefore(h: Target, samples: map<int, int>, stamps: seq<int>, snap: Option<Snapshot>, t: int)
      returns (after: Option<real>)
    requires h.Lawful() && h.Produced(samples, stamps, snap)
    ensures after.Some? <==> LastBefore(stamps, t).Some?
    ensures after.Some? ==> LastBefore(stamps, t).value as real <= after.value < t as real
                            && h.Count(Until(after.value)) == ValueAt(samples, LastBefore(stamps, t).value)
    ensures forall s :: s in h.scrapes && s.stamp < t ==> after.Some? && s.readAt <= after.value
  {
    after := None;
    var b := LastBefore(stamps, t);
    if b.Some? {
      var u :| u in h.scrapes && u.stamp == b.value;
      after := Some(u.readAt);
      assert (u.stamp + 1) as real <= t as real;
      forall s | s in h.scrapes && s.stamp < t ensures s.readAt <= u.readAt {
        assert s.stamp in stamps;
        if s.stamp < u.stamp {
          ScrapesOrdered(h, s, u);
        }
      }
    } else {
      forall s | s in h.scrapes ensures t <= s.stamp {
        assert s.stamp in stamps;
      }
    }
  }

  /** When the first scrape from t on was read. */
  lemma ReadAfter(h: Target, samples: map<int, int>, stamps: seq<int>, snap: Option<Snapshot>, t: int)
      returns (upTo: Option<real>)
    requires h.Lawful() && h.Produced(samples, stamps, snap)
    ensures upTo.Some? <==> FirstAfter(stamps, t).Some?
    ensures upTo.Some? ==> t as real <= upTo.value
                           && h.Count(Until(upTo.value)) == ValueAt(samples, FirstAfter(stamps, t).value)
    ensures forall s :: s in h.scrapes && t <= s.stamp ==> upTo.Some? && upTo.value <= s.readAt
  {
    upTo := None;
    var a := FirstAfter(stamps, t);
    if a.Some? {
      var u :| u in h.scrapes && u.stamp == a.value;
      upTo := Some(u.readAt);
      forall s | s in h.scrapes && t <= s.stamp ensures u.readAt <= s.readAt {
        assert s.stamp in stamps;
        if u.stamp < s.stamp {
          ScrapesOrdered(h, u, s);
        }
      }
    } else {
      forall s | s in h.scrapes ensures s.stamp < t {
        assert s.stamp in stamps;
      }
    }
  }

  /** The capture second is not over at t. */
  predicate Open(snap: Option<Snapshot>, t: int) { snap.None? || t < snap.value.capture + 1000 }

  /** What a move to t has to respect. */
  lemma LaterHarmless(h: Target, t: int, after: Option<real>, capture: Option<Capture>)
    requires h.Lawful() && (after.Some? ==> after.value < t as real)
    requires forall s :: s in h.scrapes && s.stamp < t ==> after.Some? && s.readAt <= after.value
    requires h.capture.Some? ==> t < h.capture.value.second + CAPTURE_SECOND
    requires capture == if h.capture.Some? && h.capture.value.at < t as real
                        then Some(Capture(h.capture.value.second, t as real)) else h.capture
    ensures Harmless(h, Later(t as real, after), capture)
  {
    var f := Later(t as real, after);
    forall r, s | r in h.requests && s in h.scrapes ensures f(r) <= s.readAt <==> r <= s.readAt {
      assert s.stamp as real <= s.readAt;
    }
  }

  /** As few requests before t as the scrapes allow; nothing changes at later instants, nor up to the last scrape. */
  lemma Push(h: Target, podStart: Option<int>, samples: map<int, int>, stamps: seq<int>, snap: Option<Snapshot>, t: int)
      returns (g: Target)
    requires Leaves(h, podStart, samples, stamps, snap) && Open(snap, t)
    ensures Leaves(g, podStart, samples, stamps, snap)
    ensures g.Count(Before(t)) == LowBefore(samples, stamps, t)
    ensures forall u :: t < u || (LastBefore(stamps, t).Some? && u <= LastBefore(stamps, t).value) ==>
                          g.Count(Before(u)) == h.Count(Before(u))
  {
    var after := ReadBefore(h, samples, stamps, snap, t);
    var f := Later(t as real, after);
    var capture := if h.capture.Some? && h.capture.value.at < t as real
                   then Some(Capture(h.capture.value.second, t as real)) else h.capture;
    LaterHarmless(h, t, after, capture);
    g := Moved(h, f, capture);
    MovedLeaves(h, f, capture, podStart, samples, stamps, snap);
    LaterCounts(h.requests, t, after);
  }

  lemma LaterCounts(rs: seq<real>, t: int, after: Option<real>)
    requires after.Some? ==> after.value < t as real
    ensures Total(Mapped(rs, Later(t as real, after)), Before(t))
         == if after.Some? then Total(rs, Until(after.value)) else 0
    ensures forall u :: t < u || (after.Some? && u as real <= after.value) ==>
                          Total(Mapped(rs, Later(t as real, after)), Before(u)) == Total(rs, Before(u))
  {
    var f := Later(t as real, after);
    if after.Some? {
      TotalMapped(rs, f, Before(t), Until(after.value));
    } else {
      TotalMapped(rs, f, Before(t), Never());
      TotalNever(rs);
    }
    forall u | t < u || (after.Some? && u as real <= after.value)
      ensures Total(Mapped(rs, f), Before(u)) == Total(rs, Before(u))
    {
      TotalMapped(rs, f, Before(u), Before(u));
    }
  }

  function Never(): real -> nat { (r: real) => 0 }

  lemma {:induction false} TotalNever(rs: seq<real>)
    ensures Total(rs, Never()) == 0
  {
    if rs != [] {
      TotalNever(rs[1..]);
    }
  }

  function Largest(a: real, b: real): real { if a < b then b else a }

  /** What a move to an instant m before t has to respect. */
  lemma SoonerHarmless(h: Target, t: int, after: Option<real>, upTo: Option<real>, m: real)
    requires h.Lawful() && m < t as real && (after.Some? ==> after.value < m)
    requires h.podStart.Some? ==> h.podStart.value as real <= m
    requires forall s :: s in h.scrapes && s.stamp < t ==> after.Some? && s.readAt <= after.value
    requires forall s :: s in h.scrapes && t <= s.stamp ==> upTo.Some? && upTo.value <= s.readAt
    ensures Harmless(h, Sooner(t as real, upTo, m), h.capture)
  {
    var f := Sooner(t as real, upTo, m);
    forall r, s | r in h.requests && s in h.scrapes ensures f(r) <= s.readAt <==> r <= s.readAt {
      assert s.stamp as real <= s.readAt;
    }
  }

  lemma SoonerCounts(rs: seq<real>, t: int, upTo: Option<real>, m: real, from: int)
    requires from as real <= m < t as real && (upTo.Some? ==> t as real <= upTo.value)
    ensures Total(Mapped(rs, Sooner(t as real, upTo, m)), Before(t))
         == if upTo.Some? then Total(rs, Until(upTo.value)) else Total(rs, Always())
    ensures forall u :: u <= from ==> Total(Mapped(rs, Sooner(t as real, upTo, m)), Before(u)) == Total(rs, Before(u))
  {
    var f := Sooner(t as real, upTo, m);
    if upTo.Some? {
      TotalMapped(rs, f, Before(t), Until(upTo.value));
    } else {
      TotalMapped(rs, f, Before(t), Always());
    }
    forall u | u <= from ensures Total(Mapped(rs, f), Before(u)) == Total(rs, Before(u)) {
      TotalMapped(rs, f, Before(u), Before(u));
    }
  }

  /** Some instant before t, after the last scrape, the pod's start and `from`. */
  function Instant(t: int, from: int, podStart: Option<int>, after: Option<real>): real {
    var m := Largest(from as real, if podStart.Some? then podStart.value as real else from as real);
    if after.Some? then Largest(m, (after.value + t as real) / 2.0) else m
  }

  /** As many requests before t as the scrapes allow; nothing changes up to `from`. */
  lemma Pull(h: Target, podStart: Option<int>, samples: map<int, int>, stamps: seq<int>, snap: Option<Snapshot>, t: int,
             from: int)
      returns (g: Target)
    requires Leaves(h, podStart, samples, stamps, snap) && from < t && (podStart.Some? ==> podStart.value < t)
    ensures Leaves(g, podStart, samples, stamps, snap)
    ensures g.Count(Before(t)) == if FirstAfter(stamps, t).Some? then ValueAt(samples, FirstAfter(stamps, t).value)
                                  else h.Count(Always())
    ensures forall u :: u <= from ==> g.Count(Before(u)) == h.Count(Before(u))
    ensures |g.requests| == |h.requests|
  {
    var after := ReadBefore(h, samples, stamps, snap, t);
    var upTo := ReadAfter(h, samples, stamps, snap, t);
    var m := Instant(t, from, podStart, after);
    SoonerHarmless(h, t, after, upTo, m);
    var f := Sooner(t as real, upTo, m);
    g := Moved(h, f, h.capture);
    MovedLeaves(h, f, h.capture, podStart, samples, stamps, snap);
    SoonerCounts(h.requests, t, upTo, m, from);
  }

  // ---------- the bounds ----------

  /** Some lawful target leaves this evidence and counts so many requests in the hour. */
  ghost predicate CountPossible(podStart: Option<int>, samples: map<int, int>, stamps: seq<int>, snap: Option<Snapshot>,
                                t0: int, t1: int, count: int)
  {
    exists g :: Leaves(g, podStart, samples, stamps, snap) && g.Count(InHour(t0, t1)) == count
  }

  lemma HourCount(h: Target, t0: int, t1: int)
    requires t0 <= t1
    ensures h.Count(InHour(t0, t1)) == h.Count(Before(t1)) - h.Count(Before(t0))
  {
    TotalSplit(h.requests, Before(t0), InHour(t0, t1), Before(t1));
  }

  predicate StartsFrom(podStart: Option<int>, t: int) { podStart.Some? && t <= podStart.value }

  /** Everything but the requests themselves. */
  datatype Evidence =
    Evidence(podStart: Option<int>, samples: map<int, int>, stamps: seq<int>, snap: Option<Snapshot>)
  {
    ghost predicate From(h: Target) { Leaves(h, podStart, samples, stamps, snap) }
    function Low(t: int): int { LowBefore(samples, stamps, t) }
    function At(s: int): int { ValueAt(samples, s) }
    function Bounds(t0: int, t1: int): Result<Bounds, Problem> {
      TargetSeriesBounds(samples, stamps, t0, t1, podStart, snap)
    }
  }

  /** What holds below an edge, whatever target left the evidence. */
  lemma EdgeFacts(v: Evidence, h: Target, t: int)
    requires v.From(h) && (v.snap.Some? ==> SnapshotAgrees(v.samples, v.stamps, v.snap.value))
    ensures v.Low(t) <= h.Count(Before(t)) <= h.Count(Always())
    ensures var a := FirstAfter(v.stamps, t); a.Some? ==> h.Count(Before(t)) <= v.At(a.value)
    ensures v.snap.Some? ==> h.Count(Always()) == v.snap.value.final
    ensures StartsFrom(v.podStart, t) ==> h.Count(Before(t)) == 0
    ensures !Open(v.snap, t) ==> h.Count(Before(t)) == v.snap.value.final
    ensures !Open(v.snap, t) && FirstAfter(v.stamps, t).Some? ==>
              v.At(FirstAfter(v.stamps, t).value) == v.snap.value.final
  {
    EdgeSound(h, v.samples, v.stamps, v.snap, t);
    TotalMonotone(h.requests, Before(t), Always());
  }

  /** Few requests before the hour, and many before its end. */
  lemma Spread(v: Evidence, h: Target, t0: int, t1: int) returns (g: Target)
    requires t0 < t1 && v.From(h) && (v.snap.Some? ==> SnapshotAgrees(v.samples, v.stamps, v.snap.value))
    requires !StartsFrom(v.podStart, t1) && Open(v.snap, t0)
    ensures v.From(g) && g.Count(Before(t0)) == if StartsFrom(v.podStart, t0) then 0 else v.Low(t0)
    ensures var a := FirstAfter(v.stamps, t1);
            g.Count(Before(t1)) == if a.Some? then v.At(a.value) else g.Count(Always())
  {
    var pushed := h;
    if !StartsFrom(v.podStart, t0) {
      pushed := Push(h, v.podStart, v.samples, v.stamps, v.snap, t0);
    }
    EdgeFacts(v, pushed, t0);
    g := Pull(pushed, v.podStart, v.samples, v.stamps, v.snap, t1, t0);
    assert g.Count(Before(t0)) == pushed.Count(Before(t0));
    EdgeFacts(v, g, t1);
    if FirstAfter(v.stamps, t1).None? {
      SameTotal(pushed, g, t1);
    }
  }

  /** The two counts have nothing between them. */
  lemma SameTotal(p: Target, g: Target, t: int)
    requires g.Count(Before(t)) == p.Count(Always()) && |g.requests| == |p.requests|
    ensures g.Count(Before(t)) == g.Count(Always())
  {
    TotalAlways(p.requests);
    TotalAlways(g.requests);
  }

  lemma {:induction false} TotalAlways(rs: seq<real>)
    ensures Total(rs, Always()) == |rs|
  {
    if rs != [] {
      TotalAlways(rs[1..]);
    }
  }

  /** The target with the most requests in the hour. */
  lemma MostRequests(v: Evidence, h: Target, t0: int, t1: int, b: Bounds) returns (g: Target)
    requires t0 < t1 && v.From(h) && v.Bounds(t0, t1) == Ok(b)
    ensures v.From(g) && g.Count(InHour(t0, t1)) == b.high
  {
    if !StartsFrom(v.podStart, t1) && Open(v.snap, t0) {
      g := Spread(v, h, t0, t1);
    } else {
      g := h;
    }
    EdgeFacts(v, g, t0);
    EdgeFacts(v, g, t1);
    HourCount(g, t0, t1);
  }

  /** A scrape inside the hour. */
  predicate ScrapedIn(stamps: seq<int>, t0: int, t1: int) {
    FirstAfter(stamps, t0).Some? && FirstAfter(stamps, t0).value < t1
  }

  lemma LastInHour(stamps: seq<int>, t0: int, t1: int)
    requires ScrapedIn(stamps, t0, t1)
    ensures LastBefore(stamps, t1).Some? && t0 <= FirstAfter(stamps, t0).value <= LastBefore(stamps, t1).value
  {
  }

  /** No scrape inside the hour: both edges have the same next scrape, or none. */
  lemma SameNext(stamps: seq<int>, t0: int, t1: int)
    requires t0 < t1 && !ScrapedIn(stamps, t0, t1)
    ensures FirstAfter(stamps, t1) == FirstAfter(stamps, t0)
  {
    var a, c := FirstAfter(stamps, t0), FirstAfter(stamps, t1);
    if a.Some? {
      assert a.value in stamps;
    }
    if c.Some? {
      assert c.value in stamps;
    }
  }

  /**
   The one case in which the code leaves its lower bound too low: the capture second is over before the hour ends, a
   scrape follows the hour all the same, the last scrape before the hour's end had not seen everything, and what had
   been counted at the hour's start is not everything either.
   */
  ghost predicate SettledUnseen(v: Evidence, t0: int, t1: int) {
    && v.snap.Some? && v.snap.value.capture + 1000 <= t1 && (exists s :: s in v.stamps && t1 <= s)
    && v.Low(t1) < v.snap.value.final
    && (StartsFrom(v.podStart, t0) || exists s :: s in v.stamps && t0 <= s && v.At(s) < v.snap.value.final)
  }

  /** The target with the fewest requests in the hour. */
  lemma FewestRequests(v: Evidence, h: Target, t0: int, t1: int, b: Bounds) returns (g: Target)
    requires t0 < t1 && v.From(h) && v.Bounds(t0, t1) == Ok(b) && !SettledUnseen(v, t0, t1)
    ensures v.From(g) && g.Count(InHour(t0, t1)) == b.low
  {
    EdgeFacts(v, h, t0);
    EdgeFacts(v, h, t1);
    if StartsFrom(v.podStart, t1) || !Open(v.snap, t0) {
      g := h;
      HourCount(g, t0, t1);
    } else if StartsFrom(v.podStart, t0) {
      g := FewestAfterStart(v, h, t0, t1, b);
    } else if ScrapedIn(v.stamps, t0, t1) {
      g := FewestBetween(v, h, t0, t1, b);
    } else {
      g := FewestUnscraped(v, h, t0, t1, b);
    }
  }

  /** The pod starts in the hour. */
  lemma FewestAfterStart(v: Evidence, h: Target, t0: int, t1: int, b: Bounds) returns (g: Target)
    requires t0 < t1 && v.From(h) && v.Bounds(t0, t1) == Ok(b) && !SettledUnseen(v, t0, t1)
    requires StartsFrom(v.podStart, t0) && !StartsFrom(v.podStart, t1)
    ensures v.From(g) && g.Count(InHour(t0, t1)) == b.low
  {
    g := h;
    EdgeFacts(v, h, t1);
    if Open(v.snap, t1) {
      g := Push(h, v.podStart, v.samples, v.stamps, v.snap, t1);
      EdgeFacts(v, g, t1);
    }
    EdgeFacts(v, g, t0);
    HourCount(g, t0, t1);
  }

  /** No scrape in the hour: everything may have happened before it. */
  lemma FewestUnscraped(v: Evidence, h: Target, t0: int, t1: int, b: Bounds) returns (g: Target)
    requires t0 < t1 && v.From(h) && v.Bounds(t0, t1) == Ok(b)
    requires !StartsFrom(v.podStart, t0) && Open(v.snap, t0) && !ScrapedIn(v.stamps, t0, t1)
    ensures v.From(g) && g.Count(InHour(t0, t1)) == b.low
  {
    LowerUnscraped(v, t0, t1, b);
    g := PulledUnscraped(v, h, t0, t1);
    HourCount(g, t0, t1);
  }

  lemma PulledUnscraped(v: Evidence, h: Target, t0: int, t1: int) returns (g: Target)
    requires t0 < t1 && v.From(h) && (v.snap.Some? ==> SnapshotAgrees(v.samples, v.stamps, v.snap.value))
    requires !StartsFrom(v.podStart, t0) && !ScrapedIn(v.stamps, t0, t1)
    ensures v.From(g) && g.Count(Before(t0)) == g.Count(Before(t1))
  {
    g := Pull(h, v.podStart, v.samples, v.stamps, v.snap, t0, t0 - 1);
    SameNext(v.stamps, t0, t1);
    EdgeFacts(v, g, t1);
    TotalMonotone(g.requests, Before(t0), Before(t1));
    if FirstAfter(v.stamps, t0).None? {
      SameTotal(h, g, t0);
    }
  }

  lemma LowerUnscraped(v: Evidence, t0: int, t1: int, b: Bounds)
    requires t0 < t1 && v.Bounds(t0, t1) == Ok(b)
    requires !StartsFrom(v.podStart, t0) && Open(v.snap, t0) && !ScrapedIn(v.stamps, t0, t1)
    ensures b.low == 0
  {
    SameNext(v.stamps, t0, t1);
    var last := LastBefore(v.stamps, t1);
    if last.Some? {
      assert last.value in v.stamps;
    }
    var next := FirstAfter(v.stamps, t1);
    if next.Some? {
      assert next.value in v.stamps;
    }
  }

  /** Many requests before the hour, and few before its end. */
  lemma Squeeze(v: Evidence, h: Target, t0: int, t1: int) returns (g: Target)
    requires t0 < t1 && v.From(h) && (v.snap.Some? ==> SnapshotAgrees(v.samples, v.stamps, v.snap.value))
    requires !StartsFrom(v.podStart, t0) && Open(v.snap, t0) && ScrapedIn(v.stamps, t0, t1)
    ensures v.From(g) && g.Count(Before(t0)) == v.At(FirstAfter(v.stamps, t0).value)
    ensures g.Count(Before(t1)) == if Open(v.snap, t1) then v.Low(t1) else v.snap.value.final
  {
    LastInHour(v.stamps, t0, t1);
    g := Pull(h, v.podStart, v.samples, v.stamps, v.snap, t0, t0 - 1);
    if Open(v.snap, t1) {
      var pulled := g;
      g := Push(pulled, v.podStart, v.samples, v.stamps, v.snap, t1);
      assert g.Count(Before(t0)) == pulled.Count(Before(t0));
    } else {
      EdgeFacts(v, g, t1);
    }
  }

  /** Only what two scrapes in the hour differ by need have happened in it. */
  lemma FewestBetween(v: Evidence, h: Target, t0: int, t1: int, b: Bounds) returns (g: Target)
    requires t0 < t1 && v.From(h) && v.Bounds(t0, t1) == Ok(b) && !SettledUnseen(v, t0, t1)
    requires !StartsFrom(v.podStart, t0) && Open(v.snap, t0) && ScrapedIn(v.stamps, t0, t1)
    ensures v.From(g) && g.Count(InHour(t0, t1)) == b.low
  {
    g := Squeeze(v, h, t0, t1);
    LowerBetween(v, t0, t1, b);
    HourCount(g, t0, t1);
  }

  lemma LowerBetween(v: Evidence, t0: int, t1: int, b: Bounds)
    requires t0 < t1 && v.Bounds(t0, t1) == Ok(b) && !SettledUnseen(v, t0, t1)
    requires !StartsFrom(v.podStart, t0) && Open(v.snap, t0) && ScrapedIn(v.stamps, t0, t1)
    ensures b.low == (if Open(v.snap, t1) then v.Low(t1) else v.snap.value.final) - v.At(FirstAfter(v.stamps, t0).value)
  {
    LastInHour(v.stamps, t0, t1);
    var a, last := FirstAfter(v.stamps, t0).value, LastBefore(v.stamps, t1).value;
    assert a in v.stamps && last in v.stamps;
    assert v.At(a) <= v.At(last) == v.Low(t1);
  }

  /** In that case every target counts more than the lower bound. */
  lemma SettledMeansMore(v: Evidence, g: Target, t0: int, t1: int, b: Bounds)
    requires t0 < t1 && v.From(g) && v.Bounds(t0, t1) == Ok(b) && SettledUnseen(v, t0, t1)
    ensures b.low < g.Count(InHour(t0, t1))
  {
    EdgeFacts(v, g, t0);
    EdgeFacts(v, g, t1);
    HourCount(g, t0, t1);
  }

  /**
   How narrow the bounds are, for every lawful target's evidence. The upper bound is always the count of some lawful
   target with this very evidence. The lower bound is one exactly unless the final snapshot had settled the count
   before the hour's end and a later scrape hides it.
   */
  lemma TargetTightIff(h: Target, samples: map<int, int>, stamps: seq<int>, snap: Option<Snapshot>, t0: int, t1: int,
                       b: Bounds)
    requires t0 < t1 && h.Lawful() && h.Produced(samples, stamps, snap)
    requires TargetSeriesBounds(samples, stamps, t0, t1, h.podStart, snap) == Ok(b)
    ensures CountPossible(h.podStart, samples, stamps, snap, t0, t1, b.high)
    ensures CountPossible(h.podStart, samples, stamps, snap, t0, t1, b.low)
       <==> !SettledUnseen(Evidence(h.podStart, samples, stamps, snap), t0, t1)
  {
    var v := Evidence(h.podStart, samples, stamps, snap);
    var most := MostRequests(v, h, t0, t1, b);
    if SettledUnseen(v, t0, t1) {
      forall g | Leaves(g, h.podStart, samples, stamps, snap) ensures g.Count(InHour(t0, t1)) != b.low {
        SettledMeansMore(v, g, t0, t1, b);
      }
    } else {
      var fewest := FewestRequests(v, h, t0, t1, b);
    }
  }

  const HIDDEN := Target([1000.0, 2000.0], [Scrape(1500, 1500.0), Scrape(3_600_500, 3_600_500.0)], None,
                         Some(Capture(2000, 2900.0)))
  const HIDDEN_SAMPLES := map[1500 := 1, 3_600_500 := 2]
  const HIDDEN_STAMPS := [1500, 3_600_500]

  lemma HiddenCounts(f: real -> nat)
    ensures HIDDEN.Count(f) == f(1000.0) + f(2000.0)
  {
    var rs := HIDDEN.requests;
    assert rs[1..] == [2000.0] && rs[1..][1..] == [];
    assert Total(rs[1..][1..], f) == 0 && Total(rs[1..], f) == f(2000.0);
  }

  lemma HiddenLawful()
    ensures HIDDEN.Lawful()
  {
    var a, b := HIDDEN.scrapes[0], HIDDEN.scrapes[1];
    assert forall s :: s in HIDDEN.scrapes ==> s == a || s == b;
    assert forall r :: r in HIDDEN.requests ==> r == 1000.0 || r == 2000.0;
  }

  lemma HiddenLeaves()
    ensures Leaves(HIDDEN, None, HIDDEN_SAMPLES, HIDDEN_STAMPS, Some(Snapshot(2000, 2)))
  {
    HiddenCounts(Until(1500.0));
    HiddenCounts(Until(3_600_500.0));
    HiddenCounts(Always());
    HiddenLawful();
    var a, b := HIDDEN.scrapes[0], HIDDEN.scrapes[1];
    assert a in HIDDEN.scrapes && b in HIDDEN.scrapes && a.stamp == 1500 && b.stamp == 3_600_500;
    assert forall s :: s in HIDDEN.scrapes ==> s == a || s == b;
    assert forall t :: t in HIDDEN_STAMPS <==> t == 1500 || t == 3_600_500;
    assert HIDDEN.Produced(HIDDEN_SAMPLES, HIDDEN_STAMPS, Some(Snapshot(2000, 2)));
  }

  lemma HiddenEdges()
    ensures LastBefore(HIDDEN_STAMPS, 3_600_000) == Some(1500) && FirstAfter(HIDDEN_STAMPS, 0) == Some(1500)
    ensures FirstAfter(HIDDEN_STAMPS, 3_600_000) == Some(3_600_500) && LastBefore(HIDDEN_STAMPS, 0) == None
  {
    var stamps := HIDDEN_STAMPS;
    assert stamps[0] in stamps && stamps[1] in stamps;
  }

  lemma HiddenBounds()
    ensures TargetSeriesBounds(HIDDEN_SAMPLES, HIDDEN_STAMPS, 0, 3_600_000, None, Some(Snapshot(2000, 2)))
         == Ok(Bounds(0, 2))
  {
    HiddenEdges();
    var samples, stamps, snap := HIDDEN_SAMPLES, HIDDEN_STAMPS, Snapshot(2000, 2);
    assert forall s :: s in stamps <==> s == 1500 || s == 3_600_500;
    assert ValueAt(samples, 1500) == 1 && ValueAt(samples, 3_600_500) == 2;
    assert ConsistentValues(samples, stamps) && SnapshotAgrees(samples, stamps, snap);
    assert AtStart(samples, stamps, 0, None, Some(snap)) == Some(Bounds(0, 1));
    assert AtEnd(samples, stamps, 3_600_000, None, Some(snap)) == Some(Bounds(1, 2));
  }

  /** Such a pod: one request at 1 s and one at 2 s, scraped at 1.5 s and again after the hour, captured at 2.9 s. No
      request can be after the hour, yet its lower bound does not count the second one. */
  lemma SnapshotIsHidden()
    ensures Leaves(HIDDEN, None, HIDDEN_SAMPLES, HIDDEN_STAMPS, Some(Snapshot(2000, 2)))
    ensures SettledUnseen(Evidence(None, HIDDEN_SAMPLES, HIDDEN_STAMPS, Some(Snapshot(2000, 2))), 0, 3_600_000)
    ensures TargetSeriesBounds(HIDDEN_SAMPLES, HIDDEN_STAMPS, 0, 3_600_000, None, Some(Snapshot(2000, 2)))
         == Ok(Bounds(0, 2))
  {
    HiddenUnseen();
    HiddenBounds();
    HiddenLeaves();
  }

  lemma HiddenUnseen()
    ensures SettledUnseen(Evidence(None, HIDDEN_SAMPLES, HIDDEN_STAMPS, Some(Snapshot(2000, 2))), 0, 3_600_000)
  {
    HiddenEdges();
    assert HIDDEN_STAMPS[0] in HIDDEN_STAMPS && HIDDEN_STAMPS[1] in HIDDEN_STAMPS;
  }
}
