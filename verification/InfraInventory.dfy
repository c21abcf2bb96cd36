/**
 The streaming pod inventory of the infrastructure-event detector (deploy/prodcluster/infra_events.py): per-pod
 summaries folded chunk by chunk. The theorems say that a summary equals the fold over the whole unchunked series.
 */
module InfraInventory {
  import opened Wrappers
  import opened Ordering
  import opened InfraSeries

  // ---------- the inventory series of one pod ----------

  /** One kube_pod_info sample of the pod from one exporter instance; `present` is false for a staleness marker. */
  datatype Row = Row(t: int, present: bool, instance: string)

  /** What is known of a pod's inventory series so far. */
  datatype Pod = Pod(first: Option<int>, last: Option<int>, gaps: seq<Span>, marker: Option<int>,
                     instance: Option<string>)

  const UNSEEN := Pod(None, None, [], None, None)

  function Observe(p: Pod, r: Row): Pod {
    if !r.present then
      if p.last.Some? && r.t > p.last.value && p.marker.None? then p.(marker := Some(r.t)) else p
    else
      var back := p.marker.Some? && r.t > p.marker.value;
      var late := p.last.Some? && r.t - p.last.value > KSM_GAP;
      var latest := p.last.None? || r.t >= p.last.value;
      Pod(if p.first.None? then Some(r.t) else p.first,
          if latest then Some(r.t) else p.last,
          if late then p.gaps + [Span(p.last.value, r.t)] else p.gaps,
          if back then None else p.marker,
          if latest then Some(r.instance) else p.instance)
  }

  function Fold(p: Pod, rows: seq<Row>): Pod
    decreases rows
  {
    if rows == [] then p else Fold(Observe(p, rows[0]), rows[1..])
  }

  lemma {:induction false} FoldConcat(p: Pod, a: seq<Row>, b: seq<Row>)
    ensures Fold(p, a + b) == Fold(Fold(p, a), b)
    decreases a
  {
    if a == [] {
      assert a + b == b;
    } else {
      FoldConcat(Observe(p, a[0]), a[1..], b);
      assert (a + b)[1..] == a[1..] + b;
    }
  }

  /** Rows are read by time, markers before values. */
  function KeyOf(r: Row): int { 2 * r.t + if r.present then 1 else 0 }

  function Key(): Row -> int { (r: Row) => KeyOf(r) }

  lemma KeyIsTotal()
    ensures TotalPreorder(ByKey(Key()))
  {
  }

  function SortRows(rows: seq<Row>): (r: seq<Row>)
    ensures Ordered(r, ByKey(Key()))
    ensures forall x :: x in r <==> x in rows
  {
    KeyIsTotal();
    SortOrdered(rows, ByKey(Key()));
    Sort(rows, ByKey(Key()))
  }

  function Within(rows: seq<Row>, w: Span): (r: seq<Row>)
    ensures forall x :: x in r ==> w.Has(x.t)
  {
    if rows == [] then []
    else if w.Has(rows[0].t) then [rows[0]] + Within(rows[1..], w)
    else Within(rows[1..], w)
  }

  /** The rows one export of the span yields: every series in label order. */
  function Rows(series: seq<seq<Row>>, w: Span): (r: seq<Row>)
    ensures forall x :: x in r ==> w.Has(x.t)
  {
    if series == [] then [] else Within(series[0], w) + Rows(series[1..], w)
  }

  method ObserveAll(p: Pod, rows: seq<Row>) returns (r: Pod)
    ensures r == Fold(p, rows)
  {
    r := p;
    for j := 0 to |rows|
      invariant r == Fold(p, rows[..j])
    {
      r := Observe(r, rows[j]);
      assert rows[..j + 1] == rows[..j] + [rows[j]];
      FoldConcat(p, rows[..j], [rows[j]]);
    }
    assert rows[..|rows|] == rows;
  }

  /** The streaming pass: one sorted fold per chunk, on the same summary. It equals one fold over the whole history. */
  method Stream(series: seq<seq<Row>>, cs: seq<Span>, lo: int, hi: int) returns (p: Pod)
    requires Tiles(cs, lo, hi)
    ensures p == Summary(series, lo, hi)
  {
    p := UNSEEN;
    StreamStart(series, lo);
    var i := 0;
    while i < |cs|
      invariant i <= |cs| && p == Summary(series, lo, EndOf(cs, lo, i))
    {
      p := StreamChunk(series, cs, lo, hi, i, p);
      i := i + 1;
    }
    TilesPrefix(cs, lo, hi, |cs|);
  }

  method StreamChunk(series: seq<seq<Row>>, cs: seq<Span>, lo: int, hi: int, i: nat, p: Pod) returns (r: Pod)
    requires Tiles(cs, lo, hi) && i < |cs| && p == Summary(series, lo, EndOf(cs, lo, i))
    ensures r == Summary(series, lo, EndOf(cs, lo, i + 1))
  {
    StreamStep(series, cs, lo, hi, i);
    r := ObserveAll(p, SortRows(Rows(series, cs[i])));
  }

  /** The fold over everything up to an instant. */
  function Summary(series: seq<seq<Row>>, lo: int, upTo: int): Pod {
    Fold(UNSEEN, SortRows(Rows(series, Span(lo, upTo))))
  }

  lemma StreamStart(series: seq<seq<Row>>, lo: int)
    ensures Summary(series, lo, lo - 1) == UNSEEN
  {
    RowsEmpty(series, Span(lo, lo - 1));
  }

  lemma StreamStep(series: seq<seq<Row>>, cs: seq<Span>, lo: int, hi: int, i: nat)
    requires Tiles(cs, lo, hi) && i < |cs|
    ensures Summary(series, lo, EndOf(cs, lo, i + 1))
         == Fold(Summary(series, lo, EndOf(cs, lo, i)), SortRows(Rows(series, cs[i])))
  {
    ChunkSpan(cs, lo, hi, i);
    SummaryExtends(series, lo, EndOf(cs, lo, i), cs[i]);
  }

  lemma ChunkSpan(cs: seq<Span>, lo: int, hi: int, i: nat)
    requires Tiles(cs, lo, hi) && i < |cs|
    ensures cs[i] == Span(EndOf(cs, lo, i) + 1, EndOf(cs, lo, i + 1))
    ensures lo - 1 <= EndOf(cs, lo, i) <= EndOf(cs, lo, i + 1)
  {
    TilesPrefix(cs, lo, hi, i);
  }

  lemma SummaryExtends(series: seq<seq<Row>>, lo: int, m: int, w: Span)
    requires lo - 1 <= m <= w.b && w.a == m + 1
    ensures Summary(series, lo, w.b) == Fold(Summary(series, lo, m), SortRows(Rows(series, w)))
  {
    assert w == Span(m + 1, w.b);
    SortedChunksJoin(series, lo, m, w.b);
    FoldConcat(UNSEEN, SortRows(Rows(series, Span(lo, m))), SortRows(Rows(series, w)));
  }

  /** Where the first i chunks end. */
  function EndOf(cs: seq<Span>, lo: int, i: nat): int
    requires i <= |cs|
  {
    if i == 0 then lo - 1 else cs[i - 1].b
  }

  lemma {:induction false} TilesPrefix(cs: seq<Span>, lo: int, hi: int, i: nat)
    requires Tiles(cs, lo, hi) && i <= |cs|
    ensures lo - 1 <= EndOf(cs, lo, i) <= hi
    ensures i < |cs| ==> cs[i].a == EndOf(cs, lo, i) + 1 <= cs[i].b
    ensures i == |cs| ==> EndOf(cs, lo, i) == hi
  {
    if i > 0 {
      TilesPrefix(cs[1..], cs[0].b + 1, hi, i - 1);
    }
  }

  lemma {:induction false} RowsEmpty(series: seq<seq<Row>>, w: Span)
    requires w.b < w.a
    ensures Rows(series, w) == []
  {
    if series != [] {
      RowsEmpty(series[1..], w);
      WithinEmpty(series[0], w);
    }
  }

  lemma {:induction false} WithinEmpty(rows: seq<Row>, w: Span)
    requires w.b < w.a
    ensures Within(rows, w) == []
  {
    if rows != [] {
      WithinEmpty(rows[1..], w);
    }
  }

  lemma {:induction false} WithinKey(rows: seq<Row>, w: Span, k: int)
    ensures WithKey(Within(rows, w), Key(), k) == if w.Has(k / 2) then WithKey(rows, Key(), k) else []
  {
    if rows != [] {
      WithinKey(rows[1..], w, k);
      if w.Has(rows[0].t) {
        assert Within(rows, w)[1..] == Within(rows[1..], w);
      }
    }
  }

  /** The rows of one key are the same in every export whose span holds the key's time, and missing from the others. */
  lemma {:induction false} RowsKey(series: seq<seq<Row>>, w: Span, v: Span, k: int)
    requires w.Has(k / 2) <==> v.Has(k / 2)
    ensures WithKey(Rows(series, w), Key(), k) == WithKey(Rows(series, v), Key(), k)
    ensures !w.Has(k / 2) ==> WithKey(Rows(series, w), Key(), k) == []
  {
    if series != [] {
      RowsKey(series[1..], w, v, k);
      WithinKey(series[0], w, k);
      WithinKey(series[0], v, k);
      WithKeyConcat(Within(series[0], w), Rows(series[1..], w), Key(), k);
      WithKeyConcat(Within(series[0], v), Rows(series[1..], v), Key(), k);
    }
  }

  /** Sorting chunk by chunk is sorting the whole: adjacent chunks' sorted rows, put together, are the sorted rows of
      the joined span. */
  lemma SortedChunksJoin(series: seq<seq<Row>>, lo: int, m: int, hi: int)
    requires lo - 1 <= m <= hi
    ensures SortRows(Rows(series, Span(lo, hi)))
         == SortRows(Rows(series, Span(lo, m))) + SortRows(Rows(series, Span(m + 1, hi)))
  {
    var a, b := SortRows(Rows(series, Span(lo, m))), SortRows(Rows(series, Span(m + 1, hi)));
    ConcatOrdered(a, b, m);
    forall k
      ensures WithKey(SortRows(Rows(series, Span(lo, hi))), Key(), k) == WithKey(a + b, Key(), k)
    {
      JoinKey(series, lo, m, hi, k);
    }
    OrderedUnique(SortRows(Rows(series, Span(lo, hi))), a + b, Key());
  }

  lemma ConcatOrdered(a: seq<Row>, b: seq<Row>, m: int)
    requires Ordered(a, ByKey(Key())) && Ordered(b, ByKey(Key()))
    requires (forall x :: x in a ==> x.t <= m) && forall x :: x in b ==> m < x.t
    ensures Ordered(a + b, ByKey(Key()))
  {
    forall i, j | 0 <= i < j < |a + b|
      ensures ByKey(Key())((a + b)[i], (a + b)[j])
    {
      if i < |a| <= j {
        assert a[i] in a && b[j - |a|] in b;
      } else if j < |a| {
        assert ByKey(Key())(a[i], a[j]);
      } else {
        assert ByKey(Key())(b[i - |a|], b[j - |a|]);
      }
    }
  }

  lemma SortRowsKey(rows: seq<Row>, k: int)
    ensures WithKey(SortRows(rows), Key(), k) == WithKey(rows, Key(), k)
  {
    KeyIsTotal();
    SortStable(rows, Key(), k);
  }

  lemma JoinKey(series: seq<seq<Row>>, lo: int, m: int, hi: int, k: int)
    requires lo - 1 <= m <= hi
    ensures WithKey(SortRows(Rows(series, Span(lo, hi))), Key(), k)
         == WithKey(SortRows(Rows(series, Span(lo, m))) + SortRows(Rows(series, Span(m + 1, hi))), Key(), k)
  {
    SortRowsKey(Rows(series, Span(lo, hi)), k);
    SortRowsKey(Rows(series, Span(lo, m)), k);
    SortRowsKey(Rows(series, Span(m + 1, hi)), k);
    WithKeyConcat(SortRows(Rows(series, Span(lo, m))), SortRows(Rows(series, Span(m + 1, hi))), Key(), k);
    if k / 2 <= m {
      RowsKey(series, Span(lo, hi), Span(lo, m), k);
      RowsKey(series, Span(m + 1, hi), Span(m + 1, hi), k);
    } else {
      RowsKey(series, Span(lo, hi), Span(m + 1, hi), k);
      RowsKey(series, Span(lo, m), Span(lo, m), k);
    }
  }

  // ---------- what a summary says ----------

  ghost predicate InTime(rows: seq<Row>) { forall i, j :: 0 <= i < j < |rows| ==> rows[i].t <= rows[j].t }

  /** Row i is the first value, or the last one, among the first n rows. */
  ghost predicate IsFirst(rows: seq<Row>, n: nat, i: int) {
    0 <= i < n <= |rows| && rows[i].present && forall k :: 0 <= k < i ==> !rows[k].present
  }

  ghost predicate IsLast(rows: seq<Row>, n: nat, i: int) {
    0 <= i < n <= |rows| && rows[i].present && forall k :: i < k < n ==> !rows[k].present
  }

  /** Rows i and j are neighbouring values more than a minute apart. */
  ghost predicate GapAt(rows: seq<Row>, n: nat, i: int, j: int) {
    0 <= i < j < n && IsLast(rows, j, i) && n <= |rows| && rows[j].present && rows[j].t - rows[i].t > 60_000
  }

  ghost predicate GapsOf(rows: seq<Row>, n: nat, gaps: seq<Span>) {
    && (forall g :: g in gaps <==> exists i, j :: GapAt(rows, n, i, j) && g == Span(rows[i].t, rows[j].t))
    && forall a, b :: 0 <= a < b < |gaps| ==> gaps[a].b <= gaps[b].a
  }

  /** Row k is a marker with an earlier value before it. */
  ghost predicate Marks(rows: seq<Row>, i: int, k: int) {
    0 <= i < k < |rows| && rows[i].present && !rows[k].present && rows[i].t < rows[k].t
  }

  ghost predicate ValuesUpTo(rows: seq<Row>, n: nat, t: int) {
    n <= |rows| && forall j :: 0 <= j < n && rows[j].present ==> rows[j].t <= t
  }

  /** Row k is later than every value among the first n rows, of which there is one. */
  ghost predicate Trails(rows: seq<Row>, n: nat, k: int) {
    0 <= k < n <= |rows| && !NoValue(rows, n) && ValuesUpTo(rows, n, rows[k].t - 1)
  }

  /** The marker is that of a series which had values before it and none after it; and whenever the rows end with
      markers after the last value, there is one, no later than any of them. */
  ghost predicate MarkerOf(rows: seq<Row>, n: nat, marker: Option<int>) {
    && n <= |rows|
    && (marker.Some? ==>
          && (exists i, k {:trigger Marks(rows, i, k)} :: Marks(rows, i, k) && k < n && rows[k].t == marker.value)
          && ValuesUpTo(rows, n, marker.value))
    && (forall k {:trigger Trails(rows, n, k)} :: Trails(rows, n, k) ==> marker.Some? && marker.value <= rows[k].t)
  }

  ghost predicate NoValue(rows: seq<Row>, n: nat) { n <= |rows| && forall i :: 0 <= i < n ==> !rows[i].present }

  /** The first and the last value among the first n rows, if there is any. */
  ghost predicate EndsOf(rows: seq<Row>, n: nat, f: Option<nat>, l: Option<nat>) {
    if f.Some? then l.Some? && IsFirst(rows, n, f.value) && IsLast(rows, n, l.value) else l.None? && NoValue(rows, n)
  }

  ghost predicate EndsAre(rows: seq<Row>, n: nat, f: Option<nat>, l: Option<nat>, p: Pod) {
    && EndsOf(rows, n, f, l)
    && p.first == (if f.Some? then Some(rows[f.value].t) else None)
    && p.last == (if l.Some? then Some(rows[l.value].t) else None)
    && p.instance == if l.Some? then Some(rows[l.value].instance) else None
  }

  function FoldAt(rows: seq<Row>, n: nat): Pod
    requires n <= |rows|
  {
    Fold(UNSEEN, rows[..n])
  }

  lemma FoldNext(rows: seq<Row>, n: nat)
    requires n < |rows|
    ensures FoldAt(rows, n + 1) == Observe(FoldAt(rows, n), rows[n])
  {
    assert rows[..n + 1] == rows[..n] + [rows[n]];
    FoldConcat(UNSEEN, rows[..n], [rows[n]]);
    assert [rows[n]][1..] == [];
  }

  lemma {:induction false} FoldEnds(rows: seq<Row>, n: nat) returns (f: Option<nat>, l: Option<nat>)
    requires InTime(rows) && n <= |rows|
    ensures EndsAre(rows, n, f, l, FoldAt(rows, n))
  {
    if n == 0 {
      f, l := None, None;
    } else {
      f, l := FoldEnds(rows, n - 1);
      FoldNext(rows, n - 1);
      if rows[n - 1].present {
        f := if f.None? then Some(n - 1) else f;
        l := Some(n - 1);
      }
    }
  }

  lemma {:induction false} FoldGaps(rows: seq<Row>, n: nat)
    requires InTime(rows) && n <= |rows|
    ensures GapsOf(rows, n, FoldAt(rows, n).gaps)
  {
    if n > 0 {
      FoldGaps(rows, n - 1);
      FoldNext(rows, n - 1);
      var f, l := FoldEnds(rows, n - 1);
      GapStep(rows, n - 1, FoldAt(rows, n - 1).gaps, f, l);
    }
  }

  /** The gaps after one more row. */
  function GapsWith(rows: seq<Row>, n: nat, gaps: seq<Span>, l: Option<nat>): seq<Span>
    requires n < |rows| && (l.Some? ==> l.value < n)
  {
    if rows[n].present && l.Some? && rows[n].t - rows[l.value].t > KSM_GAP
    then gaps + [Span(rows[l.value].t, rows[n].t)] else gaps
  }

  lemma GapStep(rows: seq<Row>, n: nat, gaps: seq<Span>, f: Option<nat>, l: Option<nat>)
    requires InTime(rows) && n < |rows| && GapsOf(rows, n, gaps) && EndsOf(rows, n, f, l)
    ensures GapsOf(rows, n + 1, GapsWith(rows, n, gaps, l))
  {
    forall i, j | GapAt(rows, n, i, j) ensures GapAt(rows, n + 1, i, j) && l.Some? && rows[j].t <= rows[l.value].t {
    }
    forall i, j | GapAt(rows, n + 1, i, j) && j < n ensures GapAt(rows, n, i, j) {
    }
    forall i | GapAt(rows, n + 1, i, n) ensures l == Some(i) {
    }
    if rows[n].present && l.Some? && rows[n].t - rows[l.value].t > KSM_GAP {
      assert GapAt(rows, n + 1, l.value, n);
    }
    GapMembers(rows, n, gaps, l);
  }

  lemma GapMembers(rows: seq<Row>, n: nat, gaps: seq<Span>, l: Option<nat>)
    requires n < |rows| && GapsOf(rows, n, gaps) && (l.Some? ==> l.value < n)
    requires forall i, j :: GapAt(rows, n, i, j) ==> GapAt(rows, n + 1, i, j) && l.Some? && rows[j].t <= rows[l.value].t
    requires forall i, j :: GapAt(rows, n + 1, i, j) && j < n ==> GapAt(rows, n, i, j)
    requires forall i :: GapAt(rows, n + 1, i, n) ==> l == Some(i)
    requires rows[n].present && l.Some? && rows[n].t - rows[l.value].t > KSM_GAP ==> GapAt(rows, n + 1, l.value, n)
    ensures GapsOf(rows, n + 1, GapsWith(rows, n, gaps, l))
  {
    var more := GapsWith(rows, n, gaps, l);
    forall g | g in more ensures exists i, j :: GapAt(rows, n + 1, i, j) && g == Span(rows[i].t, rows[j].t) {
      if g in gaps {
        var i, j :| GapAt(rows, n, i, j) && g == Span(rows[i].t, rows[j].t);
        assert GapAt(rows, n + 1, i, j);
      } else {
        assert GapAt(rows, n + 1, l.value, n);
      }
    }
    forall i, j | GapAt(rows, n + 1, i, j) ensures Span(rows[i].t, rows[j].t) in more {
      if j < n {
        assert GapAt(rows, n, i, j);
        assert Span(rows[i].t, rows[j].t) in gaps;
      } else {
        assert l == Some(i);
      }
    }
    forall a, b | 0 <= a < b < |more| ensures more[a].b <= more[b].a {
      if b == |gaps| {
        assert more[a] in gaps;
        var i, j :| GapAt(rows, n, i, j) && more[a] == Span(rows[i].t, rows[j].t);
      }
    }
  }

  lemma {:induction false} FoldMarker(rows: seq<Row>, n: nat)
    requires InTime(rows) && n <= |rows|
    ensures MarkerOf(rows, n, FoldAt(rows, n).marker)
  {
    if n > 0 {
      FoldMarker(rows, n - 1);
      FoldNext(rows, n - 1);
      var f, l := FoldEnds(rows, n - 1);
      var was := FoldAt(rows, n - 1).marker;
      if rows[n - 1].present {
        ValueAfterMarker(rows, n - 1, was);
      } else {
        MarkerStep(rows, n - 1, was, f, l);
      }
    }
  }

  lemma ValueAfterMarker(rows: seq<Row>, n: nat, was: Option<int>)
    requires InTime(rows) && n < |rows| && rows[n].present && MarkerOf(rows, n, was)
    ensures MarkerOf(rows, n + 1, if was.Some? && rows[n].t > was.value then None else was)
  {
    var more: nat := n + 1;
    forall k ensures !Trails(rows, more, k) {
      assert 0 <= k < n ==> rows[k].t <= rows[n].t;
    }
    if was.Some? && rows[n].t <= was.value {
      var i, k :| Marks(rows, i, k) && k < n && rows[k].t == was.value;
      assert Marks(rows, i, k) && k < n + 1;
    }
  }

  lemma MarkerStep(rows: seq<Row>, n: nat, was: Option<int>, f: Option<nat>, l: Option<nat>)
    requires InTime(rows) && n < |rows| && !rows[n].present && MarkerOf(rows, n, was) && EndsOf(rows, n, f, l)
    ensures MarkerOf(rows, n + 1,
                     if l.Some? && rows[n].t > rows[l.value].t && was.None? then Some(rows[n].t) else was)
  {
    var m := if l.Some? && rows[n].t > rows[l.value].t && was.None? then Some(rows[n].t) else was;
    if l.Some? {
      forall j | 0 <= j < n && rows[j].present ensures rows[j].t <= rows[l.value].t {
        assert j <= l.value;
      }
    }
    if m.Some? {
      MarkerKept(rows, n, was, m.value, l);
    }
    forall k | Trails(rows, n + 1, k) ensures m.Some? && m.value <= rows[k].t {
      if k < n {
        assert Trails(rows, n, k);
      } else if was.Some? {
        var i, j :| Marks(rows, i, j) && j < n && rows[j].t == was.value;
      }
    }
  }

  lemma MarkerKept(rows: seq<Row>, n: nat, was: Option<int>, m: int, l: Option<nat>)
    requires InTime(rows) && n < |rows| && !rows[n].present && MarkerOf(rows, n, was)
    requires was == Some(m) || (was.None? && m == rows[n].t && l.Some? && l.value < n && rows[l.value].present
                                && rows[l.value].t < m)
    ensures exists i, k :: Marks(rows, i, k) && k < n + 1 && rows[k].t == m
    ensures ValuesUpTo(rows, n + 1, m)
  {
    if was == Some(m) {
      var i, k :| Marks(rows, i, k) && k < n && rows[k].t == m;
      assert Marks(rows, i, k) && k < n + 1;
    } else {
      assert Marks(rows, l.value, n);
    }
  }

  /** The summary of all rows, without the fold. */
  ghost predicate Summarizes(rows: seq<Row>, p: Pod) {
    && (exists f, l :: EndsAre(rows, |rows|, f, l, p))
    && GapsOf(rows, |rows|, p.gaps) && MarkerOf(rows, |rows|, p.marker)
  }

  lemma SortedInTime(rows: seq<Row>)
    ensures InTime(SortRows(rows))
  {
    var s := SortRows(rows);
    forall i, j | 0 <= i < j < |s| ensures s[i].t <= s[j].t {
      assert ByKey(Key())(s[i], s[j]);
    }
  }

  /** By time, and at one time markers before values. */
  ghost predicate ReadingOrder(rows: seq<Row>) {
    forall i, j :: 0 <= i < j < |rows| ==>
                     rows[i].t < rows[j].t || (rows[i].t == rows[j].t && (rows[i].present ==> rows[j].present))
  }

  lemma SortedForReading(rows: seq<Row>)
    ensures ReadingOrder(SortRows(rows))
  {
    var s := SortRows(rows);
    forall i, j | 0 <= i < j < |s|
      ensures s[i].t < s[j].t || (s[i].t == s[j].t && (s[i].present ==> s[j].present))
    {
      assert ByKey(Key())(s[i], s[j]);
    }
  }

  lemma {:induction false} WithinHas(rows: seq<Row>, w: Span, x: Row)
    ensures x in Within(rows, w) <==> x in rows && w.Has(x.t)
  {
    if rows != [] {
      WithinHas(rows[1..], w, x);
    }
  }

  lemma {:induction false} RowsHas(series: seq<seq<Row>>, w: Span, x: Row)
    ensures x in Rows(series, w) <==> w.Has(x.t) && exists k :: 0 <= k < |series| && x in series[k]
  {
    if series != [] {
      WithinHas(series[0], w, x);
      RowsHas(series[1..], w, x);
      if k :| 0 <= k < |series[1..]| && x in series[1..][k] {
        assert x in series[k + 1];
      }
      if k :| 0 < k < |series| && x in series[k] {
        assert x in series[1..][k - 1];
      }
    }
  }

  /** What the streaming pass knows in the end: the summary of all rows of the interval, in reading order. */
  lemma SummaryIs(series: seq<seq<Row>>, lo: int, hi: int) returns (rows: seq<Row>)
    ensures ReadingOrder(rows) && Summarizes(rows, Summary(series, lo, hi))
    ensures forall x :: x in rows <==> lo <= x.t <= hi && exists k :: 0 <= k < |series| && x in series[k]
  {
    rows := SortRows(Rows(series, Span(lo, hi)));
    SortedForReading(Rows(series, Span(lo, hi)));
    forall x ensures x in rows <==> lo <= x.t <= hi && exists k :: 0 <= k < |series| && x in series[k] {
      RowsHas(series, Span(lo, hi), x);
    }
    SummarizesRows(series, lo, hi);
  }

  lemma SummarizesRows(series: seq<seq<Row>>, lo: int, hi: int)
    ensures Summarizes(SortRows(Rows(series, Span(lo, hi))), Summary(series, lo, hi))
  {
    var rows := SortRows(Rows(series, Span(lo, hi)));
    SortedInTime(Rows(series, Span(lo, hi)));
    assert rows[..|rows|] == rows;
    var f, l := FoldEnds(rows, |rows|);
    FoldGaps(rows, |rows|);
    FoldMarker(rows, |rows|);
  }

  // ---------- the extents of a pod's other series ----------

  /** The earliest and latest time seen so far. */
  datatype Extent = Extent(first: Option<int>, last: Option<int>)

  /** One series of one chunk, in time order, widens the extent by its ends. */
  function Widen(e: Extent, ts: seq<int>): Extent {
    if ts == [] then e
    else Extent(Some(if e.first.Some? && e.first.value < ts[0] then e.first.value else ts[0]),
                Some(if e.last.Some? && e.last.value > ts[|ts| - 1] then e.last.value else ts[|ts| - 1]))
  }

  function WidenAll(pieces: seq<seq<int>>): Extent {
    if pieces == [] then Extent(None, None)
    else Widen(WidenAll(pieces[..|pieces| - 1]), pieces[|pieces| - 1])
  }

  ghost predicate Seen(pieces: seq<seq<int>>, t: int) {
    exists i :: 0 <= i < |pieces| && t in pieces[i]
  }

  ghost predicate IsRange(e: Extent, pieces: seq<seq<int>>) {
    && (e.first.Some? <==> e.last.Some?)
    && (e.first.Some? ==> Seen(pieces, e.first.value) && Seen(pieces, e.last.value))
    && (forall t :: Seen(pieces, t) ==> e.first.Some? && e.first.value <= t <= e.last.value)
  }

  /** The extent is the exact range of everything seen. */
  lemma {:induction false} ExtentIsRange(pieces: seq<seq<int>>)
    requires forall i :: 0 <= i < |pieces| ==> Ascending(pieces[i])
    ensures IsRange(WidenAll(pieces), pieces)
  {
    if pieces != [] {
      var n := |pieces| - 1;
      var init, e := pieces[..n], WidenAll(pieces[..n]);
      ExtentIsRange(init);
      forall t
        ensures Seen(pieces, t) <==> Seen(init, t) || t in pieces[n]
      {
        if Seen(init, t) {
          var i :| 0 <= i < n && t in init[i];
          assert t in pieces[i];
        }
        if Seen(pieces, t) && t !in pieces[n] {
          var i :| 0 <= i <= n && t in pieces[i];
          assert t in init[i];
        }
      }
    }
  }

  /** However the same observations are cut into chunks and series, the extents come out the same. */
  lemma ExtentIndependent(p: seq<seq<int>>, q: seq<seq<int>>)
    requires forall i :: 0 <= i < |p| ==> Ascending(p[i])
    requires forall i :: 0 <= i < |q| ==> Ascending(q[i])
    requires forall t :: Seen(p, t) <==> Seen(q, t)
    ensures WidenAll(p) == WidenAll(q)
  {
    ExtentIsRange(p);
    ExtentIsRange(q);
    RangeUnique(WidenAll(p), WidenAll(q), p, q);
  }

  lemma RangeUnique(e: Extent, f: Extent, p: seq<seq<int>>, q: seq<seq<int>>)
    requires IsRange(e, p) && IsRange(f, q) && forall t :: Seen(p, t) <==> Seen(q, t)
    ensures e == f
  {
    if e.first.Some? {
      assert Seen(q, e.first.value) && Seen(q, e.last.value);
      assert Seen(p, f.first.value) && Seen(p, f.last.value);
    }
  }

  // ---------- the creation time ----------

  /** One kube_pod_created sample; a staleness marker carries no value. */
  datatype Stamp = Stamp(t: int, v: Option<int>)

  /** The first value of one series within the span. */
  function FirstValue(stamps: seq<Stamp>, w: Span): Option<int> {
    if stamps == [] then None
    else if w.Has(stamps[0].t) && stamps[0].v.Some? then stamps[0].v
    else FirstValue(stamps[1..], w)
  }

  /** The first value of the first series, in label order, that has one within the span. */
  function FirstStamp(series: seq<seq<Stamp>>, w: Span): Option<int> {
    if series == [] then None
    else if FirstValue(series[0], w).Some? then FirstValue(series[0], w)
    else FirstStamp(series[1..], w)
  }

  /** The creation time found by the streaming pass: once found, it stays. */
  method CreatedBy(series: seq<seq<Stamp>>, cs: seq<Span>) returns (created: Option<int>)
    ensures created == CreatedOf(series, cs)
  {
    created := None;
    for i := 0 to |cs|
      invariant created == CreatedOf(series, cs[..i])
    {
      assert cs[..i + 1][..i] == cs[..i];
      if created.None? {
        created := FirstStamp(series, cs[i]);
      }
    }
    assert cs[..|cs|] == cs;
  }

  function CreatedOf(series: seq<seq<Stamp>>, cs: seq<Span>): Option<int> {
    if cs == [] then None
    else
      var before := CreatedOf(series, cs[..|cs| - 1]);
      if before.Some? then before else FirstStamp(series, cs[|cs| - 1])
  }

  /** Some sample with this value lies in the span. */
  ghost predicate HasStamp(series: seq<seq<Stamp>>, w: Span, v: int) {
    exists k, j :: 0 <= k < |series| && 0 <= j < |series[k]| && w.Has(series[k][j].t) && series[k][j].v == Some(v)
  }

  lemma {:induction false} FirstValueIs(stamps: seq<Stamp>, w: Span)
    ensures match FirstValue(stamps, w)
            case Some(v) => exists j :: 0 <= j < |stamps| && w.Has(stamps[j].t) && stamps[j].v == Some(v)
            case None => forall j :: 0 <= j < |stamps| && w.Has(stamps[j].t) ==> stamps[j].v.None?
  {
    if stamps != [] {
      FirstValueIs(stamps[1..], w);
      if FirstValue(stamps[1..], w).Some? && FirstValue(stamps, w) == FirstValue(stamps[1..], w) {
        var v := FirstValue(stamps[1..], w).value;
        var j :| 0 <= j < |stamps[1..]| && w.Has(stamps[1..][j].t) && stamps[1..][j].v == Some(v);
        assert stamps[j + 1].v == Some(v);
      }
    }
  }

  lemma {:induction false} FirstStampIs(series: seq<seq<Stamp>>, w: Span)
    ensures match FirstStamp(series, w)
            case Some(v) => HasStamp(series, w, v)
            case None => forall v :: !HasStamp(series, w, v)
  {
    if series != [] {
      FirstValueIs(series[0], w);
      FirstStampIs(series[1..], w);
      if FirstValue(series[0], w).None? {
        forall v ensures HasStamp(series, w, v) <==> HasStamp(series[1..], w, v) {
          StampLater(series, w, v);
        }
      }
    }
  }

  lemma StampLater(series: seq<seq<Stamp>>, w: Span, v: int)
    requires series != [] && forall j :: 0 <= j < |series[0]| && w.Has(series[0][j].t) ==> series[0][j].v.None?
    ensures HasStamp(series, w, v) <==> HasStamp(series[1..], w, v)
  {
    if k, j :| 0 <= k < |series[1..]| && 0 <= j < |series[1..][k]| && w.Has(series[1..][k][j].t)
               && series[1..][k][j].v == Some(v) {
      assert series[k + 1][j].v == Some(v);
    }
    if k, j :| 0 <= k < |series| && 0 <= j < |series[k]| && w.Has(series[k][j].t) && series[k][j].v == Some(v) {
      assert series[1..][k - 1][j].v == Some(v);
    }
  }

  /** What lies outside both spans, or in both, decides nothing. */
  lemma {:induction false} SameFirstValue(stamps: seq<Stamp>, w: Span, u: Span)
    requires forall j :: 0 <= j < |stamps| && stamps[j].v.Some? ==> (w.Has(stamps[j].t) <==> u.Has(stamps[j].t))
    ensures FirstValue(stamps, w) == FirstValue(stamps, u)
  {
    if stamps != [] {
      SameFirstValue(stamps[1..], w, u);
    }
  }

  lemma {:induction false} SameFirstStamp(series: seq<seq<Stamp>>, w: Span, u: Span)
    requires forall k, j :: 0 <= k < |series| && 0 <= j < |series[k]| && series[k][j].v.Some? ==>
               (w.Has(series[k][j].t) <==> u.Has(series[k][j].t))
    ensures FirstStamp(series, w) == FirstStamp(series, u)
  {
    if series != [] {
      SameFirstValue(series[0], w, u);
      SameFirstStamp(series[1..], w, u);
    }
  }

  /** Without a creation time up to c - 1, reading from lo or from c finds the same. */
  lemma EmptyPrefix(series: seq<seq<Stamp>>, lo: int, c: int, b: int)
    requires lo <= c && FirstStamp(series, Span(lo, c - 1)).None?
    ensures FirstStamp(series, Span(lo, b)) == FirstStamp(series, Span(c, b))
  {
    FirstStampIs(series, Span(lo, c - 1));
    forall k, j | 0 <= k < |series| && 0 <= j < |series[k]| && series[k][j].v.Some?
      ensures Span(lo, b).Has(series[k][j].t) <==> Span(c, b).Has(series[k][j].t)
    {
      assert !HasStamp(series, Span(lo, c - 1), series[k][j].v.value);
    }
    SameFirstStamp(series, Span(lo, b), Span(c, b));
  }

  lemma {:induction false} TilesFront(cs: seq<Span>, lo: int, hi: int)
    requires Tiles(cs, lo, hi) && cs != []
    ensures var last := cs[|cs| - 1]; lo <= last.a <= last.b == hi && Tiles(cs[..|cs| - 1], lo, last.a - 1)
  {
    if |cs| > 1 {
      TilesFront(cs[1..], cs[0].b + 1, hi);
      assert cs[1..][..|cs| - 2] == cs[..|cs| - 1][1..];
    }
  }

  /** The streaming pass answers for a prefix of the interval: from lo to the end of the first chunk that holds a
      creation time, or to hi. */
  lemma {:induction false} CreatedAnswersPrefix(series: seq<seq<Stamp>>, cs: seq<Span>, lo: int, hi: int)
      returns (b: int)
    requires Tiles(cs, lo, hi)
    ensures lo - 1 <= b <= hi && CreatedOf(series, cs) == FirstStamp(series, Span(lo, b))
    ensures b == hi || FirstStamp(series, Span(lo, b)).Some?
  {
    b := hi;
    if cs == [] {
      FirstStampIs(series, Span(lo, hi));
    } else {
      TilesFront(cs, lo, hi);
      var last := cs[|cs| - 1];
      var c := CreatedAnswersPrefix(series, cs[..|cs| - 1], lo, last.a - 1);
      if CreatedOf(series, cs[..|cs| - 1]).Some? {
        b := c;
      } else {
        EmptyPrefix(series, lo, last.a, hi);
      }
    }
  }

  /** Whatever prefix of the interval holds a creation time, its first one is that of the whole interval. */
  ghost predicate SettledFromStart(series: seq<seq<Stamp>>, lo: int, hi: int) {
    forall b :: lo <= b <= hi && FirstStamp(series, Span(lo, b)).Some? ==>
                  FirstStamp(series, Span(lo, b)) == FirstStamp(series, Span(lo, hi))
  }

  /** Exactly when the streaming pass finds what the unchunked read finds, however the interval is cut. */
  lemma CreatedUnchunkedIff(series: seq<seq<Stamp>>, lo: int, hi: int)
    ensures (forall cs :: Tiles(cs, lo, hi) ==> CreatedOf(series, cs) == FirstStamp(series, Span(lo, hi)))
       <==> SettledFromStart(series, lo, hi)
  {
    if SettledFromStart(series, lo, hi) {
      forall cs | Tiles(cs, lo, hi) ensures CreatedOf(series, cs) == FirstStamp(series, Span(lo, hi)) {
        var b := CreatedAnswersPrefix(series, cs, lo, hi);
        if b < lo {
          FirstStampIs(series, Span(lo, b));
        }
      }
    }
    if b :| lo <= b < hi && FirstStamp(series, Span(lo, b)).Some?
            && FirstStamp(series, Span(lo, b)) != FirstStamp(series, Span(lo, hi)) {
      CutAt(series, lo, b, hi);
    }
  }

  /** Cut after b, the pass answers for [lo, b] if there is an answer. */
  lemma CutAt(series: seq<seq<Stamp>>, lo: int, b: int, hi: int)
    requires lo <= b < hi && FirstStamp(series, Span(lo, b)).Some?
    ensures var cs := [Span(lo, b), Span(b + 1, hi)];
            Tiles(cs, lo, hi) && CreatedOf(series, cs) == FirstStamp(series, Span(lo, b))
  {
    var cs := [Span(lo, b), Span(b + 1, hi)];
    assert cs[1..] == [Span(b + 1, hi)] && cs[1..][1..] == [];
    assert Tiles(cs[1..], b + 1, hi);
    assert cs[..1] == [Span(lo, b)] && cs[..1][..0] == [];
    assert CreatedOf(series, cs[..1]) == FirstStamp(series, Span(lo, b));
  }

  /** A pod's creation time does not change: every sample carries the same value. */
  ghost predicate OneCreation(series: seq<seq<Stamp>>, w: Span) {
    forall v, u :: HasStamp(series, w, v) && HasStamp(series, w, u) ==> v == u
  }

  /** So it is with one creation time. */
  lemma CreatedUnchunked(series: seq<seq<Stamp>>, cs: seq<Span>, lo: int, hi: int)
    requires Tiles(cs, lo, hi) && OneCreation(series, Span(lo, hi))
    ensures CreatedOf(series, cs) == FirstStamp(series, Span(lo, hi))
  {
    FirstStampIs(series, Span(lo, hi));
    forall b | lo <= b <= hi && FirstStamp(series, Span(lo, b)).Some?
      ensures FirstStamp(series, Span(lo, b)) == FirstStamp(series, Span(lo, hi))
    {
      FirstStampIs(series, Span(lo, b));
      assert HasStamp(series, Span(lo, hi), FirstStamp(series, Span(lo, b)).value);
    }
    CreatedUnchunkedIff(series, lo, hi);
  }

  /** With two, from two exporters, it may find the other one: the earlier chunk wins over the earlier label. */
  lemma CreatedDependsOnChunks()
    ensures var series := [[Stamp(9, Some(1))], [Stamp(1, Some(2))]];
            && Tiles([Span(0, 4), Span(5, 9)], 0, 9)
            && CreatedOf(series, [Span(0, 4), Span(5, 9)]) == Some(2) && FirstStamp(series, Span(0, 9)) == Some(1)
  {
    var a, b: seq<Stamp> := [Stamp(9, Some(1))], [Stamp(1, Some(2))];
    var series, cs := [a, b], [Span(0, 4), Span(5, 9)];
    assert a[1..] == [] && series[1..] == [b];
    assert FirstValue(a, Span(0, 4)) == None && FirstValue(b, Span(0, 4)) == Some(2);
    assert FirstStamp(series, Span(0, 4)) == Some(2);
    assert FirstValue(a, Span(0, 9)) == Some(1);
    CutAt(series, 0, 4, 9);
    assert FirstStamp(series, Span(0, 9)) == Some(1);
    assert series == [[Stamp(9, Some(1))], [Stamp(1, Some(2))]] && cs == [Span(0, 4), Span(5, 9)];
  }
}
