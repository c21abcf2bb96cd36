/**
 How the infrastructure-event detector (deploy/prodcluster/infra_events.py) reads raw series: bounded export chunks,
 merging of export lines, and the streaming pod inventory. The theorems say that none of this depends on how the history
 was cut into chunks or lines. Times are integer milliseconds.
 */
module InfraSeries {
  import opened Wrappers
  import opened Ordering

  const HOUR := 3_600_000
  const CHUNK := 6 * HOUR
  const KSM_GAP := 60_000

  // ---------- export chunks ----------

  /** An inclusive time interval. */
  datatype Span = Span(a: int, b: int) {
    predicate Has(x: int) { a <= x <= b }
  }

  /** Back-to-back spans from lo to hi. */
  ghost predicate Tiles(cs: seq<Span>, lo: int, hi: int) {
    if cs == [] then hi == lo - 1
    else cs[0].a == lo && lo <= cs[0].b <= hi && Tiles(cs[1..], cs[0].b + 1, hi)
  }

  lemma {:induction false} TilesExtend(cs: seq<Span>, lo: int, c: int, e: int)
    requires Tiles(cs, lo, c - 1) && c <= e
    ensures Tiles(cs + [Span(c, e)], lo, e)
  {
    if cs == [] {
      assert (cs + [Span(c, e)])[1..] == [];
    } else {
      TilesExtend(cs[1..], cs[0].b + 1, c, e);
      assert (cs + [Span(c, e)])[1..] == cs[1..] + [Span(c, e)];
    }
  }

  /** The export is inclusive at both ends, so each chunk starts one millisecond after the previous one. */
  method FetchChunks(lo: int, hi: int) returns (cs: seq<Span>)
    ensures hi < lo ==> cs == []
    ensures lo <= hi ==> Tiles(cs, lo, hi)
    ensures forall c :: c in cs ==> c.b < c.a + CHUNK
  {
    cs := [];
    var c := lo;
    while c <= hi
      invariant Tiles(cs, lo, c - 1) && (lo <= hi ==> c <= hi + 1) && (hi < lo ==> cs == [])
      invariant forall x :: x in cs ==> x.b < x.a + CHUNK
    {
      var e := if c + CHUNK - 1 < hi then c + CHUNK - 1 else hi;
      TilesExtend(cs, lo, c, e);
      cs := cs + [Span(c, e)];
      c := e + 1;
    }
  }

  /** Chunks partition the interval: every instant of it lies in exactly one chunk, and nothing else lies in any. */
  lemma {:induction false} TilesPartition(cs: seq<Span>, lo: int, hi: int, x: int)
    requires Tiles(cs, lo, hi)
    ensures lo <= x <= hi <==> exists i :: 0 <= i < |cs| && cs[i].Has(x)
    ensures forall i, j :: 0 <= i < |cs| && 0 <= j < |cs| && cs[i].Has(x) && cs[j].Has(x) ==> i == j
  {
    if cs != [] {
      TilesPartition(cs[1..], cs[0].b + 1, hi, x);
      if cs[0].b < x <= hi {
        var i :| 0 <= i < |cs[1..]| && cs[1..][i].Has(x);
        assert cs[i + 1].Has(x);
      }
      forall i | 1 <= i < |cs| && cs[i].Has(x)
        ensures cs[0].b < x <= hi
      {
        assert cs[1..][i - 1].Has(x);
      }
      forall i, j | 1 <= i < |cs| && 1 <= j < |cs| && cs[i].Has(x) && cs[j].Has(x)
        ensures i == j
      {
        assert cs[1..][i - 1].Has(x) && cs[1..][j - 1].Has(x);
      }
    }
  }

  // ---------- merging export lines ----------

  /** One raw sample; a missing value is a staleness marker. */
  datatype Sample = Sample(t: int, v: Option<real>)

  ghost predicate Conflicts(samples: seq<Sample>, t: int) {
    exists x, y :: x in samples && y in samples && x.t == t && y.t == t && x != y
  }

  predicate InOrder(s: seq<Sample>) {
    forall i, j :: 0 <= i < j < |s| ==> s[i].t < s[j].t
  }

  /** Merging keeps exactly the samples, once each and in time order, or names the earliest conflict. */
  ghost predicate IsMerge(samples: seq<Sample>, r: Result<seq<Sample>, int>) {
    match r
    case Ok(out) => InOrder(out) && (forall x :: x in out <==> x in samples)
    case Err(t) => Conflicts(samples, t) && forall u :: u < t ==> !Conflicts(samples, u)
  }

  function SortByTime(samples: seq<Sample>): (r: seq<Sample>)
    ensures forall i, j :: 0 <= i < j < |r| ==> r[i].t <= r[j].t
    ensures forall x :: x in r <==> x in samples
  {
    var le := (x: Sample, y: Sample) => x.t <= y.t;
    assert TotalPreorder(le);
    var r := Sort(samples, le);
    SortOrdered(samples, le);
    assert forall i, j :: 0 <= i < j < |r| ==> le(r[i], r[j]);
    r
  }

  method Merge(samples: seq<Sample>) returns (r: Result<seq<Sample>, int>)
    ensures IsMerge(samples, r)
  {
    var sorted := SortByTime(samples);
    var out: seq<Sample> := [];
    for i := 0 to |sorted|
      invariant MergedSoFar(sorted, out, i)
    {
      var x := sorted[i];
      if out != [] && out[|out| - 1].t == x.t {
        if out[|out| - 1] != x {
          EarliestConflict(samples, sorted, out, i);
          return Err(x.t);
        }
        MergeSkips(sorted, out, i);
      } else {
        MergeAppends(sorted, out, i);
        out := out + [x];
      }
    }
    assert sorted[..|sorted|] == sorted;
    return Ok(out);
  }

  /** `out` is the merge of the first i sorted samples. */
  ghost predicate MergedSoFar(sorted: seq<Sample>, out: seq<Sample>, i: nat) {
    && i <= |sorted| && InOrder(out) && (forall x :: x in out <==> x in sorted[..i])
    && (i > 0 ==> out != [] && out[|out| - 1].t == sorted[i - 1].t)
  }

  lemma MergeSkips(sorted: seq<Sample>, out: seq<Sample>, i: nat)
    requires i < |sorted| && MergedSoFar(sorted, out, i) && out != [] && out[|out| - 1] == sorted[i]
    ensures MergedSoFar(sorted, out, i + 1)
  {
    assert sorted[..i + 1] == sorted[..i] + [sorted[i]];
  }

  lemma MergeAppends(sorted: seq<Sample>, out: seq<Sample>, i: nat)
    requires i < |sorted| && MergedSoFar(sorted, out, i) && (i > 0 ==> sorted[i - 1].t <= sorted[i].t)
    requires out == [] || out[|out| - 1].t != sorted[i].t
    ensures MergedSoFar(sorted, out + [sorted[i]], i + 1)
  {
    assert sorted[..i + 1] == sorted[..i] + [sorted[i]];
    assert forall j :: 0 <= j < |out| ==> out[j] in sorted[..i];
  }

  lemma EarliestConflict(samples: seq<Sample>, sorted: seq<Sample>, out: seq<Sample>, i: nat)
    requires i < |sorted| && out != [] && InOrder(out)
    requires forall x :: x in sorted <==> x in samples
    requires forall i, j :: 0 <= i < j < |sorted| ==> sorted[i].t <= sorted[j].t
    requires forall x :: x in out <==> x in sorted[..i]
    requires out[|out| - 1].t == sorted[i].t && out[|out| - 1] != sorted[i]
    ensures IsMerge(samples, Err(sorted[i].t))
  {
    var last := out[|out| - 1];
    assert last in out && last in sorted[..i] && last in samples && sorted[i] in samples;
    assert Conflicts(samples, sorted[i].t);
    forall x, y | x in samples && y in samples && x.t == y.t < sorted[i].t
      ensures x == y
    {
      var a :| 0 <= a < |sorted| && sorted[a] == x;
      var b :| 0 <= b < |sorted| && sorted[b] == y;
      assert a < i && b < i;
      assert x in sorted[..i] && y in sorted[..i];
    }
  }

  lemma {:induction false} InOrderUnique(a: seq<Sample>, b: seq<Sample>)
    requires InOrder(a) && InOrder(b) && forall x :: x in a <==> x in b
    ensures a == b
  {
    if a == [] {
      assert forall i :: 0 <= i < |b| ==> b[i] in b;
    } else {
      assert a[0] in b && b != [] && b[0] in a;
      assert a[0] == b[0];
      forall x
        ensures x in a[1..] <==> x in b[1..]
      {
        assert x in a[1..] <==> x in a && x.t > a[0].t;
        assert x in b[1..] <==> x in b && x.t > b[0].t;
      }
      InOrderUnique(a[1..], b[1..]);
      assert a == [a[0]] + a[1..] && b == [b[0]] + b[1..];
    }
  }

  /** Merging depends only on which samples there are, not on the order of lines or chunks or on repeated lines, and it
      refuses exactly the sets in which two samples share a time but not a value. */
  lemma MergeOrderIndependent(s: seq<Sample>, r: Result<seq<Sample>, int>, s': seq<Sample>,
      r': Result<seq<Sample>, int>)
    requires IsMerge(s, r) && IsMerge(s', r') && forall x :: x in s <==> x in s'
    ensures r == r'
    ensures r.Err? <==> exists t :: Conflicts(s, t)
  {
    assert forall t :: Conflicts(s, t) <==> Conflicts(s', t);
    if r.Ok? && r'.Ok? {
      InOrderUnique(r.value, r'.value);
    }
    if r.Ok? {
      OkHasNoConflict(s, r.value);
    }
    if r'.Ok? {
      OkHasNoConflict(s', r'.value);
    }
  }

  lemma OkHasNoConflict(s: seq<Sample>, out: seq<Sample>)
    requires IsMerge(s, Ok(out))
    ensures forall t :: !Conflicts(s, t)
  {
    forall x, y | x in s && y in s && x.t == y.t
      ensures x == y
    {
      assert x in out && y in out;
    }
  }
}
