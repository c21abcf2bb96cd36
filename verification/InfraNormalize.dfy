/**
 Normalizing export lines (deploy/prodcluster/infra_events.py:157-162): one series may come on several lines, so lines
 are grouped by their full label set, each group is merged, and the series are sorted by label set.
 */
module InfraNormalize {
  import opened Wrappers
  import opened Ordering
  import opened InfraSeries

  type Labels = map<string, string>

  /** One export line: a label set with some of its samples. */
  datatype Record = Record(labels: Labels, samples: seq<Sample>)

  datatype Series = Series(labels: Labels, samples: seq<Sample>)

  /** The label set, and the time, at which two samples disagree. */
  datatype Conflict = Conflict(labels: Labels, t: int)

  type Order = (Labels, Labels) -> bool

  /** The order in which label sets are sorted: total, and no two different sets are equal in it. */
  ghost predicate TotalOrder(le: Order) {
    TotalPreorder(le) && forall a, b :: le(a, b) && le(b, a) ==> a == b
  }

  /** Strictly before in the order. */
  predicate Below(le: Order, a: Labels, b: Labels) { le(a, b) && a != b }

  /** The samples of one label set, line after line. */
  function SamplesOf(records: seq<Record>, labels: Labels): seq<Sample> {
    if records == [] then []
    else
      var last := records[|records| - 1];
      SamplesOf(records[..|records| - 1], labels) + if last.labels == labels then last.samples else []
  }

  ghost predicate HasLabels(records: seq<Record>, labels: Labels) { exists r :: r in records && r.labels == labels }

  /** Every label set once, in order, with its merged samples; or the first label set with a conflict. */
  ghost predicate IsNormalized(records: seq<Record>, le: Order, r: Result<seq<Series>, Conflict>) {
    match r
    case Ok(out) =>
      && (forall i, j :: 0 <= i < j < |out| ==> Below(le, out[i].labels, out[j].labels))
      && (forall l :: HasLabels(records, l) <==> exists i :: 0 <= i < |out| && out[i].labels == l)
      && (forall i :: 0 <= i < |out| ==> IsMerge(SamplesOf(records, out[i].labels), Ok(out[i].samples)))
    case Err(c) =>
      && HasLabels(records, c.labels) && IsMerge(SamplesOf(records, c.labels), Err(c.t))
      && forall l :: HasLabels(records, l) && Below(le, l, c.labels)
          ==> forall t :: !Conflicts(SamplesOf(records, l), t)
  }

  /** The groups so far: the label sets in order of appearance, each once, with their samples. */
  ghost predicate Grouped(records: seq<Record>, order: seq<Labels>, groups: map<Labels, seq<Sample>>) {
    && Distinct(order) && Listed(records, order) && (forall l :: l in groups <==> l in order)
    && (forall l :: l in groups ==> groups[l] == SamplesOf(records, l))
  }

  ghost predicate Listed(records: seq<Record>, order: seq<Labels>) { forall l :: l in order <==> HasLabels(records, l) }

  method Group(records: seq<Record>) returns (order: seq<Labels>, groups: map<Labels, seq<Sample>>)
    ensures Grouped(records, order, groups)
  {
    order, groups := [], map[];
    for i := 0 to |records|
      invariant Grouped(records[..i], order, groups)
    {
      assert records[..i + 1] == records[..i] + [records[i]];
      order, groups := AddRecord(records[..i], order, groups, records[i]);
    }
    assert records[..|records|] == records;
  }

  /** One more line adds its samples to its label set and nothing to any other. */
  method AddRecord(ghost before: seq<Record>, order0: seq<Labels>, groups0: map<Labels, seq<Sample>>, r: Record)
      returns (order: seq<Labels>, groups: map<Labels, seq<Sample>>)
    requires Grouped(before, order0, groups0)
    ensures Grouped(before + [r], order, groups)
  {
    order, groups := order0, groups0;
    if r.labels !in groups {
      NoSamples(before, r.labels);
      OneMoreDistinct(order, r.labels);
      order := order + [r.labels];
      groups := groups[r.labels := []];
    }
    groups := groups[r.labels := groups[r.labels] + r.samples];
    forall l ensures SamplesOf(before + [r], l) == SamplesOf(before, l) + if r.labels == l then r.samples else [] {
      SamplesMore(before, r, l);
    }
    forall l ensures HasLabels(before + [r], l) <==> HasLabels(before, l) || l == r.labels {
      LabelsMore(before, r, l);
    }
  }

  lemma OneMoreDistinct<T>(s: seq<T>, x: T)
    requires Distinct(s) && x !in s
    ensures Distinct(s + [x])
  {
  }

  lemma SamplesMore(before: seq<Record>, r: Record, l: Labels)
    ensures SamplesOf(before + [r], l) == SamplesOf(before, l) + if r.labels == l then r.samples else []
  {
    assert (before + [r])[..|before|] == before;
  }

  lemma LabelsMore(before: seq<Record>, r: Record, l: Labels)
    ensures HasLabels(before + [r], l) <==> HasLabels(before, l) || l == r.labels
  {
    assert r in before + [r];
  }

  lemma {:induction false} NoSamples(records: seq<Record>, l: Labels)
    requires !HasLabels(records, l)
    ensures SamplesOf(records, l) == []
  {
    if records != [] {
      assert records[|records| - 1] in records;
      assert forall r :: r in records[..|records| - 1] ==> r in records;
      NoSamples(records[..|records| - 1], l);
    }
  }

  /** Groups the lines by label set and merges each group, in order. */
  method Normalize(records: seq<Record>, le: Order) returns (r: Result<seq<Series>, Conflict>)
    requires TotalOrder(le)
    ensures IsNormalized(records, le, r)
  {
    var order, groups := Group(records);
    KeysRanked(order, le);
    r := MergeGroups(records, le, Sort(order, le), groups);
  }

  ghost predicate Ranked(keys: seq<Labels>, le: Order) {
    forall i, j :: 0 <= i < j < |keys| ==> Below(le, keys[i], keys[j])
  }

  /** The first i label sets, merged. */
  ghost predicate MergedSeries(records: seq<Record>, keys: seq<Labels>, out: seq<Series>) {
    |out| <= |keys| && forall k :: 0 <= k < |out| ==> MergedAt(records, keys[k], out[k])
  }

  ghost predicate MergedAt(records: seq<Record>, labels: Labels, x: Series) {
    x.labels == labels && IsMerge(SamplesOf(records, labels), Ok(x.samples))
  }

  method MergeGroups(ghost records: seq<Record>, ghost le: Order, keys: seq<Labels>,
                     groups: map<Labels, seq<Sample>>)
      returns (r: Result<seq<Series>, Conflict>)
    requires TotalOrder(le) && Listed(records, keys) && Ranked(keys, le)
    requires forall l :: l in keys ==> l in groups && groups[l] == SamplesOf(records, l)
    ensures IsNormalized(records, le, r)
  {
    var out: seq<Series> := [];
    for i := 0 to |keys|
      invariant |out| == i && MergedSeries(records, keys, out)
    {
      assert keys[i] in keys;
      var merged := Merge(groups[keys[i]]);
      if merged.Err? {
        FirstConflict(records, le, keys, out, i, merged.error);
        return Err(Conflict(keys[i], merged.error));
      }
      var x := Series(keys[i], merged.value);
      assert MergedAt(records, keys[i], x);
      out := out + [x];
    }
    AllMerged(records, le, keys, out);
    return Ok(out);
  }

  lemma AllMerged(records: seq<Record>, le: Order, keys: seq<Labels>, out: seq<Series>)
    requires Listed(records, keys) && Ranked(keys, le) && |out| == |keys| && MergedSeries(records, keys, out)
    ensures IsNormalized(records, le, Ok(out))
  {
    forall i | 0 <= i < |out|
      ensures out[i].labels == keys[i] && IsMerge(SamplesOf(records, out[i].labels), Ok(out[i].samples))
    {
      assert MergedAt(records, keys[i], out[i]);
    }
    forall l ensures HasLabels(records, l) <==> exists i :: 0 <= i < |out| && out[i].labels == l {
      if l in keys {
        var i :| 0 <= i < |keys| && keys[i] == l;
        assert out[i].labels == l;
      }
    }
  }

  /** Distinct label sets sort strictly. */
  lemma KeysRanked(order: seq<Labels>, le: Order)
    requires TotalOrder(le) && Distinct(order)
    ensures Ranked(Sort(order, le), le)
  {
    SortOrdered(order, le);
    SortDistinct(order, le);
    var keys := Sort(order, le);
    forall i, j | 0 <= i < j < |keys| ensures Below(le, keys[i], keys[j]) {
      assert le(keys[i], keys[j]) && keys[i] != keys[j];
    }
  }

  lemma BeforeInOrder(keys: seq<Labels>, le: Order, k: nat, i: nat)
    requires k < |keys| && i < |keys| && TotalOrder(le) && Ranked(keys, le) && Below(le, keys[k], keys[i])
    ensures k < i
  {
  }

  lemma FirstConflict(records: seq<Record>, le: Order, keys: seq<Labels>, out: seq<Series>, i: nat, t: int)
    requires i < |keys| && |out| == i && TotalOrder(le)
    requires Listed(records, keys) && Ranked(keys, le) && MergedSeries(records, keys, out)
    requires IsMerge(SamplesOf(records, keys[i]), Err(t))
    ensures IsNormalized(records, le, Err(Conflict(keys[i], t)))
  {
    assert keys[i] in keys;
    forall l | HasLabels(records, l) && Below(le, l, keys[i])
      ensures forall u :: !Conflicts(SamplesOf(records, l), u) {
      assert l in keys;
      var k :| 0 <= k < |keys| && keys[k] == l;
      BeforeInOrder(keys, le, k, i);
      assert MergedAt(records, keys[k], out[k]);
      OkHasNoConflict(SamplesOf(records, l), out[k].samples);
    }
  }

  // ---------- line and chunk order do not matter ----------

  /** Two sets of export lines say the same: the same label sets, with the same samples each, in whatever lines. */
  ghost predicate SameContent(a: seq<Record>, b: seq<Record>) {
    && (forall l :: HasLabels(a, l) <==> HasLabels(b, l))
    && forall l, x :: x in SamplesOf(a, l) <==> x in SamplesOf(b, l)
  }

  /** Some label set has two samples at one time with different values. */
  ghost predicate AnyConflict(records: seq<Record>) {
    exists l, t :: HasLabels(records, l) && Conflicts(SamplesOf(records, l), t)
  }

  /** Normalizing rejects exactly when two samples of one series share a time with different values. */
  lemma RejectedIff(records: seq<Record>, le: Order, r: Result<seq<Series>, Conflict>)
    requires IsNormalized(records, le, r)
    ensures r.Err? <==> AnyConflict(records)
  {
    if r.Ok? {
      forall l | HasLabels(records, l) ensures forall t :: !Conflicts(SamplesOf(records, l), t) {
        var i :| 0 <= i < |r.value| && r.value[i].labels == l;
        OkHasNoConflict(SamplesOf(records, l), r.value[i].samples);
      }
    }
  }

  /** The whole normalized list, or its rejection, depends only on the content: not on which lines or chunks held it, in
      which order, or how often. */
  lemma NormalizeOrderIndependent(a: seq<Record>, b: seq<Record>, le: Order, r: Result<seq<Series>, Conflict>,
                                  r': Result<seq<Series>, Conflict>)
    requires TotalOrder(le) && SameContent(a, b) && IsNormalized(a, le, r) && IsNormalized(b, le, r')
    ensures r == r'
  {
    SameConflicts(a, b);
    RejectedIff(a, le, r);
    RejectedIff(b, le, r');
    assert AnyConflict(a) <==> AnyConflict(b);
    if r.Ok? {
      SameSeries(a, b, le, r.value, r'.value);
    } else {
      SameConflict(a, b, le, r.error, r'.error);
    }
  }

  lemma SameConflicts(a: seq<Record>, b: seq<Record>)
    requires SameContent(a, b)
    ensures forall l, t :: Conflicts(SamplesOf(a, l), t) <==> Conflicts(SamplesOf(b, l), t)
  {
    forall l, t ensures Conflicts(SamplesOf(a, l), t) <==> Conflicts(SamplesOf(b, l), t) {
      assert forall x :: x in SamplesOf(a, l) <==> x in SamplesOf(b, l);
    }
  }

  lemma SameConflict(a: seq<Record>, b: seq<Record>, le: Order, c: Conflict, d: Conflict)
    requires TotalOrder(le) && SameContent(a, b) && IsNormalized(a, le, Err(c)) && IsNormalized(b, le, Err(d))
    requires forall l, t :: Conflicts(SamplesOf(a, l), t) <==> Conflicts(SamplesOf(b, l), t)
    ensures c == d
  {
    assert Conflicts(SamplesOf(b, c.labels), c.t) && Conflicts(SamplesOf(a, d.labels), d.t);
    assert c.labels == d.labels;
  }

  lemma SameSeries(a: seq<Record>, b: seq<Record>, le: Order, out: seq<Series>, out': seq<Series>)
    requires TotalOrder(le) && SameContent(a, b) && IsNormalized(a, le, Ok(out)) && IsNormalized(b, le, Ok(out'))
    ensures out == out'
  {
    forall x | x in out ensures x in out' {
      SeriesIn(a, b, le, out, out', x);
    }
    forall x | x in out' ensures x in out {
      SeriesIn(b, a, le, out', out, x);
    }
    RankedUnique(out, out', le);
  }

  lemma SeriesIn(a: seq<Record>, b: seq<Record>, le: Order, out: seq<Series>, out': seq<Series>, x: Series)
    requires SameContent(a, b) && IsNormalized(a, le, Ok(out)) && IsNormalized(b, le, Ok(out')) && x in out
    ensures x in out'
  {
    var i :| 0 <= i < |out| && out[i] == x;
    assert HasLabels(a, x.labels) && HasLabels(b, x.labels);
    var j :| 0 <= j < |out'| && out'[j].labels == x.labels;
    MergeOrderIndependent(SamplesOf(a, x.labels), Ok(x.samples), SamplesOf(b, x.labels), Ok(out'[j].samples));
    assert out'[j] == x;
  }

  lemma {:induction false} RankedUnique(a: seq<Series>, b: seq<Series>, le: Order)
    requires TotalOrder(le)
    requires forall i, j :: 0 <= i < j < |a| ==> Below(le, a[i].labels, a[j].labels)
    requires forall i, j :: 0 <= i < j < |b| ==> Below(le, b[i].labels, b[j].labels)
    requires forall x :: x in a <==> x in b
    ensures a == b
  {
    if a == [] {
      assert forall i :: 0 <= i < |b| ==> b[i] in b;
    } else {
      assert a[0] in b && b != [] && b[0] in a;
      var i, j :| 0 <= i < |a| && a[i] == b[0] && 0 <= j < |b| && b[j] == a[0];
      var x, y := a[0].labels, b[0].labels;
      assert (i > 0 ==> Below(le, x, y)) && (j > 0 ==> Below(le, y, x));
      assert a[0] == b[0];
      forall x ensures x in a[1..] <==> x in b[1..] {
        assert x in a[1..] <==> x in a && Below(le, a[0].labels, x.labels);
        assert x in b[1..] <==> x in b && Below(le, b[0].labels, x.labels);
      }
      RankedUnique(a[1..], b[1..], le);
      assert a == [a[0]] + a[1..] && b == [b[0]] + b[1..];
    }
  }
}
