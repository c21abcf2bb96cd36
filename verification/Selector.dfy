/**
 The online arm selector (eval/selector.py:406-459). Arms are the candidates in their canonical order, a missing cost is
 None, and at origin k the newest evidence is the cost of origin k - 6, whose targets have all been observed.
 */
module Selector {
  import opened Wrappers

  const STEPS_AHEAD := 6

  /** One arm's cost at each origin. */
  type Row = seq<Option<real>>

  type Costs = seq<Row>

  type Mix = (real, real) -> real

  /** `mix` folds a cost into the average so far. */
  datatype Params = Params(mix: Mix, minObs: nat, penalty: real, default: nat)

  /** The exponentially weighted average. */
  function Exponential(decay: real): Mix {
    (c: real, e: real) => decay * c + (1.0 - decay) * e
  }

  ghost predicate Table(costs: Costs, n: nat) { costs != [] && forall a :: 0 <= a < |costs| ==> |costs[a]| == n }

  ghost predicate Usable(costs: Costs, n: nat, p: Params) {
    Table(costs, n) && p.default < |costs| && 1 <= p.minObs
  }

  // ---------- evidence ----------

  /** How many origins have matured when origin k is served. */
  function Matured(k: int): nat { if k < STEPS_AHEAD then 0 else k - STEPS_AHEAD + 1 }

  function Seen(row: Row, j: nat): nat
    requires j <= |row|
  {
    if j == 0 then 0 else Seen(row, j - 1) + if row[j - 1].Some? then 1 else 0
  }

  function Smooth(e: Option<real>, c: Option<real>, mix: Mix): Option<real> {
    if c.None? then e else if e.None? then c else Some(mix(c.value, e.value))
  }

  /** The average over the first j costs; a missing one changes nothing. */
  function Average(row: Row, mix: Mix, j: nat): (r: Option<real>)
    requires j <= |row|
    ensures Seen(row, j) > 0 ==> r.Some?
  {
    if j == 0 then None else Smooth(Average(row, mix, j - 1), row[j - 1], mix)
  }

  predicate Started(costs: Costs, p: Params, j: nat)
    requires forall a :: 0 <= a < |costs| ==> j <= |costs[a]|
  {
    forall a :: 0 <= a < |costs| ==> p.minObs <= Seen(costs[a], j)
  }

  /** Every arm's average on the first j costs, once every arm has its observations. */
  function Evidence(costs: Costs, p: Params, j: nat): (r: Option<seq<real>>)
    requires (forall a :: 0 <= a < |costs| ==> j <= |costs[a]|) && 1 <= p.minObs
    ensures r.Some? ==> |r.value| == |costs|
  {
    if Started(costs, p, j)
    then Some(seq(|costs|, a requires 0 <= a < |costs| => Average(costs[a], p.mix, j).value)) else None
  }

  /** What each origin is served on. */
  type History = seq<Option<seq<real>>>

  function HistoryOf(costs: Costs, n: nat, p: Params): (h: History)
    requires Usable(costs, n, p)
    ensures |h| == n && Wide(h, |costs|)
    ensures forall k :: 0 <= k < n ==> h[k] == Evidence(costs, p, Matured(k))
  {
    seq(n, k requires 0 <= k < n => Evidence(costs, p, Matured(k)))
  }

  ghost predicate Wide(h: History, m: nat) { forall k :: 0 <= k < |h| && h[k].Some? ==> |h[k].value| == m }

  // ---------- choice ----------

  /** Least of the keys. */
  function Least(keys: seq<real>): (r: real)
    requires keys != []
    ensures (exists i :: 0 <= i < |keys| && keys[i] == r) && forall i :: 0 <= i < |keys| ==> r <= keys[i]
  {
    if |keys| == 1 then keys[0]
    else
      var front := keys[..|keys| - 1];
      var rest := Least(front);
      assert keys[|keys| - 1] < rest || exists i :: 0 <= i < |front| && keys[i] == front[i] == rest;
      if keys[|keys| - 1] < rest then keys[|keys| - 1] else rest
  }

  function Tolerance(best: real): (t: real)
    ensures t > 0.0
  {
    var size := if best < 0.0 then -best else best;
    if size < 1.0 then 0.000000001 else 0.000000001 * size
  }

  /** The first position from i on whose key is within the bound. */
  function FirstWithin(keys: seq<real>, bound: real, i: nat): (r: nat)
    requires exists j :: i <= j < |keys| && keys[j] <= bound
    ensures i <= r < |keys| && keys[r] <= bound && forall j :: i <= j < r ==> bound < keys[j]
    decreases |keys| - i
  {
    if keys[i] <= bound then i else FirstWithin(keys, bound, i + 1)
  }

  /** The incumbent keeps every tie; otherwise the earliest arm within the tolerance of the best key wins. */
  function Pick(keys: seq<real>, current: nat): (r: nat)
    requires current < |keys|
    ensures r < |keys| && (r != current ==> keys[r] < keys[current])
  {
    var best := Least(keys);
    var bound := best + Tolerance(best);
    if keys[current] <= bound then current else FirstWithin(keys, bound, 0)
  }

  /** Each arm's average, plus the penalty for all but the incumbent. */
  function Keys(averages: seq<real>, penalty: real, current: nat): seq<real> {
    seq(|averages|, a requires 0 <= a < |averages| => averages[a] + (if a == current then 0.0 else penalty))
  }

  function Choice(e: Option<seq<real>>, p: Params, current: nat): (r: nat)
    requires e.Some? ==> current < |e.value|
    ensures if e.Some? then r < |e.value| else r == p.default
  {
    if e.Some? then Pick(Keys(e.value, p.penalty, current), current) else p.default
  }

  /** The incumbent of m arms before origin k. */
  function Incumbent(h: History, m: nat, p: Params, k: nat): (r: nat)
    requires Wide(h, m) && p.default < m && k <= |h|
    ensures r < m
  {
    if k == 0 then p.default else Choice(h[k - 1], p, Incumbent(h, m, p, k - 1))
  }

  /** Origin k was served with what the rule chooses on its history. */
  ghost predicate ServedAt(served: seq<nat>, h: History, m: nat, p: Params, k: nat) {
    && Wide(h, m) && p.default < m && k < |h| && k < |served|
    && served[k] == Incumbent(h, m, p, k + 1)
  }

  ghost predicate ServedBefore(served: seq<nat>, h: History, m: nat, p: Params, n: nat) {
    forall k :: 0 <= k < n ==> ServedAt(served, h, m, p, k)
  }

  /** The arms served over the whole table. */
  ghost predicate IsRun(served: seq<nat>, costs: Costs, n: nat, p: Params) {
    Usable(costs, n, p) && |served| == n && ServedBefore(served, HistoryOf(costs, n, p), |costs|, p, n)
  }

  // ---------- the loop ----------

  /** The running averages and counts are those of the first j costs. */
  ghost predicate Tracks(ewma: seq<Option<real>>, seen: seq<nat>, costs: Costs, mix: Mix, j: nat) {
    && |ewma| == |seen| == |costs|
    && forall a | 0 <= a < |costs| ::
         j <= |costs[a]| && ewma[a] == Average(costs[a], mix, j) && seen[a] == Seen(costs[a], j)
  }

  /** Serves one arm per origin and counts the switches. */
  method RunSelector(costs: Costs, n: nat, p: Params) returns (served: seq<nat>, switches: nat)
    requires Usable(costs, n, p)
    ensures IsRun(served, costs, n, p)
    ensures switches == |Switched(served, p)|
  {
    served, switches := ServeAll(costs, n, p, HistoryOf(costs, n, p));
  }

  /** Origin k's entry is what had matured by then. */
  ghost predicate HistoryAt(h: History, costs: Costs, p: Params, k: nat) {
    && 1 <= p.minObs && k < |h| && (forall a :: 0 <= a < |costs| ==> k < |costs[a]|)
    && h[k] == Evidence(costs, p, Matured(k))
  }

  method ServeAll(costs: Costs, n: nat, p: Params, ghost h: History) returns (served: seq<nat>, switches: nat)
    requires |h| == n && Wide(h, |costs|) && p.default < |costs| && forall k :: 0 <= k < n ==> HistoryAt(h, costs, p, k)
    ensures SoFar(served, switches, h, |costs|, p, n)
  {
    var m := |costs|;
    var ewma: seq<Option<real>> := seq(m, _ => None);
    var seen: seq<nat> := seq(m, _ => 0);
    var current := p.default;
    served, switches := [], 0;
    for k := 0 to n
      invariant Tracks(ewma, seen, costs, p.mix, Matured(k - 1))
      invariant SoFar(served, switches, h, m, p, k) && current == Incumbent(h, m, p, k)
    {
      var choice: nat;
      assert HistoryAt(h, costs, p, k);
      ewma, seen, choice := ServeOne(ewma, seen, costs, p, k, current, h[k]);
      Advance(served, switches, current, choice, h, m, p, k);
      switches := switches + if choice == current then 0 else 1;
      current := choice;
      served := served + [choice];
    }
  }

  /** The loop's outputs before origin k. */
  ghost predicate SoFar(served: seq<nat>, switches: nat, h: History, m: nat, p: Params, k: nat) {
    && Wide(h, m) && p.default < m && k == |served| <= |h|
    && switches == |Switched(served, p)| && ServedBefore(served, h, m, p, k)
  }

  /** Who held the place before origin k. */
  function Before(served: seq<nat>, p: Params, k: nat): nat
    requires k <= |served|
  {
    if k == 0 then p.default else served[k - 1]
  }

  /** Origin i serves another arm than the one before. */
  ghost predicate Changes(served: seq<nat>, p: Params, i: int) {
    0 <= i < |served| && served[i] != Before(served, p, i)
  }

  ghost function Switched(served: seq<nat>, p: Params): set<int> { set i | 0 <= i < |served| && Changes(served, p, i) }

  lemma SwitchedMore(served: seq<nat>, choice: nat, p: Params)
    ensures |Switched(served + [choice], p)|
         == |Switched(served, p)| + if choice != Before(served, p, |served|) then 1 else 0
  {
    var more, k, earlier := served + [choice], |served|, Switched(served, p);
    forall i ensures Changes(more, p, i) <==> Changes(served, p, i) || (i == k && choice != Before(served, p, k)) {
    }
    assert Switched(more, p) == if Changes(more, p, k) then earlier + {k} else earlier;
  }

  lemma CurrentIsBefore(served: seq<nat>, h: History, m: nat, p: Params, k: nat)
    requires Wide(h, m) && p.default < m && k == |served| <= |h| && ServedBefore(served, h, m, p, k)
    ensures Before(served, p, k) == Incumbent(h, m, p, k)
  {
    if k > 0 {
      assert ServedAt(served, h, m, p, k - 1);
    }
  }

  lemma Advance(served: seq<nat>, switches: nat, current: nat, choice: nat, h: History, m: nat, p: Params, k: nat)
    requires k < |h| && SoFar(served, switches, h, m, p, k) && current == Incumbent(h, m, p, k)
    requires choice == Choice(h[k], p, current)
    ensures SoFar(served + [choice], switches + (if choice == current then 0 else 1), h, m, p, k + 1)
    ensures choice == Incumbent(h, m, p, k + 1)
  {
    var more := served + [choice];
    SwitchedMore(served, choice, p);
    CurrentIsBefore(served, h, m, p, k);
    forall i | 0 <= i < k + 1 ensures ServedAt(more, h, m, p, i) {
      if i < k {
        assert ServedAt(served, h, m, p, i) && more[i] == served[i];
      }
    }
  }

  /** One origin: the newly matured costs, then the choice. */
  method ServeOne(ewma0: seq<Option<real>>, seen0: seq<nat>, costs: Costs, p: Params, k: nat, current: nat,
                  ghost e: Option<seq<real>>)
      returns (ewma: seq<Option<real>>, seen: seq<nat>, choice: nat)
    requires Tracks(ewma0, seen0, costs, p.mix, Matured(k - 1)) && forall a :: 0 <= a < |costs| ==> k < |costs[a]|
    requires 1 <= p.minObs && p.default < |costs| && current < |costs| && e == Evidence(costs, p, Matured(k))
    ensures Tracks(ewma, seen, costs, p.mix, Matured(k))
    ensures choice == Choice(e, p, current)
  {
    ewma, seen := ewma0, seen0;
    if k >= STEPS_AHEAD {
      ewma, seen := Mature(ewma, seen, costs, p.mix, k - STEPS_AHEAD);
    }
    choice := Choose(ewma, seen, costs, p, Matured(k), current);
  }

  /** Adds the costs of origin j, arm by arm. */
  method Mature(ewma0: seq<Option<real>>, seen0: seq<nat>, costs: Costs, mix: Mix, j: nat)
      returns (ewma: seq<Option<real>>, seen: seq<nat>)
    requires Tracks(ewma0, seen0, costs, mix, j) && forall a :: 0 <= a < |costs| ==> j < |costs[a]|
    ensures Tracks(ewma, seen, costs, mix, j + 1)
  {
    ewma, seen := ewma0, seen0;
    for a := 0 to |costs|
      invariant |ewma| == |seen| == |costs|
      invariant forall b :: 0 <= b < a ==> ewma[b] == Average(costs[b], mix, j + 1) && seen[b] == Seen(costs[b], j + 1)
      invariant forall b :: a <= b < |costs| ==> ewma[b] == Average(costs[b], mix, j) && seen[b] == Seen(costs[b], j)
    {
      var c := costs[a][j];
      if c.Some? {
        ewma := ewma[a := if ewma[a].None? then c else Some(mix(c.value, ewma[a].value))];
        seen := seen[a := seen[a] + 1];
      }
    }
  }

  /** The default until every arm has its observations, then the best key. */
  method Choose(ewma: seq<Option<real>>, seen: seq<nat>, costs: Costs, p: Params, ghost j: nat, current: nat)
      returns (choice: nat)
    requires Tracks(ewma, seen, costs, p.mix, j) && 1 <= p.minObs && p.default < |costs| && current < |costs|
    ensures choice == Choice(Evidence(costs, p, j), p, current)
  {
    var averages: seq<real> := [];
    for a := 0 to |seen|
      invariant |averages| == a && forall b :: 0 <= b < a ==> p.minObs <= Seen(costs[b], j)
      invariant forall b :: 0 <= b < a ==> averages[b] == Average(costs[b], p.mix, j).value
    {
      if seen[a] < p.minObs {
        assert !Started(costs, p, j);
        return p.default;
      }
      assert Average(costs[a], p.mix, j).Some?;
      averages := averages + [ewma[a].value];
    }
    assert Evidence(costs, p, j).value == averages;
    choice := Pick(Keys(averages, p.penalty, current), current);
  }

  // ---------- what counts as evidence ----------

  /** The origins before j at which the arm's cost was observed. */
  function Observed(row: Row, j: int): set<int> { set i | 0 <= i < |row| && i < j && row[i].Some? }

  lemma {:induction false} SeenCounts(row: Row, j: nat)
    requires j <= |row|
    ensures Seen(row, j) == |Observed(row, j)|
  {
    if j == 0 {
      assert Observed(row, j) == {};
    } else {
      SeenCounts(row, j - 1);
      var before := Observed(row, j - 1);
      assert Observed(row, j) == if row[j - 1].Some? then before + {j - 1} else before;
    }
  }

  /** An origin is decided on evidence exactly when every arm has its observations among the origins at least six
      before it. */
  lemma EvidenceIff(costs: Costs, n: nat, p: Params, k: nat)
    requires Usable(costs, n, p) && k < n
    ensures HistoryOf(costs, n, p)[k].Some?
       <==> forall a :: 0 <= a < |costs| ==> p.minObs <= |Observed(costs[a], k - 5)|
  {
    forall a | 0 <= a < |costs| ensures Seen(costs[a], Matured(k)) == |Observed(costs[a], k - 5)| {
      SeenCounts(costs[a], Matured(k));
      assert Observed(costs[a], Matured(k)) == Observed(costs[a], k - 5);
    }
  }

  /** The evidence on an arm is its first observed cost with every later observed one mixed in: with i the last of them,
      that cost mixed into what was known before it. */
  ghost predicate IsAverage(row: Row, mix: Mix, j: int, value: real) {
    && Observed(row, j) != {}
    && forall i :: i in Observed(row, j) && (forall l :: l in Observed(row, j) ==> l <= i) ==>
                     || (Observed(row, i) == {} && value == row[i].value)
                     || (exists before :: IsAverageOf(row, mix, i, before) && value == mix(row[i].value, before))
  }

  ghost predicate IsAverageOf(row: Row, mix: Mix, i: int, before: real) {
    0 <= i <= |row| && Average(row, mix, i) == Some(before) && Observed(row, i) != {}
  }

  lemma {:induction false} AverageIs(row: Row, mix: Mix, j: nat)
    requires j <= |row|
    ensures Average(row, mix, j).Some? <==> Observed(row, j) != {}
    ensures Average(row, mix, j).Some? ==> IsAverage(row, mix, j, Average(row, mix, j).value)
  {
    if j == 0 {
      assert Observed(row, j) == {};
    } else {
      AverageIs(row, mix, j - 1);
      if row[j - 1].Some? {
        assert j - 1 in Observed(row, j);
        if Average(row, mix, j - 1).Some? {
          assert IsAverageOf(row, mix, j - 1, Average(row, mix, j - 1).value);
        }
      } else {
        assert Observed(row, j) == Observed(row, j - 1);
      }
    }
  }

  /** So the averages an origin is decided on are those of the costs observed at least six origins before it. */
  lemma EvidenceIsAverage(costs: Costs, n: nat, p: Params, k: nat, a: nat)
    requires Usable(costs, n, p) && k < n && a < |costs| && HistoryOf(costs, n, p)[k].Some?
    ensures IsAverage(costs[a], p.mix, k - 5, HistoryOf(costs, n, p)[k].value[a])
  {
    AverageIs(costs[a], p.mix, Matured(k));
    assert Observed(costs[a], Matured(k)) == Observed(costs[a], k - 5);
  }

  // ---------- causality ----------

  lemma {:induction false} SameEvidence(r: Row, s: Row, mix: Mix, j: nat)
    requires j <= |r| && j <= |s| && forall i :: 0 <= i < j ==> r[i] == s[i]
    ensures Average(r, mix, j) == Average(s, mix, j) && Seen(r, j) == Seen(s, j)
  {
    if j > 0 {
      SameEvidence(r, s, mix, j - 1);
    }
  }

  /** Two tables agree on the costs of the first j origins. */
  ghost predicate Agree(c: Costs, d: Costs, j: nat) {
    |c| == |d| && forall a :: 0 <= a < |c| ==> AgreeRow(c[a], d[a], j)
  }

  ghost predicate AgreeRow(r: Row, s: Row, j: nat) {
    j <= |r| && j <= |s| && forall i :: 0 <= i < j ==> r[i] == s[i]
  }

  lemma SameAverages(c: Costs, d: Costs, p: Params, j: nat)
    requires Agree(c, d, j) && 1 <= p.minObs
    ensures Evidence(c, p, j) == Evidence(d, p, j)
  {
    forall a | 0 <= a < |c|
      ensures Average(c[a], p.mix, j) == Average(d[a], p.mix, j) && Seen(c[a], j) == Seen(d[a], j)
    {
      SameEvidence(c[a], d[a], p.mix, j);
    }
    if Started(c, p, j) {
      assert Evidence(c, p, j).value == Evidence(d, p, j).value;
    }
  }

  lemma {:induction false} SameIncumbent(h: History, g: History, m: nat, p: Params, k: nat)
    requires Wide(h, m) && Wide(g, m) && p.default < m && k <= |h| && k <= |g| && h[..k] == g[..k]
    ensures Incumbent(h, m, p, k) == Incumbent(g, m, p, k)
  {
    if k > 0 {
      assert h[..k - 1] == h[..k][..k - 1] && g[..k - 1] == g[..k][..k - 1];
      assert h[k - 1] == h[..k][k - 1] && g[k - 1] == g[..k][k - 1];
      SameIncumbent(h, g, m, p, k - 1);
    }
  }

  lemma SameHistory(c: Costs, d: Costs, n: nat, p: Params, k: nat)
    requires Usable(c, n, p) && Usable(d, n, p) && |c| == |d| && k < n
    requires forall a, j :: 0 <= a < |c| && 0 <= j <= k - STEPS_AHEAD ==> c[a][j] == d[a][j]
    ensures HistoryOf(c, n, p)[..k + 1] == HistoryOf(d, n, p)[..k + 1]
  {
    var h, g := HistoryOf(c, n, p), HistoryOf(d, n, p);
    forall t | 0 <= t < k + 1 ensures h[t] == g[t] {
      assert Agree(c, d, Matured(t));
      SameAverages(c, d, p, Matured(t));
    }
  }

  /** What is served at origins up to k depends on no cost newer than origin k - 6. */
  lemma Causal(c: Costs, d: Costs, n: nat, p: Params, k: nat, served: seq<nat>, other: seq<nat>)
    requires IsRun(served, c, n, p) && IsRun(other, d, n, p) && |c| == |d| && k < n
    requires forall a, j :: 0 <= a < |c| && 0 <= j <= k - STEPS_AHEAD ==> c[a][j] == d[a][j]
    ensures served[..k + 1] == other[..k + 1]
  {
    SameHistory(c, d, n, p, k);
    forall i | 0 <= i < k + 1 ensures served[i] == other[i] {
      SameServed(HistoryOf(c, n, p), HistoryOf(d, n, p), |c|, p, k, i, served, other);
    }
  }

  lemma SameServed(h: History, g: History, m: nat, p: Params, k: nat, i: nat, served: seq<nat>, other: seq<nat>)
    requires i <= k < |h| == |g| && h[..k + 1] == g[..k + 1] && |served| == |other| == |h|
    requires ServedBefore(served, h, m, p, |h|) && ServedBefore(other, g, m, p, |h|)
    ensures served[i] == other[i]
  {
    assert ServedAt(served, h, m, p, i) && ServedAt(other, g, m, p, i);
    assert h[..i + 1] == h[..k + 1][..i + 1] && g[..i + 1] == g[..k + 1][..i + 1];
    SameIncumbent(h, g, m, p, i + 1);
  }

  // ---------- hysteresis ----------

  lemma {:induction false} SeenGrows(row: Row, i: nat, j: nat)
    requires i <= j <= |row|
    ensures Seen(row, i) <= Seen(row, j)
  {
    if i < j {
      SeenGrows(row, i, j - 1);
    }
  }

  /** Once an origin has evidence, every later one does. */
  ghost predicate Lasting(h: History) { forall i, j :: 0 <= i < j < |h| && h[i].Some? ==> h[j].Some? }

  lemma EvidenceLasts(costs: Costs, n: nat, p: Params)
    requires Usable(costs, n, p)
    ensures Lasting(HistoryOf(costs, n, p))
  {
    var h := HistoryOf(costs, n, p);
    forall i, j | 0 <= i < j < n && h[i].Some? ensures h[j].Some? {
      assert h[i] == Evidence(costs, p, Matured(i)) && h[j] == Evidence(costs, p, Matured(j));
      forall a | 0 <= a < |costs| ensures p.minObs <= Seen(costs[a], Matured(j)) {
        SeenGrows(costs[a], Matured(i), Matured(j));
      }
    }
  }

  lemma {:induction false} DefaultUntilStarted(h: History, m: nat, p: Params, k: nat)
    requires Wide(h, m) && p.default < m && Lasting(h) && k < |h| && h[k].None?
    ensures Incumbent(h, m, p, k) == p.default
  {
    assert k > 0 ==> h[k - 1].None?;
  }

  /** A switch means that every arm has its observations and the incumbent's average exceeds the winner's by more than
      the penalty. */
  lemma SwitchNeedsMargin(served: seq<nat>, h: History, m: nat, p: Params, k: nat)
    requires Lasting(h) && ServedBefore(served, h, m, p, |h|) && 0 < k < |h| == |served| && served[k - 1] != served[k]
    ensures served[k - 1] < m && served[k] < m && h[k].Some? && |h[k].value| == m
    ensures h[k].value[served[k]] + p.penalty < h[k].value[served[k - 1]]
  {
    assert ServedAt(served, h, m, p, k - 1) && ServedAt(served, h, m, p, k);
    var from, to := served[k - 1], served[k];
    if h[k].None? {
      DefaultUntilStarted(h, m, p, k);
    }
    var keys := Keys(h[k].value, p.penalty, from);
    assert keys[to] == h[k].value[to] + p.penalty && keys[from] == h[k].value[from];
  }

  /** An arm's average, raised by the penalty when it is not the incumbent's. */
  function Penalised(averages: seq<real>, penalty: real, incumbent: nat, a: nat): real
    requires a < |averages|
  {
    averages[a] + if a == incumbent then 0.0 else penalty
  }

  /** No arm's penalised average is below a's by more than a billionth (of its size, when that is above one). */
  ghost predicate NearBest(averages: seq<real>, penalty: real, incumbent: nat, a: nat)
    requires a < |averages|
  {
    exists b :: 0 <= b < |averages| && IsLeast(averages, penalty, incumbent, b)
                && Near(Penalised(averages, penalty, incumbent, a), Penalised(averages, penalty, incumbent, b))
  }

  ghost predicate IsLeast(averages: seq<real>, penalty: real, incumbent: nat, b: nat) {
    b < |averages| && forall c :: 0 <= c < |averages| ==>
                        Penalised(averages, penalty, incumbent, b) <= Penalised(averages, penalty, incumbent, c)
  }

  predicate Near(key: real, best: real) {
    key <= best + 0.000000001 * (if best >= 1.0 then best else if best <= -1.0 then -best else 1.0)
  }

  /**
   What is served at every origin. Without evidence, the default. With it, the incumbent whenever it is near the best
   penalised average, and otherwise the earliest arm that is.
   */
  lemma ServedIsBest(served: seq<nat>, costs: Costs, n: nat, p: Params, k: nat)
    requires IsRun(served, costs, n, p) && k < n
    ensures var e, now := HistoryOf(costs, n, p)[k], Before(served, p, k);
            && (e.None? ==> served[k] == p.default)
            && (e.Some? ==>
                  && now < |e.value| && served[k] < |e.value| == |costs|
                  && NearBest(e.value, p.penalty, now, served[k])
                  && (served[k] != now ==>
                        && !NearBest(e.value, p.penalty, now, now)
                        && forall a :: 0 <= a < served[k] ==> !NearBest(e.value, p.penalty, now, a)))
  {
    var h := HistoryOf(costs, n, p);
    var now := Before(served, p, k);
    assert ServedAt(served, h, |costs|, p, k);
    if k > 0 {
      assert ServedAt(served, h, |costs|, p, k - 1);
    }
    assert now == Incumbent(h, |costs|, p, k);
    if h[k].Some? {
      PickIsBest(h[k].value, p.penalty, now);
    }
  }

  lemma PickIsBest(averages: seq<real>, penalty: real, now: nat)
    requires now < |averages|
    ensures var r := Pick(Keys(averages, penalty, now), now);
            && NearBest(averages, penalty, now, r)
            && (r != now ==> !NearBest(averages, penalty, now, now)
                             && forall a :: 0 <= a < r ==> !NearBest(averages, penalty, now, a))
  {
    var keys := Keys(averages, penalty, now);
    var bound, r := Least(keys) + Tolerance(Least(keys)), Pick(keys, now);
    NearBestIff(averages, penalty, now, keys, now, bound);
    NearBestIff(averages, penalty, now, keys, r, bound);
    if r != now {
      forall a | 0 <= a < r ensures !NearBest(averages, penalty, now, a) {
        NearBestIff(averages, penalty, now, keys, a, bound);
      }
    }
  }

  lemma NearBestIff(averages: seq<real>, penalty: real, now: nat, keys: seq<real>, a: nat, bound: real)
    requires a < |averages| && keys == Keys(averages, penalty, now) && bound == Least(keys) + Tolerance(Least(keys))
    ensures NearBest(averages, penalty, now, a) <==> keys[a] <= bound
  {
    var least := Least(keys);
    LeastPenalised(averages, penalty, now, keys, least);
    NearIff(keys[a], least, bound);
    assert keys[a] == Penalised(averages, penalty, now, a);
  }

  lemma NearIff(key: real, best: real, bound: real)
    requires bound == best + Tolerance(best)
    ensures Near(key, best) <==> key <= bound
  {
  }

  /** The least key is the least penalised average, whichever arm has it. */
  lemma LeastPenalised(averages: seq<real>, penalty: real, now: nat, keys: seq<real>, least: real)
    requires averages != [] && keys == Keys(averages, penalty, now) && least == Least(keys)
    ensures exists b :: 0 <= b < |averages| && IsLeast(averages, penalty, now, b)
    ensures forall b :: 0 <= b < |averages| && IsLeast(averages, penalty, now, b) ==>
                          Penalised(averages, penalty, now, b) == least
  {
    assert forall c :: 0 <= c < |keys| ==> keys[c] == Penalised(averages, penalty, now, c);
    var b :| 0 <= b < |keys| && keys[b] == least;
    assert IsLeast(averages, penalty, now, b);
  }

  /** The first origin never switches: there is no evidence yet. */
  lemma FirstServesDefault(served: seq<nat>, costs: Costs, n: nat, p: Params)
    requires IsRun(served, costs, n, p) && 0 < n
    ensures served[0] == p.default
  {
    var h := HistoryOf(costs, n, p);
    assert ServedAt(served, h, |costs|, p, 0);
    assert Seen(costs[0], 0) == 0;
    assert h[0] == Evidence(costs, p, Matured(0)) && h[0].None?;
    assert Incumbent(h, |costs|, p, 0) == p.default;
  }

  ghost predicate InRange(e: Option<real>, bound: real) { e.Some? ==> 0.0 <= e.value <= bound }

  /** Every finite cost lies in [0, bound]. */
  ghost predicate Bounded(row: Row, bound: real) {
    0.0 <= bound && forall j :: 0 <= j < |row| ==> InRange(row[j], bound)
  }

  /** Mixing values in [0, bound] stays there and moves the average by at most `step`. */
  ghost predicate Gentle(mix: Mix, step: real, bound: real) {
    0.0 <= step && forall c, e :: 0.0 <= c <= bound && 0.0 <= e <= bound ==> GentleAt(mix, step, bound, c, e)
  }

  ghost predicate GentleAt(mix: Mix, step: real, bound: real, c: real, e: real) {
    0.0 <= mix(c, e) <= bound && -step <= mix(c, e) - e <= step
  }

  /** n times the step. */
  function Times(n: nat, step: real): real { if n == 0 then 0.0 else Times(n - 1, step) + step }

  lemma {:induction false} TimesIsProduct(n: nat, step: real)
    ensures Times(n, step) == n as real * step
  {
    if n > 0 {
      TimesIsProduct(n - 1, step);
    }
  }

  lemma {:induction false} TimesGrows(m: nat, n: nat, step: real)
    requires m <= n && 0.0 <= step
    ensures Times(m, step) <= Times(n, step)
  {
    if m < n {
      TimesGrows(m, n - 1, step);
    }
  }

  /** From i costs to j an average moves by at most `step` a cost, with or without missing ones. */
  lemma {:induction false} Drift(row: Row, mix: Mix, step: real, bound: real, i: nat, j: nat)
    requires i <= j <= |row| && Bounded(row, bound) && Gentle(mix, step, bound)
    requires InRange(Average(row, mix, i), bound)
    ensures InRange(Average(row, mix, j), bound)
    ensures Average(row, mix, i).Some? ==>
              && Average(row, mix, j).Some?
              && var move := Average(row, mix, j).value - Average(row, mix, i).value;
                 -Times(j - i, step) <= move <= Times(j - i, step)
  {
    if i < j {
      Drift(row, mix, step, bound, i, j - 1);
      var e, c := Average(row, mix, j - 1), row[j - 1];
      assert InRange(c, bound);
      if e.Some? && c.Some? {
        assert GentleAt(mix, step, bound, c.value, e.value);
      }
    }
  }

  /** From origin i to j an arm's average moves by at most `step` an origin. */
  lemma EvidenceDrift(costs: Costs, n: nat, p: Params, step: real, bound: real, i: nat, j: nat, a: nat)
    requires Usable(costs, n, p) && Gentle(p.mix, step, bound) && a < |costs| && Bounded(costs[a], bound) && i <= j < n
    requires HistoryOf(costs, n, p)[i].Some? && HistoryOf(costs, n, p)[j].Some?
    ensures var h := HistoryOf(costs, n, p);
            var move := h[j].value[a] - h[i].value[a];
            -Times(j - i, step) <= move <= Times(j - i, step)
  {
    Drift(costs[a], p.mix, step, bound, 0, Matured(i));
    Drift(costs[a], p.mix, step, bound, Matured(i), Matured(j));
    TimesGrows(Matured(j) - Matured(i), j - i, step);
    assert HistoryOf(costs, n, p)[i] == Evidence(costs, p, Matured(i));
    assert HistoryOf(costs, n, p)[j] == Evidence(costs, p, Matured(j));
  }

  ghost predicate AllBounded(costs: Costs, bound: real) { forall a :: 0 <= a < |costs| ==> Bounded(costs[a], bound) }

  /** The switch at origin i is undone at origin j. */
  predicate Undone(served: seq<nat>, i: nat, j: nat) {
    0 < i < j < |served| && served[i - 1] != served[i] && served[j - 1] == served[i] && served[j] == served[i - 1]
  }

  /** A switch that is undone moved both averages: their drift exceeds the penalty. */
  lemma UndoneSwitchDrifts(served: seq<nat>, costs: Costs, n: nat, p: Params, step: real, bound: real, i: nat, j: nat)
    requires IsRun(served, costs, n, p) && Undone(served, i, j) && Gentle(p.mix, step, bound)
        && AllBounded(costs, bound)
    ensures Times(j - i, step) > p.penalty
  {
    var h := HistoryOf(costs, n, p);
    EvidenceLasts(costs, n, p);
    SwitchNeedsMargin(served, h, |costs|, p, i);
    SwitchNeedsMargin(served, h, |costs|, p, j);
    EvidenceDrift(costs, n, p, step, bound, i, j, served[i]);
    EvidenceDrift(costs, n, p, step, bound, i, j, served[j]);
  }

  lemma Products(f: real, x: real)
    requires 0.0 <= f && 0.0 <= x
    ensures 0.0 <= f * x
  {
  }

  /** A part f of the way from e to c, as plain numbers. */
  lemma Part(f: real, x: real, bound: real) returns (part: real, limit: real)
    requires 0.0 <= f <= 1.0 && -bound <= x <= bound
    ensures part == f * x && limit == f * bound && -limit <= part <= limit
    ensures if x >= 0.0 then 0.0 <= part <= x else x <= part <= 0.0
  {
    part, limit := f * x, f * bound;
    Products(f, bound - x);
    assert f * (bound - x) == limit - part;
    Products(f, bound + x);
    assert f * (bound + x) == limit + part;
    if x >= 0.0 {
      Products(f, x);
      Products(1.0 - f, x);
      assert (1.0 - f) * x == x - part;
    } else {
      Products(f, -x);
      Products(1.0 - f, -x);
      assert f * -x == -part && (1.0 - f) * -x == part - x;
    }
  }

  lemma Moved(c: real, e: real, part: real, limit: real, bound: real)
    requires 0.0 <= c <= bound && 0.0 <= e <= bound && -limit <= part <= limit
    requires if c >= e then 0.0 <= part <= c - e else c - e <= part <= 0.0
    ensures 0.0 <= e + part <= bound && -limit <= e + part - e <= limit
  {
  }

  lemma ExponentialAt(decay: real, bound: real, c: real, e: real)
    requires 0.0 <= decay <= 1.0 && 0.0 <= c <= bound && 0.0 <= e <= bound
    ensures GentleAt(Exponential(decay), decay * bound, bound, c, e)
  {
    var x := c - e;
    var part, limit := Part(decay, x, bound);
    Moved(c, e, part, limit, bound);
    assert Exponential(decay)(c, e) == e + part;
  }

  lemma ExponentialIsGentle(decay: real, bound: real)
    requires 0.0 <= decay <= 1.0 && 0.0 <= bound
    ensures Gentle(Exponential(decay), decay * bound, bound)
  {
    Products(decay, bound);
    var mix, step := Exponential(decay), decay * bound;
    forall c, e | 0.0 <= c <= bound && 0.0 <= e <= bound ensures GentleAt(mix, step, bound, c, e) {
      ExponentialAt(decay, bound, c, e);
    }
  }

  /** So it takes long enough: with finite costs in [0, M], (j - i) * decay * M exceeds the penalty. */
  lemma UndoneSwitchTakesTime(served: seq<nat>, costs: Costs, n: nat, p: Params, decay: real, bound: real,
      i: nat, j: nat)
    requires p.mix == Exponential(decay) && 0.0 <= decay <= 1.0 && 0.0 <= bound && AllBounded(costs, bound)
    requires IsRun(served, costs, n, p) && Undone(served, i, j)
    ensures (j - i) as real * (decay * bound) > p.penalty
  {
    ExponentialIsGentle(decay, bound);
    UndoneSwitchDrifts(served, costs, n, p, decay * bound, bound, i, j);
    TimesIsProduct(j - i, decay * bound);
  }
}
