/**
 The index discipline of the lagged linear forecaster (eval/selector.py:163-243). The ridge fit and its evaluation are
 arbitrary functions of the rows and targets they are given; a value that is not finite is None.
 */
module LaggedLinear {
  import opened Wrappers

  const STEPS_AHEAD := 6
  const PER_DAY := 144
  const LAGS: seq<nat> := [1, 2, 3, 6, 144]
  const FIRST_VALID := 143
  const FIT_WINDOW := 7 * PER_DAY
  const MIN_ROWS := 200

  type Cell = Option<real>

  type Row = seq<Cell>

  /** Fitting and predicting; no coefficients when the fit fails. */
  datatype Numerics = Numerics(fit: (seq<Row>, seq<Cell>) -> Option<Coefs>, predict: (Coefs, Row) -> Cell)

  datatype Coefs = Coefs(mu: seq<real>, sigma: seq<real>, beta: seq<real>, intercept: real)

  predicate Finite(row: Row) { forall c :: 0 <= c < |row| ==> row[c].Some? }

  /** Lag L of row t is the value at t - (L - 1), when there is one. */
  function Lagged(values: seq<Cell>, t: nat, lag: nat): Cell
    requires t < |values| && 1 <= lag
  {
    if lag - 1 <= t then values[t - (lag - 1)] else None
  }

  /** The features usable at row t. */
  function Design(values: seq<Cell>, t: nat): Row
    requires t < |values|
  {
    seq(|LAGS|, c requires 0 <= c < |LAGS| => Lagged(values, t, LAGS[c]))
  }

  /** Rows lo..hi, both included. */
  function Rows(values: seq<Cell>, lo: nat, hi: int): seq<Row>
    requires hi < |values| && lo <= hi + 1
  {
    seq(hi + 1 - lo, i requires 0 <= i < hi + 1 - lo => Design(values, lo + i))
  }

  function Fallback(values: seq<Cell>, origin: nat, h: nat): Cell
    requires origin < |values|
  {
    var prev := origin + h - PER_DAY;
    if 0 <= prev <= origin then values[prev] else values[origin]
  }

  function AtLeastOne(c: Cell): Cell {
    if c.Some? && c.value < 1.0 then Some(1.0) else c
  }

  function FirstRow(origin: nat): nat {
    if origin - FIT_WINDOW + 1 < FIRST_VALID then FIRST_VALID else origin - FIT_WINDOW + 1
  }

  /** The coefficients for step h, from the rows whose targets are observed at the origin. */
  function Coefficients(num: Numerics, values: seq<Cell>, origin: nat, h: nat): Option<Coefs>
    requires origin < |values| && 1 <= h <= STEPS_AHEAD
  {
    var lo, hi := FirstRow(origin), origin - h;
    if hi - lo + 1 >= MIN_ROWS && Finite(Design(values, origin)) && AllFinite(Rows(values, lo, hi))
    then num.fit(Rows(values, lo, hi), values[lo + h..hi + 1 + h]) else None
  }

  predicate AllFinite(rows: seq<Row>) { forall r :: 0 <= r < |rows| ==> Finite(rows[r]) }

  function StepForecast(num: Numerics, values: seq<Cell>, origin: nat, h: nat): Cell
    requires origin < |values| && 1 <= h <= STEPS_AHEAD
  {
    var coef := Coefficients(num, values, origin, h);
    AtLeastOne(if coef.None? then Fallback(values, origin, h) else num.predict(coef.value, Design(values, origin)))
  }

  function Forecast(num: Numerics, values: seq<Cell>, origin: nat): seq<Cell>
    requires origin < |values|
  {
    seq(STEPS_AHEAD, i requires 0 <= i < STEPS_AHEAD => StepForecast(num, values, origin, i + 1))
  }

  predicate Degraded(num: Numerics, values: seq<Cell>, origin: nat)
    requires origin < |values|
  {
    exists h :: 1 <= h <= STEPS_AHEAD && Coefficients(num, values, origin, h).None?
  }

  /** One series with the forecasts already made for it. */
  class Forecaster {
    const num: Numerics
    const values: seq<Cell>
    var cache: map<nat, (seq<Cell>, bool)>

    /** The cache holds only what would be computed again. */
    ghost predicate Valid()
      reads this
    {
      forall o :: o in cache ==> o < |values| && cache[o] == (Forecast(num, values, o), Degraded(num, values, o))
    }

    constructor (num: Numerics, values: seq<Cell>)
      ensures Valid() && this.num == num && this.values == values
    {
      this.num, this.values, cache := num, values, map[];
    }

    method ForecastAt(origin: nat) returns (out: seq<Cell>, degraded: bool)
      requires Valid() && origin < |values|
      modifies this
      ensures Valid() && out == Forecast(num, values, origin) && degraded == Degraded(num, values, origin)
      ensures |out| == 6 && forall h :: 1 <= h <= 6 ==> out[h - 1] == StepForecast(num, values, origin, h)
      ensures degraded <==> exists h :: 1 <= h <= 6 && Coefficients(num, values, origin, h).None?
    {
      if origin in cache {
        return cache[origin].0, cache[origin].1;
      }
      out, degraded := [], false;
      for h := 1 to STEPS_AHEAD + 1
        invariant Valid() && |out| == h - 1
        invariant forall i :: 0 <= i < h - 1 ==> out[i] == StepForecast(num, values, origin, i + 1)
        invariant degraded <==> exists g :: 1 <= g < h && Coefficients(num, values, origin, g).None?
      {
        var coef := Coefficients(num, values, origin, h);
        if coef.None? {
          degraded := true;
          out := out + [AtLeastOne(Fallback(values, origin, h))];
        } else {
          out := out + [AtLeastOne(num.predict(coef.value, Design(values, origin)))];
        }
      }
      assert out == Forecast(num, values, origin);
      cache := cache[origin := (out, degraded)];
    }
  }

  // ---------- no value after the origin is read ----------

  lemma SameDesign(v: seq<Cell>, w: seq<Cell>, origin: nat, t: nat)
    requires t <= origin < |v| && origin < |w| && v[..origin + 1] == w[..origin + 1]
    ensures Design(v, t) == Design(w, t)
  {
    forall c | 0 <= c < |LAGS| ensures Lagged(v, t, LAGS[c]) == Lagged(w, t, LAGS[c]) {
      SameAt(v, w, origin, if LAGS[c] - 1 <= t then t - (LAGS[c] - 1) else 0);
    }
  }

  lemma SameAt(v: seq<Cell>, w: seq<Cell>, origin: nat, i: nat)
    requires i <= origin < |v| && origin < |w| && v[..origin + 1] == w[..origin + 1]
    ensures v[i] == w[i]
  {
    assert v[..origin + 1][i] == w[..origin + 1][i];
  }

  lemma SameRows(v: seq<Cell>, w: seq<Cell>, origin: nat, lo: nat, hi: int)
    requires origin < |v| && origin < |w| && v[..origin + 1] == w[..origin + 1] && hi <= origin && lo <= hi + 1
    ensures Rows(v, lo, hi) == Rows(w, lo, hi)
  {
    forall i | 0 <= i < hi + 1 - lo ensures Rows(v, lo, hi)[i] == Rows(w, lo, hi)[i] {
      SameDesign(v, w, origin, lo + i);
    }
  }

  lemma SameCoefficients(num: Numerics, v: seq<Cell>, w: seq<Cell>, origin: nat, h: nat)
    requires origin < |v| && origin < |w| && v[..origin + 1] == w[..origin + 1] && 1 <= h <= STEPS_AHEAD
    ensures Coefficients(num, v, origin, h) == Coefficients(num, w, origin, h)
  {
    var lo, hi := FirstRow(origin), origin - h;
    SameDesign(v, w, origin, origin);
    if hi - lo + 1 >= MIN_ROWS {
      SameRows(v, w, origin, lo, hi);
      assert v[lo + h..hi + 1 + h] == v[..origin + 1][lo + h..];
      assert w[lo + h..hi + 1 + h] == w[..origin + 1][lo + h..];
    }
  }

  /** Two series that agree up to the origin get the same forecast and the same degraded mark, whatever the fit does. */
  lemma ReadsNothingLater(num: Numerics, v: seq<Cell>, w: seq<Cell>, origin: nat)
    requires origin < |v| && origin < |w| && v[..origin + 1] == w[..origin + 1]
    ensures Forecast(num, v, origin) == Forecast(num, w, origin)
    ensures Degraded(num, v, origin) == Degraded(num, w, origin)
  {
    SameDesign(v, w, origin, origin);
    forall h | 1 <= h <= STEPS_AHEAD
      ensures Coefficients(num, v, origin, h) == Coefficients(num, w, origin, h)
      ensures StepForecast(num, v, origin, h) == StepForecast(num, w, origin, h)
    {
      SameCoefficients(num, v, w, origin, h);
      SameAt(v, w, origin, origin);
      var prev := origin + h - PER_DAY;
      SameAt(v, w, origin, if 0 <= prev <= origin then prev else 0);
    }
    forall i | 0 <= i < STEPS_AHEAD ensures Forecast(num, v, origin)[i] == Forecast(num, w, origin)[i] {
      assert StepForecast(num, v, origin, i + 1) == StepForecast(num, w, origin, i + 1);
    }
  }

  // ---------- what is fitted and predicted ----------

  /** The value so many steps before t, if the series reaches back that far. */
  function Ago(values: seq<Cell>, t: nat, steps: nat): Cell
    requires t < |values|
  {
    if steps <= t then values[t - steps] else None
  }

  /** The features of row t: its own value, those one, two and five steps before it, and the one 143 steps before it,
      which is a day before the next. */
  lemma DesignIs(values: seq<Cell>, t: nat)
    requires t < |values|
    ensures Design(values, t)
         == [values[t], Ago(values, t, 1), Ago(values, t, 2), Ago(values, t, 5), Ago(values, t, 143)]
  {
  }

  /** The rows a fit at the origin may use: a week back, but none without all its features, up to the last whose target
      is observed. */
  ghost predicate InFit(origin: nat, h: nat, t: int) { 143 <= t && origin - 1007 <= t && t + h <= origin }

  /** All features of a row are known. */
  ghost predicate KnownRow(values: seq<Cell>, t: int) {
    && 143 <= t < |values| && values[t].Some? && values[t - 1].Some? && values[t - 2].Some? && values[t - 5].Some?
    && values[t - 143].Some?
  }

  /** A fit is made: at least 200 rows, every one of them known, and so is the origin's own. */
  ghost predicate Fittable(values: seq<Cell>, origin: nat, h: nat) {
    && 342 <= origin - h && KnownRow(values, origin)
    && forall t :: InFit(origin, h, t) ==> KnownRow(values, t)
  }

  /** Row i of the fit is that of step `first + i`, paired with the value h steps later. */
  ghost predicate Pairs(values: seq<Cell>, origin: nat, h: nat, first: nat, rows: seq<Row>, targets: seq<Cell>) {
    && |rows| == |targets| && (forall t :: InFit(origin, h, t) <==> first <= t < first + |rows|)
    && forall i :: 0 <= i < |rows| ==>
                     && first + i + h < |values| && rows[i] == Design(values, first + i)
                     && targets[i] == values[first + i + h]
  }

  lemma KnownIff(values: seq<Cell>, t: nat)
    requires 143 <= t < |values|
    ensures KnownRow(values, t) <==> Finite(Design(values, t))
  {
    DesignIs(values, t);
    var d := Design(values, t);
    assert d[0] == values[t] && d[1] == values[t - 1] && d[2] == values[t - 2] && d[3] == values[t - 5]
           && d[4] == values[t - 143];
  }

  /** What the coefficients for a step are fitted on, and when there are any to fit. */
  lemma CoefficientsAre(num: Numerics, values: seq<Cell>, origin: nat, h: nat)
      returns (first: nat, rows: seq<Row>, targets: seq<Cell>)
    requires origin < |values| && 1 <= h <= 6
    ensures !Fittable(values, origin, h) ==> Coefficients(num, values, origin, h).None?
    ensures Fittable(values, origin, h) ==>
              && Pairs(values, origin, h, first, rows, targets)
              && Coefficients(num, values, origin, h) == num.fit(rows, targets)
  {
    first, rows, targets := FirstRow(origin), [], [];
    var hi := origin - h;
    if hi - first + 1 >= MIN_ROWS {
      rows, targets := Rows(values, first, hi), values[first + h..hi + 1 + h];
      KnownIff(values, origin);
      forall t | first <= t <= hi ensures KnownRow(values, t) <==> Finite(rows[t - first]) {
        KnownIff(values, t);
      }
      FiniteIff(values, origin, h, first, rows);
    }
  }

  lemma FiniteIff(values: seq<Cell>, origin: nat, h: nat, first: nat, rows: seq<Row>)
    requires forall t :: InFit(origin, h, t) <==> first <= t < first + |rows|
    requires forall t :: first <= t < first + |rows| ==> (KnownRow(values, t) <==> Finite(rows[t - first]))
    ensures AllFinite(rows) <==> forall t :: InFit(origin, h, t) ==> KnownRow(values, t)
  {
    forall r | 0 <= r < |rows| ensures KnownRow(values, first + r) <==> Finite(rows[r]) {
      assert rows[first + r - first] == rows[r];
    }
    if forall t :: InFit(origin, h, t) ==> KnownRow(values, t) {
      forall r | 0 <= r < |rows| ensures Finite(rows[r]) {
        assert InFit(origin, h, first + r);
      }
    }
    if AllFinite(rows) {
      forall t | InFit(origin, h, t) ensures KnownRow(values, t) {
        assert Finite(rows[t - first]);
      }
    }
  }

  /** Without coefficients a step repeats the value a day before its target, or the latest one where there is none; with
      them it is predicted from the origin's features. Either way it is at least one. */
  lemma StepIs(num: Numerics, values: seq<Cell>, origin: nat, h: nat)
    requires origin < |values| && 1 <= h <= 6
    ensures var c, r := Coefficients(num, values, origin, h), StepForecast(num, values, origin, h);
            var raw := if c.Some? then num.predict(c.value, Design(values, origin))
                       else if 144 <= origin + h then values[origin + h - 144] else values[origin];
            && (r.Some? <==> raw.Some?)
            && (r.Some? ==> 1.0 <= r.value && raw.value <= r.value && (r.value == 1.0 || r.value == raw.value))
  {
  }
}
