/** Weighted counts over a hidden history: the truth that the load gate's bounds have to contain. */
module Counting {
  import opened Wrappers

  function Total<T>(es: seq<T>, f: T -> nat): nat {
    if es == [] then 0 else f(es[0]) + Total(es[1..], f)
  }

  lemma {:induction false} TotalMonotone<T>(es: seq<T>, f: T -> nat, g: T -> nat)
    requires forall e :: e in es ==> f(e) <= g(e)
    ensures Total(es, f) <= Total(es, g)
  {
    if es != [] {
      assert es[0] in es;
      TotalMonotone(es[1..], f, g);
    }
  }

  lemma {:induction false} TotalSplit<T>(es: seq<T>, f: T -> nat, g: T -> nat, both: T -> nat)
    requires forall e :: e in es ==> both(e) == f(e) + g(e)
    ensures Total(es, both) == Total(es, f) + Total(es, g)
  {
    if es != [] {
      assert es[0] in es;
      TotalSplit(es[1..], f, g, both);
    }
  }

  /** An interval [low, high] claimed to hold a count. */
  datatype Bounds = Bounds(low: int, high: int) {
    predicate Contains(x: int) { low <= x <= high }

    function Plus(other: Bounds): Bounds { Bounds(low + other.low, high + other.high) }
  }

  function AddTo<E>(acc: Bounds, r: Result<Bounds, E>): Result<Bounds, E> {
    match r
    case Ok(b) => Ok(acc.Plus(b))
    case Err(p) => Err(p)
  }

  /** The sum of the parts, or the first problem. */
  function SumOf<E>(parts: seq<Result<Bounds, E>>): Result<Bounds, E> {
    if parts == [] then Ok(Bounds(0, 0))
    else
      match parts[0]
      case Err(p) => Err(p)
      case Ok(b) => AddTo(b, SumOf(parts[1..]))
  }

  /** The collectors' accumulation of `lo` and `hi` over their series. */
  method Accumulate<E>(parts: seq<Result<Bounds, E>>) returns (r: Result<Bounds, E>)
    ensures r == SumOf(parts)
  {
    var lo, hi := 0, 0;
    var i := 0;
    while i < |parts|
      invariant 0 <= i <= |parts|
      invariant AddTo(Bounds(lo, hi), SumOf(parts[i..])) == SumOf(parts)
    {
      assert parts[i..][1..] == parts[i + 1..];
      match parts[i]
      case Err(p) => return Err(p);
      case Ok(b) => lo, hi := lo + b.low, hi + b.high;
      i := i + 1;
    }
    return Ok(Bounds(lo, hi));
  }

  function SumInts(xs: seq<nat>): nat {
    if xs == [] then 0 else xs[0] + SumInts(xs[1..])
  }

  ghost predicate Holds<E>(part: Result<Bounds, E>, truth: nat) {
    part.Ok? ==> 0 <= part.value.low && part.value.Contains(truth)
  }

  /** Bounds that hold part by part hold for the sum, and a problem of the sum is a problem of some part. */
  lemma {:induction false} SumSound<E>(parts: seq<Result<Bounds, E>>, truths: seq<nat>)
    requires |parts| == |truths| && forall i :: 0 <= i < |parts| ==> Holds(parts[i], truths[i])
    ensures Holds(SumOf(parts), SumInts(truths))
    ensures SumOf(parts).Err? ==> SumOf(parts) in parts
    ensures SumOf(parts).Err? <==> exists i :: 0 <= i < |parts| && parts[i].Err?
  {
    if parts != [] {
      assert Holds(parts[0], truths[0]);
      SumSound(parts[1..], truths[1..]);
      if SumOf(parts[1..]).Err? {
        var i :| 0 <= i < |parts[1..]| && parts[1..][i].Err?;
        assert parts[i + 1].Err?;
      }
    }
  }

  function Lows<E>(parts: seq<Result<Bounds, E>>): (r: seq<nat>)
    requires forall i :: 0 <= i < |parts| ==> parts[i].Ok? && 0 <= parts[i].value.low
    ensures |r| == |parts| && forall i :: 0 <= i < |parts| ==> r[i] == parts[i].value.low
  {
    seq(|parts|, i requires 0 <= i < |parts| => parts[i].value.low)
  }

  function Highs<E>(parts: seq<Result<Bounds, E>>): (r: seq<nat>)
    requires forall i :: 0 <= i < |parts| ==> parts[i].Ok? && 0 <= parts[i].value.high
    ensures |r| == |parts| && forall i :: 0 <= i < |parts| ==> r[i] == parts[i].value.high
  {
    seq(|parts|, i requires 0 <= i < |parts| => parts[i].value.high)
  }

  /** The sum is as narrow as its parts: it is reached when every part is at its lower, or at its upper, bound. */
  lemma {:induction false} SumTight<E>(parts: seq<Result<Bounds, E>>)
    requires forall i :: 0 <= i < |parts| ==> parts[i].Ok? && 0 <= parts[i].value.low <= parts[i].value.high
    ensures SumOf(parts) == Ok(Bounds(SumInts(Lows(parts)), SumInts(Highs(parts))))
  {
    if parts != [] {
      SumTight(parts[1..]);
      assert Lows(parts)[1..] == Lows(parts[1..]) && Highs(parts)[1..] == Highs(parts[1..]);
    }
  }
}
