/**
 Stable sorting by a total preorder, as the collectors' `sorted(...)` calls do it, and the facts their proofs use:
 the result is ordered, keeps every element, and is the only ordered arrangement that keeps equal-keyed elements in
 their input order.
 */
module Ordering {
  import opened Wrappers

  ghost predicate TotalPreorder<T(!new)>(le: (T, T) -> bool) {
    && (forall x, y :: le(x, y) || le(y, x))
    && (forall x, y, z :: le(x, y) && le(y, z) ==> le(x, z))
  }

  ghost predicate Ordered<T>(s: seq<T>, le: (T, T) -> bool) {
    forall i, j :: 0 <= i < j < |s| ==> le(s[i], s[j])
  }

  /** Puts `x` before the first element it is not above. */
  function Insert<T(!new)>(x: T, s: seq<T>, le: (T, T) -> bool): (r: seq<T>)
    ensures |r| == |s| + 1 && forall y :: y in r <==> y == x || y in s
  {
    if s == [] then [x]
    else if le(x, s[0]) then [x] + s
    else
      assert s == [s[0]] + s[1..];
      [s[0]] + Insert(x, s[1..], le)
  }

  function Sort<T(!new)>(s: seq<T>, le: (T, T) -> bool): (r: seq<T>)
    ensures |r| == |s| && forall x :: x in r <==> x in s
  {
    if s == [] then []
    else
      assert s == [s[0]] + s[1..];
      Insert(s[0], Sort(s[1..], le), le)
  }

  lemma {:induction false} InsertOrdered<T(!new)>(x: T, s: seq<T>, le: (T, T) -> bool)
    requires TotalPreorder(le) && Ordered(s, le)
    ensures Ordered(Insert(x, s, le), le)
  {
    if s != [] && !le(x, s[0]) {
      InsertOrdered(x, s[1..], le);
      HeadBelow(x, s, Insert(x, s[1..], le), le);
    }
  }

  lemma HeadBelow<T(!new)>(x: T, s: seq<T>, rest: seq<T>, le: (T, T) -> bool)
    requires TotalPreorder(le) && Ordered(s, le) && s != [] && !le(x, s[0])
    requires forall y :: y in rest <==> y == x || y in s[1..]
    ensures forall j :: 0 <= j < |rest| ==> le(s[0], rest[j])
  {
    forall j | 0 <= j < |rest| ensures le(s[0], rest[j]) {
      var y := rest[j];
      assert y in rest;
      if y != x {
        var i :| 0 <= i < |s[1..]| && s[1..][i] == y;
        assert s[i + 1] == y;
      }
    }
  }

  lemma {:induction false} SortOrdered<T(!new)>(s: seq<T>, le: (T, T) -> bool)
    requires TotalPreorder(le)
    ensures Ordered(Sort(s, le), le)
  {
    if s != [] {
      SortOrdered(s[1..], le);
      InsertOrdered(s[0], Sort(s[1..], le), le);
    }
  }

  ghost predicate Distinct<T>(s: seq<T>) { forall i, j :: 0 <= i < j < |s| ==> s[i] != s[j] }

  lemma ConsDistinct<T>(x: T, s: seq<T>)
    requires Distinct(s) && x !in s
    ensures Distinct([x] + s)
  {
  }

  lemma {:induction false} InsertDistinct<T(!new)>(x: T, s: seq<T>, le: (T, T) -> bool)
    requires x !in s && Distinct(s)
    ensures Distinct(Insert(x, s, le))
  {
    if s == [] {
    } else if le(x, s[0]) {
      ConsDistinct(x, s);
    } else {
      InsertDistinct(x, s[1..], le);
      ConsDistinct(s[0], Insert(x, s[1..], le));
    }
  }

  lemma {:induction false} SortDistinct<T(!new)>(s: seq<T>, le: (T, T) -> bool)
    requires Distinct(s)
    ensures Distinct(Sort(s, le))
  {
    if s != [] {
      SortDistinct(s[1..], le);
      InsertDistinct(s[0], Sort(s[1..], le), le);
    }
  }

  predicate Ascending(s: seq<int>) {
    forall i, j :: 0 <= i < j < |s| ==> s[i] <= s[j]
  }

  predicate StrictlyAscending(s: seq<int>) {
    forall i, j :: 0 <= i < j < |s| ==> s[i] < s[j]
  }

  function SortInts(s: seq<int>): (r: seq<int>)
    ensures Ascending(r)
    ensures |r| == |s|
    ensures forall x :: x in r <==> x in s
  {
    var le := (x: int, y: int) => x <= y;
    var r := Sort(s, le);
    SortOrdered(s, le);
    assert forall i, j :: 0 <= i < j < |r| ==> le(r[i], r[j]);
    r
  }

  // ---------- neighbours of an instant ----------

  /** The greatest element below t. */
  function LastBefore(ts: seq<int>, t: int): (r: Option<int>)
    ensures r.Some? ==> r.value in ts && r.value < t && forall s :: s in ts && s < t ==> s <= r.value
    ensures r.None? <==> forall s :: s in ts ==> t <= s
  {
    if ts == [] then None
    else
      var rest := LastBefore(ts[1..], t);
      assert forall s :: s in ts <==> s == ts[0] || s in ts[1..];
      if ts[0] < t && (rest.None? || rest.value < ts[0]) then Some(ts[0]) else rest
  }

  /** The least element at or after t. */
  function FirstAfter(ts: seq<int>, t: int): (r: Option<int>)
    ensures r.Some? ==> r.value in ts && t <= r.value && forall s :: s in ts && t <= s ==> r.value <= s
    ensures r.None? <==> forall s :: s in ts ==> s < t
  {
    if ts == [] then None
    else
      var rest := FirstAfter(ts[1..], t);
      assert forall s :: s in ts <==> s == ts[0] || s in ts[1..];
      if t <= ts[0] && (rest.None? || ts[0] < rest.value) then Some(ts[0]) else rest
  }

  // ---------- sorting by an integer key ----------

  function ByKey<T>(key: T -> int): (T, T) -> bool {
    (x: T, y: T) => key(x) <= key(y)
  }

  function WithKey<T>(s: seq<T>, key: T -> int, k: int): (r: seq<T>)
    ensures forall x :: x in r ==> x in s && key(x) == k
  {
    if s == [] then []
    else if key(s[0]) == k then [s[0]] + WithKey(s[1..], key, k)
    else WithKey(s[1..], key, k)
  }

  lemma {:induction false} WithKeyConcat<T>(a: seq<T>, b: seq<T>, key: T -> int, k: int)
    ensures WithKey(a + b, key, k) == WithKey(a, key, k) + WithKey(b, key, k)
  {
    if a == [] {
      assert a + b == b;
    } else {
      WithKeyConcat(a[1..], b, key, k);
      assert (a + b)[0] == a[0] && (a + b)[1..] == a[1..] + b;
      assert WithKey(a + b, key, k) == (if key(a[0]) == k then [a[0]] else []) + WithKey(a[1..] + b, key, k);
    }
  }

  lemma {:induction false} InsertStable<T(!new)>(x: T, s: seq<T>, key: T -> int, k: int)
    requires TotalPreorder(ByKey(key)) && Ordered(s, ByKey(key))
    ensures WithKey(Insert(x, s, ByKey(key)), key, k) == WithKey([x] + s, key, k)
  {
    if s != [] && !ByKey(key)(x, s[0]) {
      InsertStable(x, s[1..], key, k);
      assert ([x] + s)[1..] == s && ([x] + s[1..])[1..] == s[1..];
    }
  }

  /** Sorting keeps the elements of each key in their input order. */
  lemma {:induction false} SortStable<T(!new)>(s: seq<T>, key: T -> int, k: int)
    requires TotalPreorder(ByKey(key))
    ensures WithKey(Sort(s, ByKey(key)), key, k) == WithKey(s, key, k)
  {
    if s != [] {
      var rest := Sort(s[1..], ByKey(key));
      SortOrdered(s[1..], ByKey(key));
      SortStable(s[1..], key, k);
      InsertStable(s[0], rest, key, k);
      assert ([s[0]] + rest)[1..] == rest;
    }
  }

  lemma {:induction false} HeadOfKey<T>(s: seq<T>, key: T -> int)
    requires s != []
    ensures WithKey(s, key, key(s[0])) != [] && WithKey(s, key, key(s[0]))[0] == s[0]
  {
  }

  /** There is only one ordered arrangement with given per-key subsequences. */
  lemma {:induction false} OrderedUnique<T(!new)>(a: seq<T>, b: seq<T>, key: T -> int)
    requires Ordered(a, ByKey(key)) && Ordered(b, ByKey(key))
    requires forall k :: WithKey(a, key, k) == WithKey(b, key, k)
    ensures a == b
  {
    if a != [] && b != [] {
      HeadOfKey(a, key);
      HeadOfKey(b, key);
      OrderedHead(a, key, WithKey(a, key, key(b[0]))[0]);
      OrderedHead(b, key, WithKey(b, key, key(a[0]))[0]);
      assert key(a[0]) == key(b[0]) && a[0] == b[0];
      forall k
        ensures WithKey(a[1..], key, k) == WithKey(b[1..], key, k)
      {
        assert WithKey(a, key, k) == WithKey(b, key, k);
        if k == key(a[0]) {
          assert WithKey(a[1..], key, k) == WithKey(a, key, k)[1..];
          assert WithKey(b[1..], key, k) == WithKey(b, key, k)[1..];
        }
      }
      OrderedUnique(a[1..], b[1..], key);
      assert a == [a[0]] + a[1..] && b == [b[0]] + b[1..];
    } else if a != [] {
      HeadOfKey(a, key);
    } else if b != [] {
      HeadOfKey(b, key);
    }
  }

  lemma OrderedHead<T>(s: seq<T>, key: T -> int, x: T)
    requires Ordered(s, ByKey(key)) && x in s
    ensures s != [] && key(s[0]) <= key(x)
  {
    var i :| 0 <= i < |s| && s[i] == x;
    assert i > 0 ==> ByKey(key)(s[0], s[i]);
  }
}
