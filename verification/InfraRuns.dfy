/**
 Joint scrapes and unhealthy runs of a worker (deploy/prodcluster/infra_events.py): a state is read only at instants
 where all four node conditions were scraped together, and consecutive unhealthy states form one bracketed run.
 */
module InfraRuns {
  import opened Wrappers
  import opened Ordering
  import opened InfraSeries

  // ---------- joint scrapes ----------

  /** The merged series of the four node conditions. */
  datatype Conditions = Conditions(ready: seq<Sample>, disk: seq<Sample>, memory: seq<Sample>, pid: seq<Sample>) {
    function All(): seq<seq<Sample>> { [ready, disk, memory, pid] }

    ghost predicate Merged() { forall s :: s in All() ==> InOrder(s) }

    /** Node conditions are 0 or 1; anything else fails the run. */
    predicate InDomain() {
      forall s, x :: s in All() && x in s && x.v.Some? ==> x.v.value == 0.0 || x.v.value == 1.0
    }

    function HealthyAt(t: int): Option<bool> {
      var r, d, m, p := At(ready, t), At(disk, t), At(memory, t), At(pid, t);
      if r.None? || d.None? || m.None? || p.None? then None
      else Some(r.value == 1.0 && d.value == 0.0 && m.value == 0.0 && p.value == 0.0)
    }
  }

  /** The finite value of a series at exactly t. */
  function At(s: seq<Sample>, t: int): Option<real> {
    if s == [] then None
    else if s[0].t == t && s[0].v.Some? then s[0].v
    else At(s[1..], t)
  }

  datatype Obs = Obs(t: int, healthy: bool)

  function Times(obs: seq<Obs>): (r: seq<int>)
    ensures |r| == |obs| && forall i :: 0 <= i < |obs| ==> r[i] == obs[i].t
  {
    seq(|obs|, i requires 0 <= i < |obs| => obs[i].t)
  }

  /** The instants of `rows` at which every condition has a finite sample. */
  function Join(c: Conditions, rows: seq<Sample>): seq<Obs> {
    if rows == [] then []
    else
      var h := c.HealthyAt(rows[0].t);
      if rows[0].v.Some? && h.Some? then [Obs(rows[0].t, h.value)] + Join(c, rows[1..]) else Join(c, rows[1..])
  }

  function JointScrapes(c: Conditions): seq<Obs> { Join(c, c.ready) }

  ghost predicate HasTime(rows: seq<Sample>, t: int) { exists x :: x in rows && x.t == t }

  lemma {:induction false} JoinMembers(c: Conditions, rows: seq<Sample>, o: Obs)
    requires o in Join(c, rows)
    ensures c.HealthyAt(o.t) == Some(o.healthy) && HasTime(rows, o.t)
  {
    if o in Join(c, rows[1..]) {
      JoinMembers(c, rows[1..], o);
      var x :| x in rows[1..] && x.t == o.t;
      assert x in rows;
    } else {
      assert rows[0] in rows;
    }
  }

  lemma {:induction false} JoinSorted(c: Conditions, rows: seq<Sample>)
    requires InOrder(rows)
    ensures forall i, j :: 0 <= i < j < |Join(c, rows)| ==> Join(c, rows)[i].t < Join(c, rows)[j].t
  {
    if rows != [] {
      JoinSorted(c, rows[1..]);
      var rest := Join(c, rows[1..]);
      forall j | 0 <= j < |rest|
        ensures rows[0].t < rest[j].t
      {
        JoinMembers(c, rows[1..], rest[j]);
      }
    }
  }

  lemma {:induction false} JoinComplete(c: Conditions, rows: seq<Sample>, t: int)
    requires At(rows, t).Some? && c.HealthyAt(t).Some?
    ensures Obs(t, c.HealthyAt(t).value) in Join(c, rows)
  {
    if !(rows[0].t == t && rows[0].v.Some?) {
      JoinComplete(c, rows[1..], t);
    }
  }

  /** The joint scrapes are exactly the instants with all four conditions, in time order, with the state read there. */
  lemma JointScrapesExact(c: Conditions)
    requires c.Merged()
    ensures StrictlyAscending(Times(JointScrapes(c)))
    ensures forall o :: o in JointScrapes(c) <==> c.HealthyAt(o.t) == Some(o.healthy)
  {
    assert c.ready in c.All();
    JoinSorted(c, c.ready);
    forall o | o in JointScrapes(c)
      ensures c.HealthyAt(o.t) == Some(o.healthy)
    {
      JoinMembers(c, c.ready, o);
    }
    forall o: Obs | c.HealthyAt(o.t) == Some(o.healthy)
      ensures o in JointScrapes(c)
    {
      JoinComplete(c, c.ready, o.t);
    }
  }

  // ---------- unhealthy runs ----------

  /** A run of unhealthy observations and the healthy observations around it (None: no observation on that side). */
  datatype Run = Run(first: int, last: int, before: Option<int>, after: Option<int>)

  /** The run of the observations i..j. */
  function RunAt(obs: seq<Obs>, i: nat, j: nat): Run
    requires i <= j < |obs|
  {
    Run(obs[i].t, obs[j].t, if i > 0 then Some(obs[i - 1].t) else None,
        if j + 1 < |obs| then Some(obs[j + 1].t) else None)
  }

  /** i..j is a maximal stretch of unhealthy observations. */
  ghost predicate Stretch(obs: seq<Obs>, i: nat, j: nat) {
    && i <= j < |obs|
    && (forall k :: i <= k <= j ==> !obs[k].healthy)
    && (i > 0 ==> obs[i - 1].healthy)
    && (j + 1 < |obs| ==> obs[j + 1].healthy)
  }

  /** Every unhealthy observation below n is in a reported run, and every reported run is a maximal stretch. */
  ghost predicate Reports(obs: seq<Obs>, runs: seq<Run>, n: nat) {
    && (forall k :: 0 <= k < n && k < |obs| && !obs[k].healthy ==> InRun(obs, runs, k))
    && (forall r :: r in runs ==> exists i: nat, j: nat :: Stretch(obs, i, j) && r == RunAt(obs, i, j))
  }

  ghost predicate InRun(obs: seq<Obs>, runs: seq<Run>, k: nat) {
    exists i: nat, j: nat :: Stretch(obs, i, j) && i <= k <= j && RunAt(obs, i, j) in runs
  }

  method BadRuns(obs: seq<Obs>) returns (out: seq<Run>)
    ensures out == RunsFrom(obs, 0)
  {
    out := [];
    var i := 0;
    while i < |obs|
      invariant 0 <= i <= |obs| && out + RunsFrom(obs, i) == RunsFrom(obs, 0)
    {
      if obs[i].healthy {
        i := i + 1;
        continue;
      }
      var j := i;
      while j + 1 < |obs| && !obs[j + 1].healthy
        invariant i <= j < |obs| && !obs[j].healthy && EndOf(obs, i) == EndOf(obs, j)
      {
        j := j + 1;
      }
      out := out + [RunAt(obs, i, j)];
      i := j + 1;
    }
  }

  /** The last observation of the unhealthy stretch that holds i. */
  function EndOf(obs: seq<Obs>, i: nat): (j: nat)
    requires i < |obs| && !obs[i].healthy
    ensures i <= j < |obs| && (forall k :: i <= k <= j ==> !obs[k].healthy)
    ensures j + 1 < |obs| ==> obs[j + 1].healthy
    decreases |obs| - i
  {
    if i + 1 < |obs| && !obs[i + 1].healthy then EndOf(obs, i + 1) else i
  }

  function RunsFrom(obs: seq<Obs>, i: nat): seq<Run>
    requires i <= |obs|
    decreases |obs| - i
  {
    if i == |obs| then []
    else if obs[i].healthy then RunsFrom(obs, i + 1)
    else [RunAt(obs, i, EndOf(obs, i))] + RunsFrom(obs, EndOf(obs, i) + 1)
  }

  /** An unhealthy observation at or after i is in one of the runs from i on. */
  lemma {:induction false} UnhealthyInRun(obs: seq<Obs>, i: nat, k: nat)
    requires i <= k < |obs| && !obs[k].healthy && (i == 0 || obs[i - 1].healthy || (i < |obs| && obs[i].healthy))
    ensures InRun(obs, RunsFrom(obs, i), k)
    decreases |obs| - i
  {
    if obs[i].healthy {
      UnhealthyInRun(obs, i + 1, k);
    } else {
      var j := EndOf(obs, i);
      assert Stretch(obs, i, j);
      if k > j {
        UnhealthyInRun(obs, j + 1, k);
        var a: nat, b: nat :| Stretch(obs, a, b) && a <= k <= b && RunAt(obs, a, b) in RunsFrom(obs, j + 1);
        assert RunAt(obs, a, b) in RunsFrom(obs, i);
      }
    }
  }

  lemma {:induction false} RunIsStretch(obs: seq<Obs>, i: nat, r: Run)
    requires i <= |obs| && r in RunsFrom(obs, i) && (i == 0 || obs[i - 1].healthy || (i < |obs| && obs[i].healthy))
    ensures exists a: nat, b: nat :: Stretch(obs, a, b) && r == RunAt(obs, a, b)
    decreases |obs| - i
  {
    if obs[i].healthy {
      RunIsStretch(obs, i + 1, r);
    } else {
      var j := EndOf(obs, i);
      assert Stretch(obs, i, j);
      if r != RunAt(obs, i, j) {
        RunIsStretch(obs, j + 1, r);
      }
    }
  }

  /** The runs are exactly the maximal unhealthy stretches, and every unhealthy observation is in one. */
  lemma RunsExact(obs: seq<Obs>)
    ensures Reports(obs, RunsFrom(obs, 0), |obs|)
  {
    forall k | 0 <= k < |obs| && !obs[k].healthy
      ensures InRun(obs, RunsFrom(obs, 0), k)
    {
      UnhealthyInRun(obs, 0, k);
    }
    forall r | r in RunsFrom(obs, 0)
      ensures exists i: nat, j: nat :: Stretch(obs, i, j) && r == RunAt(obs, i, j)
    {
      RunIsStretch(obs, 0, r);
    }
  }
}
