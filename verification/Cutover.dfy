/**
 The cutover of hack/migrate-api-group.py (lines 477-543) as steps against a cluster that anyone may change in
 between: legacy autoscalers are created, edited, touched and removed, operator pods come and go, replacements become
 ready and unready. A run may stop anywhere and be started again; delete requests may be delivered late or twice. The
 checks before the deletion loop can only stop a run earlier and are not modelled.
 */
module Cutover {
  import opened Wrappers

  datatype Spec = Spec(target: string, settings: string)

  datatype Legacy = Legacy(uid: int, version: int, spec: Spec)

  /** One recorded autoscaler. */
  datatype Entry = Entry(name: string, uid: int, spec: Spec)

  type Inventory = seq<Entry>

  /** The legacy autoscalers by name, the pods of each legacy operator, and the entries whose replacement is ready.
      Every change of an object takes the next version, every new object the next UID. */
  datatype Cluster = Cluster(legacy: map<string, Legacy>, nextUid: int, nextVersion: int, pods: seq<nat>,
      ready: set<nat>)

  /** Where the run is: entry e after o pod reads, its object read at a version, its replacement confirmed, its deletion
      awaited. */
  datatype Phase =
    | Idle
    | Pods(e: nat, o: nat)
    | Read(e: nat, version: int)
    | Confirmed(e: nat, version: int)
    | Waiting(e: nat)
    | Done

  datatype Request = Request(e: nat, version: int)

  datatype State = State(cluster: Cluster, phase: Phase, wire: seq<Request>)

  /** What anyone may do. */
  datatype Interference =
    | Create(name: string, spec: Spec) | Edit(name: string, spec: Spec) | Touch(name: string) | Remove(name: string)
    | SetPods(o: nat, count: nat) | SetReady(e: nat, ready: bool)

  /** What the run does. */
  datatype Move = Begin | Stop | ReadPods | ReadLegacy | Confirm | Send | Poll

  /** Deliver: the server receives delete request i; an object with finalizers stays, marked. */
  datatype Step = Other(x: Interference) | Own(move: Move) | Deliver(i: nat, lingers: bool)

  // ---------- steps ----------

  function Put(c: Cluster, name: string, uid: int, spec: Spec): Cluster {
    c.(legacy := c.legacy[name := Legacy(uid, c.nextVersion, spec)], nextVersion := c.nextVersion + 1)
  }

  function Dropped(c: Cluster, name: string): Cluster {
    c.(legacy := map k | k in c.legacy && k != name :: c.legacy[k])
  }

  function Interfered(c: Cluster, x: Interference): Cluster {
    match x
    case Create(name, spec) => if name in c.legacy then c else Put(c, name, c.nextUid, spec).(nextUid := c.nextUid + 1)
    case Edit(name, spec) => if name in c.legacy then Put(c, name, c.legacy[name].uid, spec) else c
    case Touch(name) => if name in c.legacy then Put(c, name, c.legacy[name].uid, c.legacy[name].spec) else c
    case Remove(name) => Dropped(c, name)
    case SetPods(o, count) => if o < |c.pods| then c.(pods := c.pods[o := count]) else c
    case SetReady(e, on) => c.(ready := if on then c.ready + {e} else c.ready - {e})
  }

  function FromEntry(inv: Inventory, e: nat): Phase { if e < |inv| then Pods(e, 0) else Done }

  predicate Recorded(inv: Inventory, e: nat, x: Legacy) { e < |inv| && x.uid == inv[e].uid && x.spec == inv[e].spec }

  /** The recorded object is not there any more. */
  predicate Gone(inv: Inventory, c: Cluster, e: nat) {
    e < |inv| && (inv[e].name in c.legacy ==> c.legacy[inv[e].name].uid != inv[e].uid)
  }

  function PhaseStep(inv: Inventory, c: Cluster, p: Phase, move: Move): Phase {
    match move
    case Begin => FromEntry(inv, 0)
    case Stop => Idle
    case ReadPods => if p.Pods? && p.o < |c.pods| then (if c.pods[p.o] == 0 then Pods(p.e, p.o + 1) else Idle) else p
    case ReadLegacy => if p.Pods? && p.o == |c.pods| && p.e < |inv| then AfterRead(inv, c, p.e) else p
    case Confirm => if p.Read? then (if p.e in c.ready then Confirmed(p.e, p.version) else Idle) else p
    case Send => if p.Confirmed? then Waiting(p.e) else p
    case Poll => if p.Waiting? && Gone(inv, c, p.e) then FromEntry(inv, p.e + 1) else p
  }

  function AfterRead(inv: Inventory, c: Cluster, e: nat): Phase
    requires e < |inv|
  {
    if inv[e].name !in c.legacy then FromEntry(inv, e + 1)
    else if Recorded(inv, e, c.legacy[inv[e].name]) then Read(e, c.legacy[inv[e].name].version)
    else Idle
  }

  predicate Matches(inv: Inventory, c: Cluster, q: Request) {
    && q.e < |inv| && inv[q.e].name in c.legacy
    && var x := c.legacy[inv[q.e].name]; x.uid == inv[q.e].uid && x.version == q.version
  }

  /** A delivered delete is accepted for exactly the UID and version it names. */
  predicate Accepted(inv: Inventory, s: State, step: Step) {
    step.Deliver? && step.i < |s.wire| && Matches(inv, s.cluster, s.wire[step.i])
  }

  function Deleted(inv: Inventory, c: Cluster, e: nat, lingers: bool): Cluster
    requires e < |inv| && inv[e].name in c.legacy
  {
    var name := inv[e].name;
    if lingers then Put(c, name, c.legacy[name].uid, c.legacy[name].spec) else Dropped(c, name)
  }

  function Next(inv: Inventory, s: State, step: Step): State {
    match step
    case Other(x) => s.(cluster := Interfered(s.cluster, x))
    case Own(move) =>
      State(s.cluster, PhaseStep(inv, s.cluster, s.phase, move),
            if move.Send? && s.phase.Confirmed? then s.wire + [Request(s.phase.e, s.phase.version)] else s.wire)
    case Deliver(i, lingers) =>
      if Accepted(inv, s, step) then s.(cluster := Deleted(inv, s.cluster, s.wire[i].e, lingers)) else s
  }

  /** Nothing is under way; the recorded UIDs and the live versions have been issued. */
  ghost predicate Initial(inv: Inventory, s: State) {
    s.phase == Idle && s.wire == [] && Issued(inv, s.cluster)
  }

  ghost predicate Issued(inv: Inventory, c: Cluster) {
    && (forall name :: name in c.legacy ==> c.legacy[name].version < c.nextVersion)
    && (forall e :: 0 <= e < |inv| ==> inv[e].uid < c.nextUid)
  }

  /** One execution: the inventory, every step, and the state before each of them and after the last. */
  datatype Execution = Execution(inv: Inventory, steps: seq<Step>, states: seq<State>) {
    ghost predicate Valid() {
      && |states| == |steps| + 1 && Initial(inv, states[0])
      && forall i :: 0 <= i < |steps| ==> StepAt(i)
    }

    /** Step i leads from state i to state i + 1. */
    ghost predicate StepAt(i: int) {
      0 <= i < |steps| && |states| == |steps| + 1 && states[i + 1] == Next(inv, states[i], steps[i])
    }

    /** The server accepts the delete that step n delivers. */
    predicate AcceptsAt(n: nat) { n < |steps| && n < |states| && Accepted(inv, states[n], steps[n]) }

    function Operators(): nat
      requires states != []
    {
      |states[0].cluster.pods|
    }
  }

  /** Every sequence of steps is an execution. */
  lemma {:induction false} Played(inv: Inventory, start: State, steps: seq<Step>) returns (x: Execution)
    requires Initial(inv, start)
    ensures x.Valid() && x.inv == inv && x.steps == steps && x.states[0] == start
  {
    if steps == [] {
      x := Execution(inv, [], [start]);
    } else {
      var front, last := steps[..|steps| - 1], steps[|steps| - 1];
      var y := Played(inv, start, front);
      x := Execution(inv, steps, y.states + [Next(inv, y.states[|front|], last)]);
      forall i | 0 <= i < |steps| ensures x.StepAt(i) {
        if i < |front| {
          assert y.StepAt(i);
        }
      }
    }
  }

  // ---------- a version names one state of an object ----------

  function Find(c: Cluster, name: string): Option<Legacy> { if name in c.legacy then Some(c.legacy[name]) else None }

  /** The object under this name is still the one seen, or that version is gone for good. */
  ghost predicate SameOrNewer(seen: Cluster, now: Cluster, name: string) {
    && seen.nextVersion <= now.nextVersion
    && (Find(now, name) == Find(seen, name) || Find(now, name).None?
        || seen.nextVersion <= Find(now, name).value.version)
  }

  lemma ClusterStepOn(inv: Inventory, s: State, step: Step, name: string)
    requires Issued(inv, s.cluster)
    ensures Issued(inv, Next(inv, s, step).cluster) && SameOrNewer(s.cluster, Next(inv, s, step).cluster, name)
    ensures Next(inv, s, step).cluster.nextUid >= s.cluster.nextUid
    ensures |Next(inv, s, step).cluster.pods| == |s.cluster.pods|
  {
  }

  lemma {:induction false} AlwaysIssued(x: Execution, n: nat)
    requires x.Valid() && n <= |x.steps|
    ensures Issued(x.inv, x.states[n].cluster) && |x.states[n].cluster.pods| == x.Operators()
  {
    if n > 0 {
      AlwaysIssued(x, n - 1);
      assert x.StepAt(n - 1);
      ClusterStepOn(x.inv, x.states[n - 1], x.steps[n - 1], "");
    }
  }

  lemma {:induction false} Onward(x: Execution, r: nat, n: nat, name: string)
    requires x.Valid() && r <= n <= |x.steps|
    ensures SameOrNewer(x.states[r].cluster, x.states[n].cluster, name)
  {
    if r < n {
      Onward(x, r, n - 1, name);
      AlwaysIssued(x, n - 1);
      assert x.StepAt(n - 1);
      ClusterStepOn(x.inv, x.states[n - 1], x.steps[n - 1], name);
    }
  }

  // ---------- what the run has seen ----------

  /** The run begun by step b is the one still going before step n. */
  ghost predicate InRun(x: Execution, b: nat, n: nat) {
    b < n <= |x.steps| && x.steps[b] == Own(Begin) && forall k :: b < k < n ==> GoesOn(x.steps[k])
  }

  predicate GoesOn(step: Step) { step != Own(Begin) && step != Own(Stop) }

  /** Operator o had no pod at moment m. */
  ghost predicate NoPod(x: Execution, o: nat, m: nat) {
    m < |x.states| && o < |x.states[m].cluster.pods| && x.states[m].cluster.pods[o] == 0
  }

  /** Operator k had no pod at moment ps[k], one after the other, each of them in the run begun by b. */
  ghost predicate PodsSeen(x: Execution, b: nat, ps: seq<nat>, n: nat) {
    && (forall j, k :: 0 <= j < k < |ps| ==> ps[j] < ps[k])
    && forall k :: 0 <= k < |ps| ==> b < ps[k] < n && NoPod(x, k, ps[k])
  }

  predicate Working(p: Phase) { p.Pods? || p.Read? || p.Confirmed? || p.Waiting? }

  lemma WorkingFrom(inv: Inventory, s: State, step: Step)
    requires Working(Next(inv, s, step).phase) && step != Own(Begin)
    ensures GoesOn(step) && Working(s.phase)
  {
  }

  lemma {:induction false} RunOf(x: Execution, n: nat) returns (b: nat)
    requires x.Valid() && n <= |x.steps| && Working(x.states[n].phase)
    ensures InRun(x, b, n)
  {
    assert x.StepAt(n - 1);
    if x.steps[n - 1] == Own(Begin) {
      b := n - 1;
    } else {
      WorkingFrom(x.inv, x.states[n - 1], x.steps[n - 1]);
      b := RunOf(x, n - 1);
    }
  }

  /** How many operators the run has found without pods for its entry. */
  function Seen(p: Phase, operators: nat): nat {
    if p.Pods? then p.o else if p.Read? || p.Confirmed? then operators else 0
  }

  predicate PastPods(p: Phase) { p.Read? || p.Confirmed? || (p.Pods? && p.o > 0) }

  lemma SeenStep(inv: Inventory, c: Cluster, p: Phase, move: Move)
    requires PastPods(PhaseStep(inv, c, p, move))
    ensures move != Begin && move != Stop && (p.Pods? || p.Read? || p.Confirmed?)
    ensures var k, m := Seen(p, |c.pods|), Seen(PhaseStep(inv, c, p, move), |c.pods|);
            m == k || (m == k + 1 && k < |c.pods| && c.pods[k] == 0)
  {
  }

  lemma StateSeen(inv: Inventory, s: State, step: Step)
    requires PastPods(Next(inv, s, step).phase)
    ensures GoesOn(step) && (s.phase.Pods? || s.phase.Read? || s.phase.Confirmed?)
    ensures var k, m := Seen(s.phase, |s.cluster.pods|), Seen(Next(inv, s, step).phase, |s.cluster.pods|);
            m == k || (m == k + 1 && k < |s.cluster.pods| && s.cluster.pods[k] == 0)
  {
    if step.Own? {
      SeenStep(inv, s.cluster, s.phase, step.move);
    }
  }

  lemma SeenMore(x: Execution, b: nat, ps: seq<nat>, n: nat)
    requires PodsSeen(x, b, ps, n) && b < n && NoPod(x, |ps|, n)
    ensures PodsSeen(x, b, ps + [n], n + 1)
  {
  }

  /** While the run reads pods for an entry, the operators it has read had none; while it holds a read object, all
      had. */
  lemma {:induction false} PodMoments(x: Execution, n: nat) returns (b: nat, ps: seq<nat>)
    requires x.Valid() && n <= |x.steps|
    requires x.states[n].phase.Pods? || x.states[n].phase.Read? || x.states[n].phase.Confirmed?
    ensures InRun(x, b, n) && PodsSeen(x, b, ps, n) && |ps| == Seen(x.states[n].phase, x.Operators())
  {
    if !PastPods(x.states[n].phase) {
      b := RunOf(x, n);
      ps := [];
    } else {
      assert x.StepAt(n - 1);
      AlwaysIssued(x, n - 1);
      StateSeen(x.inv, x.states[n - 1], x.steps[n - 1]);
      b, ps := PodMoments(x, n - 1);
      if |ps| < Seen(x.states[n].phase, x.Operators()) {
        SeenMore(x, b, ps, n - 1);
        ps := ps + [n - 1];
      }
    }
  }

  /** The run begun by b found every operator without pods (at ps), then read entry e's recorded object at moment r. */
  ghost predicate Trail(x: Execution, n: nat, e: nat, version: int, b: nat, ps: seq<nat>, r: nat) {
    && InRun(x, b, n) && b < r < n && r < |x.states| && PodsSeen(x, b, ps, r) && |ps| == x.Operators()
    && e < |x.inv| && Find(x.states[r].cluster, x.inv[e].name) == Some(Legacy(x.inv[e].uid, version, x.inv[e].spec))
  }

  lemma TrailGoesOn(x: Execution, n: nat, e: nat, version: int, b: nat, ps: seq<nat>, r: nat)
    requires n < |x.steps| && Trail(x, n, e, version, b, ps, r) && GoesOn(x.steps[n])
    ensures Trail(x, n + 1, e, version, b, ps, r)
  {
  }

  lemma ReadStep(inv: Inventory, c: Cluster, p: Phase, move: Move)
    requires var q := PhaseStep(inv, c, p, move); q.Read? || q.Confirmed?
    ensures move != Begin && move != Stop
    ensures var q := PhaseStep(inv, c, p, move);
            || ((p.Read? || p.Confirmed?) && p.e == q.e && p.version == q.version
                && (q.Confirmed? ==> p == q || q.e in c.ready))
            || (q.Read? && p == Pods(q.e, |c.pods|) && q.e < |inv|
                && Find(c, inv[q.e].name) == Some(Legacy(inv[q.e].uid, q.version, inv[q.e].spec)))
  {
  }

  /** The same for any step: where a read or confirmed phase came from. */
  lemma HoldingFrom(inv: Inventory, s: State, step: Step)
    requires Next(inv, s, step).phase.Read? || Next(inv, s, step).phase.Confirmed?
    ensures var p, q, c := s.phase, Next(inv, s, step).phase, s.cluster;
            && GoesOn(step)
            && (|| ((p.Read? || p.Confirmed?) && p.e == q.e && p.version == q.version
                    && (q.Confirmed? ==> p == q || q.e in c.ready))
                || (q.Read? && p == Pods(q.e, |c.pods|) && q.e < |inv|
                    && Find(c, inv[q.e].name) == Some(Legacy(inv[q.e].uid, q.version, inv[q.e].spec))))
  {
    if step.Own? {
      ReadStep(inv, s.cluster, s.phase, step.move);
    }
  }

  lemma NewTrail(x: Execution, n: nat, e: nat, version: int) returns (b: nat, ps: seq<nat>)
    requires x.Valid() && n < |x.steps| && GoesOn(x.steps[n])
    requires x.states[n].phase == Pods(e, |x.states[n].cluster.pods|) && e < |x.inv|
    requires Find(x.states[n].cluster, x.inv[e].name) == Some(Legacy(x.inv[e].uid, version, x.inv[e].spec))
    ensures Trail(x, n + 1, e, version, b, ps, n)
  {
    b, ps := PodMoments(x, n);
    AlwaysIssued(x, n);
  }

  lemma {:induction false} ReadTrail(x: Execution, n: nat) returns (b: nat, ps: seq<nat>, r: nat)
    requires x.Valid() && n <= |x.steps| && (x.states[n].phase.Read? || x.states[n].phase.Confirmed?)
    ensures Trail(x, n, x.states[n].phase.e, x.states[n].phase.version, b, ps, r)
  {
    var s, q := x.states[n - 1], x.states[n].phase;
    assert x.StepAt(n - 1);
    HoldingFrom(x.inv, s, x.steps[n - 1]);
    if s.phase.Pods? {
      r := n - 1;
      b, ps := NewTrail(x, n - 1, q.e, q.version);
    } else {
      b, ps, r := ReadTrail(x, n - 1);
      TrailGoesOn(x, n - 1, q.e, q.version, b, ps, r);
    }
  }

  ghost predicate ReadyAt(x: Execution, c: nat, e: nat) { c < |x.states| && e in x.states[c].cluster.ready }

  lemma {:induction false} ConfirmedTrail(x: Execution, n: nat) returns (b: nat, ps: seq<nat>, r: nat, c: nat)
    requires x.Valid() && n <= |x.steps| && x.states[n].phase.Confirmed?
    ensures Trail(x, n, x.states[n].phase.e, x.states[n].phase.version, b, ps, r)
    ensures r < c < n && ReadyAt(x, c, x.states[n].phase.e)
  {
    var s, q := x.states[n - 1], x.states[n].phase;
    assert x.StepAt(n - 1);
    HoldingFrom(x.inv, s, x.steps[n - 1]);
    if s.phase.Confirmed? {
      b, ps, r, c := ConfirmedTrail(x, n - 1);
    } else {
      b, ps, r := ReadTrail(x, n - 1);
      c := n - 1;
    }
    TrailGoesOn(x, n - 1, q.e, q.version, b, ps, r);
  }

  lemma WireStep(inv: Inventory, s: State, step: Step, i: nat)
    requires i < |Next(inv, s, step).wire|
    ensures if i < |s.wire| then Next(inv, s, step).wire[i] == s.wire[i]
            else s.phase.Confirmed? && Next(inv, s, step).wire[i] == Request(s.phase.e, s.phase.version)
  {
  }

  /** Every delete request was sent at step k by a run that had seen all of this. */
  lemma {:induction false} RequestTrail(x: Execution, n: nat, i: nat)
      returns (b: nat, ps: seq<nat>, r: nat, c: nat, k: nat)
    requires x.Valid() && n <= |x.steps| && i < |x.states[n].wire|
    ensures Trail(x, k, x.states[n].wire[i].e, x.states[n].wire[i].version, b, ps, r)
    ensures r < c < k < n && ReadyAt(x, c, x.states[n].wire[i].e)
  {
    assert x.StepAt(n - 1);
    WireStep(x.inv, x.states[n - 1], x.steps[n - 1], i);
    if i < |x.states[n - 1].wire| {
      b, ps, r, c, k := RequestTrail(x, n - 1, i);
    } else {
      b, ps, r, c := ConfirmedTrail(x, n - 1);
      k := n - 1;
    }
  }

  // ---------- results ----------

  /**
   In every execution, with runs stopped and started again anywhere and requests delivered late or twice: an accepted
   delete hits exactly a recorded object, with the recorded UID and spec. In the very run that sent it, every legacy
   operator had been seen without pods, afterwards the object was read, afterwards its replacement was ready; and the
   object has not changed since that read.
   */
  lemma DeleteHitsRecorded(x: Execution, n: nat) returns (b: nat, ps: seq<nat>, r: nat, c: nat, k: nat)
    requires x.Valid() && x.AcceptsAt(n)
    ensures b < r < c < k < n && InRun(x, b, k) && |ps| == x.Operators() && PodsSeen(x, b, ps, r)
    ensures var e := x.states[n].wire[x.steps[n].i].e;
            && e < |x.inv| && x.inv[e].name in x.states[n].cluster.legacy
            && Recorded(x.inv, e, x.states[n].cluster.legacy[x.inv[e].name])
            && Find(x.states[n].cluster, x.inv[e].name) == Find(x.states[r].cluster, x.inv[e].name)
            && ReadyAt(x, c, e)
  {
    b, ps, r, c, k := RequestTrail(x, n, x.steps[n].i);
    AlwaysIssued(x, r);
    Onward(x, r, n, x.inv[x.states[n].wire[x.steps[n].i].e].name);
  }

  // ---------- a moment without any legacy operator pod ----------

  ghost predicate Stopped(c: Cluster) { forall o :: 0 <= o < |c.pods| ==> c.pods[o] == 0 }

  predicate SetsPods(step: Step, o: nat) { step.Other? && step.x.SetPods? && step.x.o == o }

  /** The pod count that steps m..n-1 gave operator o last, if they gave it one. */
  function LastSet(steps: seq<Step>, o: nat, m: nat, n: nat): Option<nat>
    requires n <= |steps|
  {
    if n <= m then None
    else if SetsPods(steps[n - 1], o) then Some(steps[n - 1].x.count)
    else LastSet(steps, o, m, n - 1)
  }

  lemma PodsStep(inv: Inventory, s: State, step: Step, o: nat)
    requires o < |s.cluster.pods|
    ensures |Next(inv, s, step).cluster.pods| == |s.cluster.pods|
    ensures Next(inv, s, step).cluster.pods[o] == if SetsPods(step, o) then step.x.count else s.cluster.pods[o]
  {
  }

  lemma {:induction false} PodsFollow(x: Execution, o: nat, m: nat, n: nat)
    requires x.Valid() && m <= n <= |x.steps| && o < |x.states[m].cluster.pods|
    ensures |x.states[n].cluster.pods| == |x.states[m].cluster.pods|
    ensures x.states[n].cluster.pods[o] == LastSet(x.steps, o, m, n).GetOr(x.states[m].cluster.pods[o])
  {
    if m < n {
      PodsFollow(x, o, m, n - 1);
      assert x.StepAt(n - 1);
      PodsStep(x.inv, x.states[n - 1], x.steps[n - 1], o);
    }
  }

  predicate StartsPods(step: Step) { step.Other? && step.x.SetPods? && step.x.count > 0 }

  ghost predicate NothingStarts(steps: seq<Step>, m: nat, n: nat) {
    n <= |steps| && forall i :: m <= i < n ==> !StartsPods(steps[i])
  }

  lemma {:induction false} NothingSet(steps: seq<Step>, o: nat, m: nat, n: nat)
    requires NothingStarts(steps, m, n)
    ensures LastSet(steps, o, m, n).GetOr(0) == 0
  {
    if m < n {
      NothingSet(steps, o, m, n - 1);
    }
  }

  /** When the last operator has just been found without pods. */
  function LastRead(ps: seq<nat>, r: nat): nat { if ps == [] then r else ps[|ps| - 1] }

  /** Operator o was not left with pods between its own read and moment m. */
  ghost predicate StayedDown(x: Execution, ps: seq<nat>, m: nat, o: nat) {
    o < |ps| && m <= |x.steps| && LastSet(x.steps, o, ps[o], m).GetOr(0) == 0
  }

  lemma PodsAtLastRead(x: Execution, b: nat, ps: seq<nat>, r: nat, m: nat)
    requires x.Valid() && b < r <= |x.steps| && PodsSeen(x, b, ps, r) && |ps| == x.Operators() && m == LastRead(ps, r)
    ensures b < m <= r && PodsSeen(x, b, ps, m + 1)
    ensures Stopped(x.states[m].cluster) <==> forall o :: 0 <= o < |ps| ==> StayedDown(x, ps, m, o)
  {
    AlwaysIssued(x, m);
    assert forall o :: 0 <= o < |ps| ==> ps[o] <= m;
    forall o | 0 <= o < |ps| ensures x.states[m].cluster.pods[o] == 0 <==> StayedDown(x, ps, m, o) {
      assert NoPod(x, o, ps[o]);
      PodsFollow(x, o, ps[o], m);
    }
  }

  lemma QuietReads(x: Execution, ps: seq<nat>, m: nat)
    requires ps != [] && NothingStarts(x.steps, ps[0], m) && forall j, k :: 0 <= j < k < |ps| ==> ps[j] < ps[k]
    ensures forall o :: 0 <= o < |ps| ==> StayedDown(x, ps, m, o)
  {
    forall o | 0 <= o < |ps| ensures StayedDown(x, ps, m, o) {
      assert ps[0] <= ps[o];
      NothingSet(x.steps, o, ps[o], m);
    }
  }

  /**
   For any number of legacy operators: every accepted delete rests on a moment m of its own run, when the last of them
   was found without pods. At m no legacy operator pod exists if and only if no operator was given pods after its own
   read and left with them; in particular when nothing starts a legacy operator pod while the run reads one operator
   after the other.
   */
  lemma StoppedMomentIff(x: Execution, n: nat) returns (b: nat, ps: seq<nat>, m: nat, k: nat)
    requires x.Valid() && x.AcceptsAt(n)
    ensures b < m < k < n && InRun(x, b, k) && |ps| == x.Operators()
    ensures PodsSeen(x, b, ps, m + 1) && (ps != [] ==> m == ps[|ps| - 1])
    ensures Stopped(x.states[m].cluster) <==> forall o :: 0 <= o < |ps| ==> StayedDown(x, ps, m, o)
    ensures ps != [] && NothingStarts(x.steps, ps[0], m) ==> Stopped(x.states[m].cluster)
  {
    var r, c;
    b, ps, r, c, k := DeleteHitsRecorded(x, n);
    m := LastRead(ps, r);
    PodsAtLastRead(x, b, ps, r, m);
    if ps != [] && NothingStarts(x.steps, ps[0], m) {
      QuietReads(x, ps, m);
    }
  }

  /** One operator: nothing can start between its read and itself, so there always was such a moment. */
  lemma OneOperatorMoment(x: Execution, n: nat) returns (b: nat, m: nat, k: nat)
    requires x.Valid() && x.AcceptsAt(n) && x.Operators() == 1
    ensures b < m < k < n && InRun(x, b, k) && Stopped(x.states[m].cluster)
  {
    var ps;
    b, ps, m, k := StoppedMomentIff(x, n);
    assert NothingStarts(x.steps, ps[0], m);
  }

  // ---------- with several operators there need not be one ----------

  const ENTRY := Entry("app", 1, Spec("app", ""))

  /** Of `count` operators the second has a pod. */
  function OverlapPods(count: nat): seq<nat> { seq(count, o => if o == 1 then 1 else 0) }

  /** Then the first is started again, and then the second stopped. */
  function LaterPods(count: nat): seq<nat>
    requires count >= 2
  {
    OverlapPods(count)[0 := 1][1 := 0]
  }

  function OverlapCluster(pods: seq<nat>): Cluster {
    Cluster(map["app" := Legacy(1, 1, Spec("app", ""))], 2, 2, pods, {0})
  }

  function OverlapSteps(count: nat): seq<Step>
    requires count >= 2
  {
    [Own(Begin), Own(ReadPods), Other(SetPods(0, 1)), Other(SetPods(1, 0))]
    + seq(count - 1, _ => Own(ReadPods))
    + [Own(ReadLegacy), Own(Confirm), Own(Send), Deliver(0, false)]
  }

  ghost predicate Overlap(x: Execution, count: nat) {
    && count >= 2 && x.Valid() && x.inv == [ENTRY] && x.steps == OverlapSteps(count)
    && x.states[0] == State(OverlapCluster(OverlapPods(count)), Idle, [])
  }

  lemma OverlapStarts(x: Execution, count: nat)
    requires Overlap(x, count)
    ensures var ps := OverlapPods(count);
            && x.states[1] == State(OverlapCluster(ps), Pods(0, 0), [])
            && x.states[2] == State(OverlapCluster(ps), Pods(0, 1), [])
            && x.states[3] == State(OverlapCluster(ps[0 := 1]), Pods(0, 1), [])
            && x.states[4] == State(OverlapCluster(LaterPods(count)), Pods(0, 1), [])
  {
    assert x.StepAt(0) && x.StepAt(1);
    assert x.StepAt(2) && x.StepAt(3);
  }

  lemma {:induction false} OverlapReads(x: Execution, count: nat, k: nat)
    requires Overlap(x, count) && k <= count - 1
    ensures x.states[4 + k] == State(OverlapCluster(LaterPods(count)), Pods(0, 1 + k), [])
  {
    if k == 0 {
      OverlapStarts(x, count);
    } else {
      OverlapReads(x, count, k - 1);
      assert x.steps[4 + k - 1] == Own(ReadPods);
      assert x.StepAt(4 + k - 1);
    }
  }

  lemma OverlapDeletes(x: Execution, count: nat)
    requires Overlap(x, count)
    ensures |x.steps| == count + 7 && x.steps[count + 6] == Deliver(0, false)
    ensures var c, n := OverlapCluster(LaterPods(count)), count + 3;
            && x.states[n + 1] == State(c, Read(0, 1), [])
            && x.states[n + 2] == State(c, Confirmed(0, 1), [])
            && x.states[n + 3] == State(c, Waiting(0), [Request(0, 1)])
            && x.states[n + 4].cluster.pods == c.pods
  {
    OverlapReads(x, count, count - 1);
    var n := count + 3;
    assert x.steps[n] == Own(ReadLegacy) && x.steps[n + 1] == Own(Confirm) && x.steps[n + 2] == Own(Send);
    assert x.StepAt(n) && x.StepAt(n + 1);
    assert x.StepAt(n + 2) && x.StepAt(n + 3);
  }

  lemma OverlapBusy(x: Execution, count: nat, m: nat)
    requires Overlap(x, count) && m <= count + 7
    ensures m < |x.states| && !Stopped(x.states[m].cluster)
  {
    OverlapDeletes(x, count);
    var pods := OverlapPods(count);
    assert pods[1] == 1 && pods[0 := 1][0] == 1 && LaterPods(count)[0] == 1;
    if m <= 4 {
      OverlapStarts(x, count);
    } else if m <= count + 3 {
      OverlapReads(x, count, m - 4);
    }
  }

  /** For every number of operators from two on there is an execution in which pods start between the reads, the
      delete is accepted, and at no moment at all was every legacy operator without pods. */
  lemma SeveralOperatorsMayOverlap(count: nat) returns (x: Execution)
    requires count >= 2
    ensures x.Valid() && x.Operators() == count && x.AcceptsAt(count + 6)
    ensures forall m :: 0 <= m < |x.states| ==> !Stopped(x.states[m].cluster)
  {
    x := Played([ENTRY], State(OverlapCluster(OverlapPods(count)), Idle, []), OverlapSteps(count));
    OverlapDeletes(x, count);
    forall m | 0 <= m < |x.states| ensures !Stopped(x.states[m].cluster) {
      OverlapBusy(x, count, m);
    }
  }

  // ---------- a finished run ----------

  lemma GoneStep(inv: Inventory, s: State, step: Step, e: nat)
    requires Issued(inv, s.cluster) && Gone(inv, s.cluster, e)
    ensures Gone(inv, Next(inv, s, step).cluster, e)
  {
  }

  /** The entry the run works on; those before it are settled. */
  function Settled(inv: Inventory, p: Phase): nat {
    match p
    case Idle => 0
    case Done => |inv|
    case Pods(e, _) => e
    case Read(e, _) => e
    case Confirmed(e, _) => e
    case Waiting(e) => e
  }

  ghost predicate AllGone(inv: Inventory, c: Cluster, n: nat) {
    forall e :: 0 <= e < n && e < |inv| ==> Gone(inv, c, e)
  }

  lemma SettledStep(inv: Inventory, c: Cluster, p: Phase, move: Move)
    ensures var m := Settled(inv, PhaseStep(inv, c, p, move));
            m <= Settled(inv, p) || (m == Settled(inv, p) + 1 && Gone(inv, c, m - 1)) || (m == |inv| == 0)
  {
  }

  lemma AllGoneStep(inv: Inventory, s: State, step: Step)
    requires Issued(inv, s.cluster) && AllGone(inv, s.cluster, Settled(inv, s.phase))
    ensures AllGone(inv, Next(inv, s, step).cluster, Settled(inv, Next(inv, s, step).phase))
  {
    if step.Own? {
      SettledStep(inv, s.cluster, s.phase, step.move);
    }
    forall e | 0 <= e < Settled(inv, Next(inv, s, step).phase) && e < |inv|
      ensures Gone(inv, Next(inv, s, step).cluster, e) {
      GoneStep(inv, s, step, e);
    }
  }

  /** Whatever happened in between, a run that reaches its end leaves no recorded object behind, for good. */
  lemma {:induction false} FinishedMeansGone(x: Execution, n: nat)
    requires x.Valid() && n <= |x.steps|
    ensures AllGone(x.inv, x.states[n].cluster, Settled(x.inv, x.states[n].phase))
  {
    if n > 0 {
      FinishedMeansGone(x, n - 1);
      AlwaysIssued(x, n - 1);
      assert x.StepAt(n - 1);
      AllGoneStep(x.inv, x.states[n - 1], x.steps[n - 1]);
    }
  }

  // ---------- an undisturbed run ----------

  function After(inv: Inventory, s: State, steps: seq<Step>): State
    decreases steps
  {
    if steps == [] then s else After(inv, Next(inv, s, steps[0]), steps[1..])
  }

  lemma {:induction false} AfterConcat(inv: Inventory, s: State, a: seq<Step>, b: seq<Step>)
    ensures After(inv, s, a + b) == After(inv, After(inv, s, a), b)
    decreases a
  {
    if a == [] {
      assert a + b == b;
    } else {
      AfterConcat(inv, Next(inv, s, a[0]), a[1..], b);
      assert (a + b)[1..] == a[1..] + b;
    }
  }

  /** Nothing stands in the way: no operator pod, every replacement ready, every recorded name absent or the recorded
      object. */
  ghost predicate Ready(inv: Inventory, c: Cluster) {
    && Stopped(c) && (forall e :: 0 <= e < |inv| ==> e in c.ready)
    && (forall e :: 0 <= e < |inv| && inv[e].name in c.legacy ==> Recorded(inv, e, c.legacy[inv[e].name]))
  }

  /** Reading the pods of every operator, none of which has any. */
  lemma {:induction false} ReadsAllPods(inv: Inventory, s: State, e: nat, o: nat) returns (steps: seq<Step>)
    requires Stopped(s.cluster) && s.phase == Pods(e, o) && o <= |s.cluster.pods|
    ensures After(inv, s, steps) == s.(phase := Pods(e, |s.cluster.pods|))
    ensures forall k :: 0 <= k < |steps| ==> steps[k] == Own(ReadPods)
    decreases |s.cluster.pods| - o
  {
    if o == |s.cluster.pods| {
      steps := [];
    } else {
      var next := Next(inv, s, Own(ReadPods));
      assert s.cluster.pods[o] == 0;
      var rest := ReadsAllPods(inv, next, e, o + 1);
      steps := [Own(ReadPods)] + rest;
      assert steps[1..] == rest;
    }
  }

  /** The run's own moves, and the delivery of its request. */
  ghost predicate Undisturbed(steps: seq<Step>) {
    forall k :: 0 <= k < |steps| ==> steps[k].Own? || (steps[k].Deliver? && !steps[k].lingers)
  }

  /** The object is read, its replacement confirmed, its deletion sent, delivered and seen. */
  lemma DeletesEntry(inv: Inventory, s: State, e: nat) returns (steps: seq<Step>)
    requires Ready(inv, s.cluster) && e < |inv| && s.phase == Pods(e, |s.cluster.pods|)
    ensures Undisturbed(steps)
    ensures var t := After(inv, s, steps);
            t.phase == FromEntry(inv, e + 1) && t.cluster == Dropped(s.cluster, inv[e].name)
  {
    var read := Next(inv, s, Own(ReadLegacy));
    if inv[e].name !in s.cluster.legacy {
      steps := [Own(ReadLegacy)];
      assert steps[1..] == [];
      assert Dropped(s.cluster, inv[e].name).legacy == s.cluster.legacy;
      assert After(inv, s, steps) == read;
    } else {
      var deliver := Deliver(|s.wire|, false);
      steps := [Own(ReadLegacy), Own(Confirm), Own(Send), deliver, Own(Poll)];
      var sent := Next(inv, Next(inv, read, Own(Confirm)), Own(Send));
      var done := Next(inv, Next(inv, sent, deliver), Own(Poll));
      assert read.phase == Read(e, s.cluster.legacy[inv[e].name].version);
      assert sent.phase == Waiting(e) && sent.cluster == s.cluster;
      assert Accepted(inv, sent, deliver);
      FiveSteps(inv, s, steps);
      assert After(inv, s, steps) == done;
    }
  }

  lemma FiveSteps(inv: Inventory, s: State, steps: seq<Step>)
    requires |steps| == 5
    ensures After(inv, s, steps)
         == Next(inv, Next(inv, Next(inv, Next(inv, Next(inv, s, steps[0]), steps[1]), steps[2]), steps[3]), steps[4])
  {
    assert steps == steps[..4] + [steps[4]] && steps[..4] == steps[..3] + [steps[3]];
    assert steps[..3] == steps[..2] + [steps[2]] && steps[..2] == steps[..1] + [steps[1]] && steps[..1] == [steps[0]];
    forall k | 0 <= k < 5
      ensures After(inv, s, steps[..k] + [steps[k]]) == Next(inv, After(inv, s, steps[..k]), steps[k])
    {
      AfterConcat(inv, s, steps[..k], [steps[k]]);
      OneStep(inv, After(inv, s, steps[..k]), steps[k]);
    }
    assert steps[..0] == [] && steps[..0] + [steps[0]] == steps[..1];
  }

  lemma OneStep(inv: Inventory, s: State, step: Step)
    ensures After(inv, s, [step]) == Next(inv, s, step)
  {
    assert [step][1..] == [];
  }

  lemma DroppedReady(inv: Inventory, c: Cluster, name: string)
    requires Ready(inv, c)
    ensures Ready(inv, Dropped(c, name))
  {
  }

  ghost predicate NamesGone(inv: Inventory, c: Cluster, from: nat, to: nat) {
    forall e :: from <= e < to && e < |inv| ==> inv[e].name !in c.legacy
  }

  /** Nothing was added, and nothing lost whose name was not recorded. */
  ghost predicate OnlyRecordedLost(inv: Inventory, c: Cluster, d: Cluster) {
    && (forall name :: name in d.legacy ==> name in c.legacy)
    && (forall name :: name in c.legacy && (forall k :: 0 <= k < |inv| ==> inv[k].name != name) ==>
          name in d.legacy && d.legacy[name] == c.legacy[name])
  }

  lemma DroppedLost(inv: Inventory, c: Cluster, e: nat)
    requires e < |inv|
    ensures OnlyRecordedLost(inv, c, Dropped(c, inv[e].name))
  {
  }

  lemma LostTwice(inv: Inventory, c: Cluster, d: Cluster, f: Cluster)
    requires OnlyRecordedLost(inv, c, d) && OnlyRecordedLost(inv, d, f)
    ensures OnlyRecordedLost(inv, c, f)
  {
  }

  lemma {:induction false} FinishesFrom(inv: Inventory, s: State, e: nat) returns (steps: seq<Step>)
    requires Ready(inv, s.cluster) && e <= |inv| && s.phase == FromEntry(inv, e)
    ensures Undisturbed(steps) && After(inv, s, steps).phase == Done
    ensures NamesGone(inv, After(inv, s, steps).cluster, e, |inv|)
    ensures OnlyRecordedLost(inv, s.cluster, After(inv, s, steps).cluster)
    decreases |inv| - e
  {
    if e == |inv| {
      steps := [];
    } else {
      var first := PassesEntry(inv, s, e);
      var there := After(inv, s, first);
      DroppedReady(inv, s.cluster, inv[e].name);
      DroppedLost(inv, s.cluster, e);
      var rest := FinishesFrom(inv, there, e + 1);
      AfterConcat(inv, s, first, rest);
      steps := first + rest;
      var c := After(inv, s, steps).cluster;
      LostTwice(inv, s.cluster, there.cluster, c);
      GoneStays(inv, there.cluster, c, e);
    }
  }

  lemma PassesEntry(inv: Inventory, s: State, e: nat) returns (steps: seq<Step>)
    requires Ready(inv, s.cluster) && e < |inv| && s.phase == Pods(e, 0)
    ensures Undisturbed(steps)
    ensures After(inv, s, steps).phase == FromEntry(inv, e + 1)
    ensures After(inv, s, steps).cluster == Dropped(s.cluster, inv[e].name)
  {
    var podReads := ReadsAllPods(inv, s, e, 0);
    var deletes := DeletesEntry(inv, After(inv, s, podReads), e);
    AfterConcat(inv, s, podReads, deletes);
    steps := podReads + deletes;
  }

  lemma GoneStays(inv: Inventory, c: Cluster, d: Cluster, e: nat)
    requires e < |inv| && inv[e].name !in c.legacy && OnlyRecordedLost(inv, c, d) && NamesGone(inv, d, e + 1, |inv|)
    ensures NamesGone(inv, d, e, |inv|)
  {
  }

  /**
   The counterpart of the safety theorems: left alone, with the operators stopped, every replacement ready and every
   name free or still the recorded object, a run goes through to its end. It removes every recorded name and nothing
   else.
   */
  lemma UndisturbedRunFinishes(inv: Inventory, s: State) returns (steps: seq<Step>)
    requires Ready(inv, s.cluster)
    ensures Undisturbed(steps) && After(inv, s, steps).phase == Done
    ensures var c := After(inv, s, steps).cluster;
            && (forall e :: 0 <= e < |inv| ==> inv[e].name !in c.legacy)
            && OnlyRecordedLost(inv, s.cluster, c)
  {
    var begun := Next(inv, s, Own(Begin));
    var rest := FinishesFrom(inv, begun, 0);
    steps := [Own(Begin)] + rest;
    assert steps[1..] == rest;
  }
}
