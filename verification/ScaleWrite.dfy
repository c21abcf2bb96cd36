/**
 The /scale write (k8s-operator/controllers/predictiveautoscaler_controller.go:139-159, 622-661, 1486-1521) as a
 protocol: any number of operators, each going through read, authorization and conditional update one API call at a
 time, between arbitrary steps of other writers and of whoever edits, deletes or re-creates the objects. Updates
 travel on a wire that may delay or repeat them, and an operator may stop or restart at any point.
 */
module ScaleWrite {
  import opened Wrappers

  datatype Deployment = Deployment(uid: int, replicas: int, version: int)

  datatype Autoscaler = Autoscaler(uid: int, generation: int, active: bool)

  /** Every change of the target takes the next resourceVersion, every new object the next UID. */
  datatype Server = Server(target: Option<Deployment>, scaler: Option<Autoscaler>, nextUid: int, nextVersion: int)

  /** What one reconcile decided, from whatever it had read: the target's UID and count, the new count, the autoscaler
      it acted for, and the end of the forecast window when it used a forecast. */
  datatype Decision =
    Decision(uid: int, from: int, to: int, scalerUid: int, generation: int, deadline: Option<int>)

  /** How far one operator's write has come; the version is the one of its Scale read. */
  datatype Phase =
    | Idle
    | Decided(d: Decision)
    | ScaleRead(d: Decision, version: int)
    | ScalerConfirmed(d: Decision, version: int)
    | TargetConfirmed(d: Decision, version: int)

  /** An update on its way to the server, which sees only the UID, the version and the new count. */
  datatype Request = Request(d: Decision, version: int)

  datatype State = State(server: Server, operators: seq<Phase>, wire: seq<Request>, clock: int)

  datatype Step =
    | Tick(now: int)
    // other writers
    | ForeignWrite(replicas: int) | Touch | DeleteTarget | CreateTarget(replicas: int)
    | EditScaler(active: bool) | DeleteScaler | CreateScaler(active: bool)
    // operator o
    | Decide(o: nat, d: Decision) | ReadScale(o: nat) | ConfirmScaler(o: nat) | ConfirmTarget(o: nat)
    | Send(o: nat) | Stop(o: nat)
    // the server receives request i
    | Deliver(i: nat)

  // ---------- the operator's checks ----------

  /** The fresh Scale is the decided object at the decided count. */
  predicate ScaleFresh(s: Server, d: Decision) {
    s.target.Some? && s.target.value.uid == d.uid && s.target.value.replicas == d.from
  }

  predicate ScalerCurrent(s: Server, d: Decision) {
    s.scaler.Some? && s.scaler.value == Autoscaler(d.scalerUid, d.generation, true)
  }

  predicate TargetCurrent(s: Server, d: Decision) { s.target.Some? && s.target.value.uid == d.uid }

  predicate Actionable(d: Decision, now: int) { d.deadline.Some? ==> now < d.deadline.value }

  /** The server applies an update only to the version it names. */
  predicate Accepts(s: Server, q: Request) {
    s.target.Some? && s.target.value.uid == q.d.uid && s.target.value.version == q.version
  }

  // ---------- steps ----------

  function Replace(s: Server, uid: int, replicas: int): Server {
    s.(target := Some(Deployment(uid, replicas, s.nextVersion)), nextVersion := s.nextVersion + 1)
  }

  function ServerStep(s: Server, step: Step): Server {
    match step
    case ForeignWrite(n) => if s.target.Some? then Replace(s, s.target.value.uid, n) else s
    case Touch => if s.target.Some? then Replace(s, s.target.value.uid, s.target.value.replicas) else s
    case DeleteTarget => s.(target := None)
    case CreateTarget(n) => if s.target.None? then Replace(s, s.nextUid, n).(nextUid := s.nextUid + 1) else s
    case EditScaler(on) =>
      if s.scaler.Some?
      then s.(scaler := Some(Autoscaler(s.scaler.value.uid, s.scaler.value.generation + 1, on))) else s
    case DeleteScaler => s.(scaler := None)
    case CreateScaler(on) =>
      if s.scaler.None? then s.(scaler := Some(Autoscaler(s.nextUid, 1, on)), nextUid := s.nextUid + 1) else s
    case _ => s
  }

  /** Operator o's next phase; a failed read or a failed check abandons the write. */
  function PhaseStep(s: State, p: Phase, step: Step): Phase {
    match (step, p)
    case (Decide(_, d), Idle) => Decided(d)
    case (ReadScale(_), Decided(d)) =>
      if ScaleFresh(s.server, d) then ScaleRead(d, s.server.target.value.version) else Idle
    case (ConfirmScaler(_), ScaleRead(d, v)) => if ScalerCurrent(s.server, d) then ScalerConfirmed(d, v) else Idle
    case (ConfirmTarget(_), ScalerConfirmed(d, v)) => if TargetCurrent(s.server, d) then TargetConfirmed(d, v) else Idle
    case (Send(_), TargetConfirmed(_, _)) => Idle
    case (Stop(_), _) => Idle
    case _ => p
  }

  predicate OperatorStep(step: Step) {
    step.Decide? || step.ReadScale? || step.ConfirmScaler? || step.ConfirmTarget? || step.Send? || step.Stop?
  }

  predicate Sends(s: State, step: Step) {
    && step.Send? && step.o < |s.operators| && s.operators[step.o].TargetConfirmed?
    && var p := s.operators[step.o]; Actionable(p.d, s.clock) && p.d.to != p.d.from
  }

  predicate Accepted(s: State, step: Step) {
    step.Deliver? && step.i < |s.wire| && Accepts(s.server, s.wire[step.i])
  }

  function Next(s: State, step: Step): State {
    if step.Tick? then s.(clock := if step.now < s.clock then s.clock else step.now)
    else if step.Deliver? then
      if Accepted(s, step)
      then s.(server := Replace(s.server, s.wire[step.i].d.uid, s.wire[step.i].d.to)) else s
    else if OperatorStep(step) then
      if step.o < |s.operators| then
        s.(operators := s.operators[step.o := PhaseStep(s, s.operators[step.o], step)],
           wire := if Sends(s, step)
                   then s.wire + [Request(s.operators[step.o].d, s.operators[step.o].version)] else s.wire)
      else s
    else s.(server := ServerStep(s.server, step))
  }

  function At(start: State, run: seq<Step>, n: nat): State
    requires n <= |run|
  {
    if n == 0 then start else Next(At(start, run, n - 1), run[n - 1])
  }

  /** Nothing is under way yet. */
  ghost predicate Initial(s: State) {
    && (forall o :: 0 <= o < |s.operators| ==> s.operators[o] == Idle)
    && s.wire == [] && VersionsIssued(s.server)
  }

  ghost predicate VersionsIssued(s: Server) { s.target.Some? ==> s.target.value.version < s.nextVersion }

  // ---------- a version names one state of the target ----------

  /** One step keeps the target or gives it a version never issued before. */
  lemma TargetStep(s: State, step: Step)
    requires VersionsIssued(s.server)
    ensures var t := Next(s, step).server;
            && VersionsIssued(t) && s.server.nextVersion <= t.nextVersion
            && (t.target == s.server.target || t.target.None? || s.server.nextVersion <= t.target.value.version)
  {
  }

  /** The target is still the one seen, or that version is gone for good. */
  ghost predicate SameOrNewer(seen: Server, now: Server) {
    && VersionsIssued(now) && seen.nextVersion <= now.nextVersion
    && (now.target == seen.target || now.target.None? || seen.nextVersion <= now.target.value.version)
  }

  lemma {:induction false} Onward(start: State, run: seq<Step>, r: nat, n: nat)
    requires r <= n <= |run| && VersionsIssued(At(start, run, r).server)
    ensures SameOrNewer(At(start, run, r).server, At(start, run, n).server)
  {
    if r < n {
      Onward(start, run, r, n - 1);
      TargetStep(At(start, run, n - 1), run[n - 1]);
    }
  }

  ghost predicate Unchanged(start: State, run: seq<Step>, r: nat, n: nat) {
    && r <= n <= |run|
    && forall k | r <= k <= n :: At(start, run, k).server.target == At(start, run, r).server.target
  }

  /** If a version is still there, nothing happened to the target in between. */
  lemma VersionUnchanged(start: State, run: seq<Step>, r: nat, n: nat)
    requires r <= n <= |run| && VersionsIssued(At(start, run, r).server) && At(start, run, r).server.target.Some?
    requires At(start, run, n).server.target.Some?
    requires At(start, run, n).server.target.value.version == At(start, run, r).server.target.value.version
    ensures Unchanged(start, run, r, n)
  {
    forall k | r <= k <= n ensures At(start, run, k).server.target == At(start, run, r).server.target {
      Onward(start, run, r, k);
      Onward(start, run, k, n);
    }
  }

  lemma VersionsAlwaysIssued(start: State, run: seq<Step>, n: nat)
    requires n <= |run| && Initial(start)
    ensures VersionsIssued(At(start, run, n).server)
  {
    Onward(start, run, 0, n);
  }

  // ---------- what a phase and a request prove about the past ----------

  /** The Scale read happened at moment r. */
  ghost predicate ReadAt(start: State, run: seq<Step>, r: nat, d: Decision, version: int) {
    r <= |run| && At(start, run, r).server.target == Some(Deployment(d.uid, d.from, version))
  }

  /** The autoscaler was Active at the decided UID and generation at moment g. */
  ghost predicate AuthorizedAt(start: State, run: seq<Step>, g: nat, d: Decision) {
    g <= |run| && At(start, run, g).server.scaler == Some(Autoscaler(d.scalerUid, d.generation, true))
  }

  /** One step of an operator's phase. */
  lemma PhaseStepOf(s: State, step: Step, o: nat)
    requires o < |Next(s, step).operators|
    ensures |Next(s, step).operators| == |s.operators|
    ensures var p, q := s.operators[o], Next(s, step).operators[o];
            && (q.ScaleRead? && q != p ==> s.server.target == Some(Deployment(q.d.uid, q.d.from, q.version)))
            && (q.ScalerConfirmed? && q != p ==>
                  && p == ScaleRead(q.d, q.version)
                  && s.server.scaler == Some(Autoscaler(q.d.scalerUid, q.d.generation, true)))
            && (q.TargetConfirmed? && q != p ==> p == ScalerConfirmed(q.d, q.version))
  {
  }

  lemma {:induction false} ReadMoment(start: State, run: seq<Step>, n: nat, o: nat) returns (r: nat)
    requires Initial(start) && n <= |run| && o < |At(start, run, n).operators|
    requires !At(start, run, n).operators[o].Idle? && !At(start, run, n).operators[o].Decided?
    ensures r < n && ReadAt(start, run, r, At(start, run, n).operators[o].d, At(start, run, n).operators[o].version)
  {
    PhaseStepOf(At(start, run, n - 1), run[n - 1], o);
    var q := At(start, run, n).operators[o];
    if q.ScaleRead? && q != At(start, run, n - 1).operators[o] {
      r := n - 1;
    } else {
      r := ReadMoment(start, run, n - 1, o);
    }
  }

  lemma {:induction false} AuthorizedMoment(start: State, run: seq<Step>, n: nat, o: nat) returns (r: nat, g: nat)
    requires Initial(start) && n <= |run| && o < |At(start, run, n).operators|
    requires At(start, run, n).operators[o].ScalerConfirmed? || At(start, run, n).operators[o].TargetConfirmed?
    ensures r < g < n && ReadAt(start, run, r, At(start, run, n).operators[o].d, At(start, run, n).operators[o].version)
    ensures AuthorizedAt(start, run, g, At(start, run, n).operators[o].d)
  {
    PhaseStepOf(At(start, run, n - 1), run[n - 1], o);
    var q := At(start, run, n).operators[o];
    if q.ScalerConfirmed? && q != At(start, run, n - 1).operators[o] {
      r := ReadMoment(start, run, n - 1, o);
      g := n - 1;
    } else {
      r, g := AuthorizedMoment(start, run, n - 1, o);
    }
  }

  lemma WireStep(s: State, step: Step)
    ensures var w := Next(s, step).wire;
            || w == s.wire
            || (Sends(s, step) && var p := s.operators[step.o]; w == s.wire + [Request(p.d, p.version)])
  {
  }

  /** Every request on the wire: read at r, authorized at g, still actionable when sent at e. */
  lemma {:induction false} RequestMoments(start: State, run: seq<Step>, n: nat, i: nat) returns (r: nat, g: nat, e: nat)
    requires Initial(start) && n <= |run| && i < |At(start, run, n).wire|
    ensures r < g < e < n && ReadAt(start, run, r, At(start, run, n).wire[i].d, At(start, run, n).wire[i].version)
    ensures AuthorizedAt(start, run, g, At(start, run, n).wire[i].d)
    ensures Actionable(At(start, run, n).wire[i].d, At(start, run, e).clock)
  {
    var s := At(start, run, n - 1);
    WireStep(s, run[n - 1]);
    if i < |s.wire| {
      r, g, e := RequestMoments(start, run, n - 1, i);
    } else {
      r, g := AuthorizedMoment(start, run, n - 1, run[n - 1].o);
      e := n - 1;
    }
  }

  // ---------- results ----------

  /**
   In every interleaving, a delivered update is accepted exactly when nothing happened to the target since the Scale
   read it rests on. Then it replaces the decided count on the decided object, and between the read and the commit
   there was a moment at which the autoscaler was Active at the decided UID and generation, and after it one at which
   the forecast was still actionable.
   */
  lemma AcceptedIffUnchanged(start: State, run: seq<Step>, n: nat) returns (r: nat, g: nat, e: nat)
    requires Initial(start) && n < |run| && run[n].Deliver? && run[n].i < |At(start, run, n).wire|
    ensures r < g < e < n
    ensures var q := At(start, run, n).wire[run[n].i];
            && ReadAt(start, run, r, q.d, q.version) && AuthorizedAt(start, run, g, q.d)
            && Actionable(q.d, At(start, run, e).clock)
    ensures Accepted(At(start, run, n), run[n]) <==> Unchanged(start, run, r, n)
    ensures var q := At(start, run, n).wire[run[n].i];
            var before, after := At(start, run, n).server, At(start, run, n + 1).server;
            if Unchanged(start, run, r, n)
            then && before.target == Some(Deployment(q.d.uid, q.d.from, q.version))
                 && after.target == Some(Deployment(q.d.uid, q.d.to, before.nextVersion))
            else after == before
  {
    r, g, e := RequestMoments(start, run, n, run[n].i);
    VersionsAlwaysIssued(start, run, r);
    if Accepted(At(start, run, n), run[n]) {
      VersionUnchanged(start, run, r, n);
    }
    assert At(start, run, n + 1) == Next(At(start, run, n), run[n]);
  }

  /** Two updates that rest on the same version, whether from two operators or one delivered twice, are never both
      accepted. */
  lemma OneUpdatePerVersion(start: State, run: seq<Step>, n: nat, m: nat)
    requires Initial(start) && n < m < |run|
    requires Accepted(At(start, run, n), run[n]) && Accepted(At(start, run, m), run[m])
    ensures At(start, run, n).wire[run[n].i].version < At(start, run, m).wire[run[m].i].version
  {
    VersionsAlwaysIssued(start, run, n);
    TargetStep(At(start, run, n), run[n]);
    assert At(start, run, n + 1) == Next(At(start, run, n), run[n]);
    Onward(start, run, n + 1, m);
  }

  // ---------- an undisturbed write ----------

  /** One operator's whole write, and its delivery. */
  function WriteSteps(s: State, o: nat, d: Decision): seq<Step> {
    [Decide(o, d), ReadScale(o), ConfirmScaler(o), ConfirmTarget(o), Send(o), Deliver(|s.wire|)]
  }

  /**
   The counterpart of the safety theorems: left alone, a write lands exactly when the decision still fits (the target
   has the decided UID and count, the autoscaler the decided UID and generation and is Active), its window is still
   open and it changes the count. It then sets the decided count, and otherwise the server is not touched.
   */
  lemma UndisturbedWriteLandsIff(s: State, o: nat, d: Decision)
    requires o < |s.operators| && s.operators[o] == Idle
    ensures var v, after := s.server, At(s, WriteSteps(s, o, d), 6).server;
            if && v.target.Some? && v.target.value.uid == d.uid && v.target.value.replicas == d.from
               && v.scaler == Some(Autoscaler(d.scalerUid, d.generation, true))
               && (d.deadline.None? || s.clock < d.deadline.value) && d.to != d.from
            then after == v.(target := Some(Deployment(d.uid, d.to, v.nextVersion)), nextVersion := v.nextVersion + 1)
            else after == v
  {
    var run := WriteSteps(s, o, d);
    ConfirmedAfterFour(s, o, d);
    var four := At(s, run, 4);
    var five := Next(four, run[4]);
    assert At(s, run, 5) == five && At(s, run, 6) == Next(five, run[5]);
  }

  /** The decision fits what the server holds. */
  predicate Fits(v: Server, d: Decision) {
    && v.target.Some? && v.target.value.uid == d.uid && v.target.value.replicas == d.from
    && v.scaler == Some(Autoscaler(d.scalerUid, d.generation, true))
  }

  lemma ConfirmedAfterFour(s: State, o: nat, d: Decision)
    requires o < |s.operators| && s.operators[o] == Idle
    ensures At(s, WriteSteps(s, o, d), 4)
         == s.(operators := s.operators[o := if Fits(s.server, d) then TargetConfirmed(d, s.server.target.value.version)
                                             else Idle])
  {
    var run := WriteSteps(s, o, d);
    var v := if ScaleFresh(s.server, d) then ScaleRead(d, s.server.target.value.version) else Idle;
    var c := if v.ScaleRead? && ScalerCurrent(s.server, d) then ScalerConfirmed(d, v.version) else Idle;
    var t := if c.ScalerConfirmed? then TargetConfirmed(d, c.version) else Idle;
    assert s == With(s, o, Idle);
    PhaseTo(s, o, Idle, run[0], Decided(d));
    PhaseTo(s, o, Decided(d), run[1], v);
    PhaseTo(s, o, v, run[2], c);
    PhaseTo(s, o, c, run[3], t);
    assert At(s, run, 0) == s && At(s, run, 1) == With(s, o, Decided(d)) && At(s, run, 2) == With(s, o, v);
    assert At(s, run, 3) == With(s, o, c) && At(s, run, 4) == With(s, o, t);
  }

  /** Operator o in another phase. */
  function With(s: State, o: nat, p: Phase): State
    requires o < |s.operators|
  {
    s.(operators := s.operators[o := p])
  }

  lemma PhaseTo(s: State, o: nat, p: Phase, step: Step, q: Phase)
    requires o < |s.operators| && OperatorStep(step) && !step.Send? && step.o == o
    requires q == PhaseStep(With(s, o, p), p, step)
    ensures Next(With(s, o, p), step) == With(s, o, q)
  {
    assert s.operators[o := p][o := q] == s.operators[o := q];
  }
}
