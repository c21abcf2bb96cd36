/**
 Slot admission (ml-engine/api/admission.py:20-38 and, with a bounded wait, ml-engine/api/auth.py:237-258) as
 interleaved steps of callers, worker threads and cancellations. A slot is taken before the work is submitted and
 given back only by the future's done callback, so the protocol is about when and how often that callback runs.
 */
module Admission {

  /** A cancelled future was never started. */
  datatype Status = Queued | Running | Finished | Cancelled

  /** Whether the done callback is registered. */
  datatype Hook = Detached | Attached

  /** Submitted work: `due` counts callback invocations that the future owes, and `releases` those that ran. */
  datatype Future = Future(status: Status, hook: Hook, due: int, releases: int)

  datatype Request = Asking | Refused | Holding | NotSubmitted | Submitted(future: Future)

  /** `overfull` records that the bounded semaphore was released beyond its size (it raises). */
  datatype State = State(free: nat, requests: seq<Request>, overfull: bool)

  /** A new request, or what request r does next. */
  datatype Step = Arrive | On(r: nat, act: Act)

  datatype Act =
    | Acquire(patient: bool)   // a patient caller asks again later, an impatient one is refused
    | GiveUp                   // the wait is over, or the caller was cancelled while waiting
    | SubmitFails
    | Submit
    | Work(w: WorkAct)

  datatype WorkAct =
    | Attach                   // add_done_callback: the callback is owed at once when the work is already over
    | Start
    | Finish
    | Cancel                   // by the awaiting caller or a shutdown: only work not yet started is cancelled
    | Callback

  /** Just submitted: queued, without a callback yet. */
  const SUBMITTED := Future(Queued, Detached, 0, 0)

  predicate Over(s: Status) { s.Finished? || s.Cancelled? }

  function Ended(f: Future, status: Status): Future {
    Future(status, f.hook, if f.hook.Attached? then f.due + 1 else f.due, f.releases)
  }

  function AfterAttach(f: Future): Future {
    if f.hook.Attached? then f else Future(f.status, Attached, if Over(f.status) then f.due + 1 else f.due, f.releases)
  }

  function AfterStart(f: Future): Future { if f.status.Queued? then f.(status := Running) else f }

  function AfterFinish(f: Future): Future { if f.status.Running? then Ended(f, Finished) else f }

  function AfterCancel(f: Future): Future { if f.status.Queued? then Ended(f, Cancelled) else f }

  function AfterCallback(f: Future): Future {
    if f.due > 0 then Future(f.status, f.hook, f.due - 1, f.releases + 1) else f
  }

  function Worked(f: Future, w: WorkAct): Future {
    match w
    case Attach => AfterAttach(f)
    case Start => AfterStart(f)
    case Finish => AfterFinish(f)
    case Cancel => AfterCancel(f)
    case Callback => AfterCallback(f)
  }

  /** The request after an act of its own. */
  function Moved(q: Request, free: nat, act: Act): Request {
    match act
    case Acquire(patient) =>
      if !q.Asking? then q else if free > 0 then Holding else if patient then Asking else Refused
    case GiveUp => if q.Asking? then Refused else q
    case SubmitFails => if q.Holding? then NotSubmitted else q
    case Submit => if q.Holding? then Submitted(SUBMITTED) else q
    case Work(w) => if q.Submitted? then Submitted(Worked(q.future, w)) else q
  }

  predicate Takes(q: Request, free: nat, act: Act) { act.Acquire? && q.Asking? && free > 0 }

  predicate Gives(q: Request, act: Act) {
    (act.SubmitFails? && q.Holding?) || (act.Work? && act.w.Callback? && q.Submitted? && q.future.due > 0)
  }

  function Next(s: State, total: nat, step: Step): State {
    match step
    case Arrive => s.(requests := s.requests + [Asking])
    case On(r, act) =>
      if r >= |s.requests| then s
      else
        var q := s.requests[r];
        var moved := s.(requests := s.requests[r := Moved(q, s.free, act)]);
        if Takes(q, s.free, act) then moved.(free := s.free - 1)
        else if !Gives(q, act) then moved
        else if s.free < total then moved.(free := s.free + 1)
        else moved.(overfull := true)
  }

  function At(run: seq<Step>, total: nat, n: nat): State
    requires n <= |run|
  {
    if n == 0 then State(total, [], false) else Next(At(run, total, n - 1), total, run[n - 1])
  }

  // ---------- the invariant ----------

  /** The slot a request holds: from its acquisition until its first release. */
  function Held(q: Request): int {
    match q
    case Holding => 1
    case Submitted(f) => 1 - f.releases
    case _ => 0
  }

  function HeldBy(rs: seq<Request>): int {
    if rs == [] then 0 else HeldBy(rs[..|rs| - 1]) + Held(rs[|rs| - 1])
  }

  /** A future owes or has run its callback once, when it is over and the callback is registered; otherwise never. */
  predicate SoundFuture(f: Future) {
    0 <= f.due && 0 <= f.releases && f.due + f.releases == if Over(f.status) && f.hook.Attached? then 1 else 0
  }

  predicate Sound(q: Request) { q.Submitted? ==> SoundFuture(q.future) }

  ghost predicate AllSound(rs: seq<Request>) { forall i :: 0 <= i < |rs| ==> Sound(rs[i]) }

  ghost predicate Invariant(s: State, total: nat) {
    !s.overfull && s.free + HeldBy(s.requests) == total && AllSound(s.requests)
  }

  lemma {:induction false} HeldUpdated(rs: seq<Request>, i: nat, q: Request)
    requires i < |rs|
    ensures HeldBy(rs[i := q]) == HeldBy(rs) - Held(rs[i]) + Held(q)
  {
    var last := |rs| - 1;
    if i == last {
      assert rs[i := q][..last] == rs[..last];
    } else {
      HeldUpdated(rs[..last], i, q);
      assert rs[i := q][..last] == rs[..last][i := q];
    }
  }

  lemma {:induction false} HeldAtLeast(rs: seq<Request>, i: nat)
    requires i < |rs| && AllSound(rs)
    ensures Held(rs[i]) <= HeldBy(rs)
  {
    var last := |rs| - 1;
    assert Sound(rs[last]);
    if i < last {
      HeldAtLeast(rs[..last], i);
    } else if last > 0 {
      HeldAtLeast(rs[..last], 0);
      assert Sound(rs[0]);
    }
  }

  lemma WorkStep(f: Future, w: WorkAct)
    requires SoundFuture(f)
    ensures SoundFuture(Worked(f, w))
    ensures Worked(f, w).releases == f.releases + if w.Callback? && f.due > 0 then 1 else 0
  {
  }

  lemma SoundMoved(q: Request, free: nat, act: Act)
    requires Sound(q)
    ensures Sound(Moved(q, free, act))
  {
    if act.Work? && q.Submitted? {
      WorkStep(q.future, act.w);
    }
  }

  /** What a request's own act does to its slot. */
  lemma HeldMoved(q: Request, free: nat, act: Act)
    requires Sound(q)
    ensures Held(Moved(q, free, act)) == Held(q) + (if Takes(q, free, act) then 1 else if Gives(q, act) then -1 else 0)
  {
    if act.Work? && q.Submitted? {
      WorkStep(q.future, act.w);
    }
  }

  lemma GivesHeld(q: Request, act: Act)
    requires Sound(q) && Gives(q, act)
    ensures Held(q) == 1
  {
  }

  lemma StepKeeps(s: State, total: nat, step: Step)
    requires Invariant(s, total)
    ensures Invariant(Next(s, total, step), total)
  {
    if step.Arrive? {
      assert (s.requests + [Asking])[..|s.requests|] == s.requests;
    } else if step.r < |s.requests| {
      var q := s.requests[step.r];
      SoundMoved(q, s.free, step.act);
      HeldMoved(q, s.free, step.act);
      if Gives(q, step.act) {
        GivesHeld(q, step.act);
      }
      HeldUpdated(s.requests, step.r, Moved(q, s.free, step.act));
      HeldAtLeast(s.requests, step.r);
    }
  }

  /** In every interleaving, free slots plus slots held by unfinished requests are the configured total, and no release
      ever exceeds it. */
  lemma {:induction false} Conservation(run: seq<Step>, total: nat, n: nat)
    requires n <= |run|
    ensures Invariant(At(run, total, n), total)
  {
    if n > 0 {
      Conservation(run, total, n - 1);
      StepKeeps(At(run, total, n - 1), total, run[n - 1]);
    }
  }

  // ---------- consequences ----------

  predicate Runs(q: Request) { q.Submitted? && q.future.status.Running? }

  function RunningIn(rs: seq<Request>): nat {
    if rs == [] then 0 else RunningIn(rs[..|rs| - 1]) + if Runs(rs[|rs| - 1]) then 1 else 0
  }

  lemma {:induction false} RunningHold(rs: seq<Request>)
    requires AllSound(rs)
    ensures RunningIn(rs) <= HeldBy(rs)
  {
    if rs != [] {
      RunningHold(rs[..|rs| - 1]);
      assert Sound(rs[|rs| - 1]);
    }
  }

  /** Running work never exceeds the slots. */
  lemma RunningBounded(run: seq<Step>, total: nat, n: nat)
    requires n <= |run|
    ensures RunningIn(At(run, total, n).requests) + At(run, total, n).free <= total
  {
    Conservation(run, total, n);
    RunningHold(At(run, total, n).requests);
  }

  /** A slot is given back at most once, and never before its work is over. */
  lemma ReleasedOnceAfterWork(run: seq<Step>, total: nat, n: nat, r: nat)
    requires n <= |run| && r < |At(run, total, n).requests| && At(run, total, n).requests[r].Submitted?
    ensures var f := At(run, total, n).requests[r].future;
            f.releases <= 1 && (f.releases == 1 ==> Over(f.status) && f.hook.Attached? && f.due == 0)
  {
    Conservation(run, total, n);
    assert Sound(At(run, total, n).requests[r]);
  }

  lemma RunningUnreleased(f: Future, w: WorkAct)
    requires SoundFuture(f) && f.status.Running?
    ensures f.releases == 0 && Worked(f, w).releases == 0
  {
    assert f.due == 0;
    WorkStep(f, w);
  }

  lemma CancelIgnored(f: Future)
    requires f.status.Running?
    ensures Worked(f, Cancel) == f
  {
  }

  lemma RunningMoved(q: Request, free: nat, act: Act)
    requires Sound(q) && Runs(q)
    ensures Held(Moved(q, free, act)) == 1
  {
    if act.Work? {
      RunningUnreleased(q.future, act.w);
      assert Moved(q, free, act) == Submitted(Worked(q.future, act.w));
    } else {
      RunningUnreleased(q.future, Start);
      assert Moved(q, free, act) == q;
    }
  }

  lemma RunningStep(s: State, total: nat, step: Step, r: nat)
    requires r < |s.requests| && Sound(s.requests[r]) && Runs(s.requests[r])
    ensures r < |Next(s, total, step).requests| && Held(Next(s, total, step).requests[r]) == 1
  {
    RunningUnreleased(s.requests[r].future, Start);
    if step.On? && step.r == r {
      RunningMoved(s.requests[r], s.free, step.act);
    }
  }

  lemma CancelStep(s: State, total: nat, r: nat)
    requires r < |s.requests| && Runs(s.requests[r])
    ensures Next(s, total, On(r, Work(Cancel))) == s
  {
    CancelIgnored(s.requests[r].future);
    assert s.requests[r := s.requests[r]] == s.requests;
  }

  /** Whatever the step, running work still holds its slot after it, and cancelling its caller changes nothing. */
  lemma RunningWorkKeepsSlot(run: seq<Step>, total: nat, n: nat, r: nat)
    requires n < |run| && r < |At(run, total, n).requests| && Runs(At(run, total, n).requests[r])
    ensures r < |At(run, total, n + 1).requests| && Held(At(run, total, n + 1).requests[r]) == 1
    ensures run[n] == On(r, Work(Cancel)) ==> At(run, total, n + 1) == At(run, total, n)
  {
    Conservation(run, total, n);
    var s := At(run, total, n);
    assert Sound(s.requests[r]);
    RunningStep(s, total, run[n], r);
    CancelStep(s, total, r);
  }

  /** Nothing left to do for a request. */
  predicate Settled(q: Request) {
    match q
    case Holding => false
    case Submitted(f) => Over(f.status) && f.hook.Attached? && f.due == 0
    case _ => true
  }

  lemma {:induction false} SettledHoldNothing(rs: seq<Request>)
    requires AllSound(rs) && forall i :: 0 <= i < |rs| ==> Settled(rs[i])
    ensures HeldBy(rs) == 0
  {
    if rs != [] {
      SettledHoldNothing(rs[..|rs| - 1]);
      assert Sound(rs[|rs| - 1]) && Settled(rs[|rs| - 1]);
    }
  }

  /** No slot leaks: once every request is settled, however it was cancelled or failed, all slots are free again. */
  lemma NothingLeaks(run: seq<Step>, total: nat, n: nat)
    requires n <= |run| && forall i :: 0 <= i < |At(run, total, n).requests| ==> Settled(At(run, total, n).requests[i])
    ensures At(run, total, n).free == total
  {
    Conservation(run, total, n);
    SettledHoldNothing(At(run, total, n).requests);
  }

  /** In every reachable state a caller that asks gets a slot exactly when fewer than the total are held; it is refused
      only when all are, and no other request is affected. */
  lemma GrantedIff(run: seq<Step>, total: nat, n: nat, r: nat, patient: bool)
    requires n <= |run| && r < |At(run, total, n).requests| && At(run, total, n).requests[r].Asking?
    ensures var s := At(run, total, n);
            var t := Next(s, total, On(r, Acquire(patient)));
            && HeldBy(s.requests) <= total
            && t.requests[r] == (if HeldBy(s.requests) < total then Holding else if patient then Asking else Refused)
            && HeldBy(t.requests) == HeldBy(s.requests) + (if HeldBy(s.requests) < total then 1 else 0)
            && |t.requests| == |s.requests|
            && forall i :: 0 <= i < |s.requests| && i != r ==> t.requests[i] == s.requests[i]
  {
    Conservation(run, total, n);
    var s := At(run, total, n);
    HeldUpdated(s.requests, r, Moved(s.requests[r], s.free, Acquire(patient)));
  }
}
