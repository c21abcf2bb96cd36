/**
 Activating one replacement (hack/migrate-api-group.py:546-579) as steps: the legacy autoscalers are listed once, then
 the replacement is checked and patched under a precondition, with up to three tries and anyone changing anything in
 between.
 */
module Activation {
  import opened Wrappers
  import Cutover

  datatype Mode = Recommend | Active

  datatype Check = Passes | Fails

  /** The replacement as it stands, with what the identity check and the readiness checks would say of it. */
  datatype Replacement = Replacement(uid: int, version: int, mode: Mode, identity: Check, readiness: Check)

  datatype Stage = Off | Listed(tries: nat) | Checked(tries: nat, uid: int, version: int) | Pinned(uid: int)

  datatype World = World(cluster: Cutover.Cluster, replacement: Option<Replacement>, next: int, stage: Stage)

  datatype Act =
    | Elsewhere(x: Cutover.Interference)                      // anyone changes legacy objects, pods or readiness
    | Change(mode: Mode, identity: Check, readiness: Check)   // anyone edits the replacement or its status
    | Recreate(mode: Mode, identity: Check, readiness: Check)
    | Discard
    | Own(move: Move)

  /** What the command does. */
  datatype Move = List | Look | Patch | Quit

  predicate OnTarget(c: Cutover.Cluster, target: string) {
    exists name :: name in c.legacy && c.legacy[name].spec.target == target
  }

  predicate PatchAccepted(w: World) {
    && w.stage.Checked? && w.replacement.Some?
    && w.replacement.value.uid == w.stage.uid && w.replacement.value.version == w.stage.version
  }

  /** An Active object needs only the right identity; any other must pass every check before it is patched. */
  function Looked(w: World, tries: nat): Stage {
    if w.replacement.None? || w.replacement.value.identity.Fails? then Off
    else if w.replacement.value.mode.Active? then Pinned(w.replacement.value.uid)
    else if w.replacement.value.readiness.Fails? then Off
    else Checked(tries, w.replacement.value.uid, w.replacement.value.version)
  }

  function Moved(w: World, target: string, move: Move): World {
    match move
    case List => w.(stage := if OnTarget(w.cluster, target) then Off else Listed(3))
    case Look => if w.stage.Listed? then w.(stage := Looked(w, w.stage.tries)) else w
    case Patch =>
      if !w.stage.Checked? then w
      else if PatchAccepted(w) then
        w.(replacement := Some(w.replacement.value.(version := w.next, mode := Active)), next := w.next + 1,
           stage := Pinned(w.stage.uid))
      else w.(stage := if w.stage.tries > 1 then Listed(w.stage.tries - 1) else Off)
    case Quit => w.(stage := Off)
  }

  function Next(w: World, target: string, act: Act): World {
    match act
    case Elsewhere(x) => w.(cluster := Cutover.Interfered(w.cluster, x))
    case Change(mode, identity, readiness) =>
      if w.replacement.None? then w
      else w.(replacement := Some(Replacement(w.replacement.value.uid, w.next, mode, identity, readiness)),
          next := w.next + 1)
    case Recreate(mode, identity, readiness) =>
      w.(replacement := Some(Replacement(w.next, w.next, mode, identity, readiness)), next := w.next + 1)
    case Discard => w.(replacement := None)
    case Own(move) => Moved(w, target, move)
  }

  ghost predicate VersionIssued(w: World) { w.replacement.Some? ==> w.replacement.value.version < w.next }

  /** One execution: every act, and the world before each of them and after the last. */
  datatype Execution = Execution(target: string, acts: seq<Act>, worlds: seq<World>) {
    ghost predicate Valid() {
      && |worlds| == |acts| + 1 && worlds[0].stage == Off && VersionIssued(worlds[0])
      && forall i :: 0 <= i < |acts| ==> StepAt(i)
    }

    ghost predicate StepAt(i: int) {
      0 <= i < |acts| && |worlds| == |acts| + 1 && worlds[i + 1] == Next(worlds[i], target, acts[i])
    }

    /** The patch of step n is accepted. */
    predicate PatchedAt(n: nat) { n < |acts| && n < |worlds| && acts[n] == Own(Patch) && PatchAccepted(worlds[n]) }

    predicate OnTargetAt(k: nat) { k < |worlds| && OnTarget(worlds[k].cluster, target) }

    predicate AimsAt(k: nat) { k < |acts| && k < |worlds| && Aims(worlds[k].cluster, acts[k], target) }
  }

  // ---------- what an accepted patch rests on ----------

  ghost predicate SameOrNewer(seen: World, now: World) {
    && VersionIssued(now) && seen.next <= now.next
    && (now.replacement == seen.replacement || now.replacement.None? || seen.next <= now.replacement.value.version)
  }

  lemma NextNewer(w: World, target: string, act: Act)
    requires VersionIssued(w)
    ensures SameOrNewer(w, Next(w, target, act))
  {
  }

  lemma {:induction false} Onward(x: Execution, r: nat, n: nat)
    requires x.Valid() && r <= n <= |x.acts| && VersionIssued(x.worlds[r])
    ensures SameOrNewer(x.worlds[r], x.worlds[n])
  {
    if r < n {
      Onward(x, r, n - 1);
      assert x.StepAt(n - 1);
      NextNewer(x.worlds[n - 1], x.target, x.acts[n - 1]);
    }
  }

  /** The listing of step l found no legacy autoscaler on the target. */
  ghost predicate ListedAt(x: Execution, l: nat) {
    l < |x.acts| && l < |x.worlds| && x.acts[l] == Own(List) && !OnTarget(x.worlds[l].cluster, x.target)
  }

  /** The object passes every check and is not Active yet. */
  predicate Activatable(r: Option<Replacement>) {
    r.Some? && r.value.identity.Passes? && r.value.readiness.Passes? && r.value.mode.Recommend?
  }

  lemma StageFrom(w: World, target: string, act: Act)
    requires !Next(w, target, act).stage.Off? && act != Own(List)
    ensures !w.stage.Off?
    ensures var s := Next(w, target, act).stage;
            s.Checked? && s != w.stage ==>
              && w.stage.Listed? && act == Own(Look) && Activatable(w.replacement)
              && w.replacement.value.uid == s.uid && w.replacement.value.version == s.version
  {
  }

  lemma {:induction false} ListingOf(x: Execution, n: nat) returns (l: nat)
    requires x.Valid() && n <= |x.acts| && !x.worlds[n].stage.Off?
    ensures l < n && ListedAt(x, l) && forall k :: l < k < n ==> x.acts[k] != Own(List)
  {
    assert x.StepAt(n - 1);
    if x.acts[n - 1] == Own(List) {
      l := n - 1;
    } else {
      StageFrom(x.worlds[n - 1], x.target, x.acts[n - 1]);
      l := ListingOf(x, n - 1);
    }
  }

  lemma {:induction false} LookOf(x: Execution, n: nat) returns (l: nat, c: nat)
    requires x.Valid() && n <= |x.acts| && x.worlds[n].stage.Checked?
    ensures l < c < n && ListedAt(x, l) && Activatable(x.worlds[c].replacement)
    ensures x.worlds[c].replacement.value.uid == x.worlds[n].stage.uid
    ensures x.worlds[c].replacement.value.version == x.worlds[n].stage.version
  {
    assert x.StepAt(n - 1);
    StageFrom(x.worlds[n - 1], x.target, x.acts[n - 1]);
    if x.worlds[n].stage != x.worlds[n - 1].stage {
      l := ListingOf(x, n - 1);
      c := n - 1;
    } else {
      l, c := LookOf(x, n - 1);
    }
  }

  /** A patch that is accepted activates exactly the object that passed the identity and readiness checks, unchanged
      since, after a listing without any legacy autoscaler on the target. */
  lemma ActivatesWhatWasChecked(x: Execution, n: nat) returns (l: nat, c: nat)
    requires x.Valid() && x.PatchedAt(n)
    ensures l < c < n && ListedAt(x, l)
    ensures x.worlds[c].replacement == x.worlds[n].replacement && Activatable(x.worlds[n].replacement)
    ensures var after := x.worlds[n + 1].replacement;
            after.Some? && after.value.mode.Active? && after.value.uid == x.worlds[n].replacement.value.uid
  {
    l, c := LookOf(x, n);
    Onward(x, 0, c);
    Onward(x, c, n);
    assert x.StepAt(n);
  }

  lemma PinnedFrom(w: World, target: string, act: Act)
    requires Next(w, target, act).stage.Pinned? && w.stage != Next(w, target, act).stage
    ensures var u := Next(w, target, act).stage.uid;
            && w.replacement.Some? && w.replacement.value.uid == u
            && ((act == Own(Patch) && PatchAccepted(w))
                || (act == Own(Look) && w.replacement.value.mode.Active? && w.replacement.value.identity.Passes?))
  {
  }

  /** A pinned object was either patched, or found Active with the recorded identity, after the same kind of listing. */
  lemma {:induction false} PinnedWas(x: Execution, n: nat) returns (l: nat, c: nat)
    requires x.Valid() && n <= |x.acts| && x.worlds[n].stage.Pinned?
    ensures l < c < n && ListedAt(x, l)
    ensures x.worlds[c].replacement.Some? && x.worlds[c].replacement.value.uid == x.worlds[n].stage.uid
    ensures x.PatchedAt(c)
            || (x.worlds[c].replacement.value.mode.Active? && x.worlds[c].replacement.value.identity.Passes?)
  {
    assert x.StepAt(n - 1);
    if x.worlds[n - 1].stage == x.worlds[n].stage {
      l, c := PinnedWas(x, n - 1);
    } else {
      PinnedFrom(x.worlds[n - 1], x.target, x.acts[n - 1]);
      StageFrom(x.worlds[n - 1], x.target, x.acts[n - 1]);
      l := ListingOf(x, n - 1);
      c := n - 1;
    }
  }

  // ---------- no legacy autoscaler beside an Active replacement ----------

  /** The act puts a legacy autoscaler on the target: a new one, or an edit. */
  predicate Aims(c: Cutover.Cluster, act: Act, target: string) {
    act.Elsewhere? &&
    match act.x
    case Create(name, spec) => name !in c.legacy && spec.target == target
    case Edit(name, spec) => name in c.legacy && spec.target == target
    case _ => false
  }

  lemma AimStep(w: World, target: string, act: Act)
    ensures Aims(w.cluster, act, target) ==> OnTarget(Next(w, target, act).cluster, target)
    ensures OnTarget(Next(w, target, act).cluster, target) ==>
              OnTarget(w.cluster, target) || Aims(w.cluster, act, target)
  {
    var after := Next(w, target, act).cluster;
    if Aims(w.cluster, act, target) {
      assert act.x.name in after.legacy;
    } else if OnTarget(after, target) {
      var name :| name in after.legacy && after.legacy[name].spec.target == target;
      assert name in w.cluster.legacy;
    }
  }

  ghost predicate Clear(x: Execution, l: nat, m: nat) { forall k :: l <= k <= m ==> !x.OnTargetAt(k) }

  ghost predicate NobodyAims(x: Execution, l: nat, m: nat) { forall k :: l <= k < m ==> !x.AimsAt(k) }

  /** From a clean listing on, the target stays free of legacy autoscalers exactly as long as nobody creates one on it
      or edits one onto it. */
  lemma {:induction false} ClearIff(x: Execution, l: nat, m: nat)
    requires x.Valid() && ListedAt(x, l) && l <= m <= |x.acts|
    ensures Clear(x, l, m) <==> NobodyAims(x, l, m)
  {
    if l == m {
      assert !x.OnTargetAt(l);
    } else {
      ClearIff(x, l, m - 1);
      assert x.StepAt(m - 1);
      AimStep(x.worlds[m - 1], x.target, x.acts[m - 1]);
      assert Clear(x, l, m) <==> Clear(x, l, m - 1) && !x.OnTargetAt(m);
      assert NobodyAims(x, l, m) <==> NobodyAims(x, l, m - 1) && !x.AimsAt(m - 1);
      assert Clear(x, l, m - 1) ==> !x.OnTargetAt(m - 1);
    }
  }

  /** So an activation never leaves its replacement Active beside a legacy autoscaler on the same target, unless
      somebody put one there after the listing. */
  lemma NeverBesideLegacy(x: Execution, n: nat, m: nat) returns (l: nat)
    requires x.Valid() && x.PatchedAt(n) && n < m <= |x.acts|
    ensures l < n && ListedAt(x, l)
    ensures Clear(x, l, m) <==> NobodyAims(x, l, m)
  {
    var c;
    l, c := ActivatesWhatWasChecked(x, n);
    ClearIff(x, l, m);
  }

  /** Creating nothing is not enough: an existing legacy autoscaler retargeted after the listing is missed. */
  lemma RetargetingIsMissed() returns (x: Execution)
    ensures x.Valid() && x.PatchedAt(3)
    ensures forall i :: 0 <= i < |x.acts| && x.acts[i].Elsewhere? ==> !x.acts[i].x.Create?
    ensures var w := x.worlds[4];
            w.replacement.Some? && w.replacement.value.mode.Active? && OnTarget(w.cluster, x.target)
  {
    var other, web := Cutover.Spec("other", ""), Cutover.Spec("web", "");
    var c := Cutover.Cluster(map["old" := Cutover.Legacy(1, 1, other)], 2, 2, [], {});
    var r := Replacement(1, 1, Recommend, Passes, Passes);
    var w0 := World(c, Some(r), 2, Off);
    assert !OnTarget(c, "web");
    var w1 := w0.(stage := Listed(3));
    var w2 := w0.(stage := Checked(3, 1, 1));
    var w3 := w2.(cluster := Cutover.Put(c, "old", 1, web));
    var w4 := Next(w3, "web", Own(Patch));
    x := Execution("web", [Own(List), Own(Look), Elsewhere(Cutover.Edit("old", web)), Own(Patch)],
        [w0, w1, w2, w3, w4]);
    assert x.StepAt(0) && x.StepAt(1);
    assert x.StepAt(2) && x.StepAt(3);
    assert "old" in w3.cluster.legacy && w3.cluster.legacy["old"].spec.target == "web";
  }

  // ---------- an undisturbed activation ----------

  /** The world after the command listed, looked and patched. */
  function Undisturbed(w: World, target: string): World {
    Moved(Moved(Moved(w, target, List), target, Look), target, Patch)
  }

  /** Left alone, the command activates exactly a replacement that passes every check while no legacy autoscaler
      is on the target; it changes nothing else, and it ends with the object it activated, or found Active. */
  lemma UndisturbedActivatesIff(w: World, target: string)
    ensures var u := Undisturbed(w, target);
            && u.cluster == w.cluster
            && (if !OnTarget(w.cluster, target) && Activatable(w.replacement)
                then u.replacement == Some(w.replacement.value.(version := w.next, mode := Active))
                else u.replacement == w.replacement)
            && (u.stage.Pinned? <==> && !OnTarget(w.cluster, target) && w.replacement.Some?
                                     && w.replacement.value.identity.Passes?
                                     && (w.replacement.value.mode.Active? || w.replacement.value.readiness.Passes?))
            && (u.stage.Pinned? ==> u.stage.uid == w.replacement.value.uid && u.replacement.value.mode.Active?)
  {
  }

  // ---------- three tries ----------

  /** Step k sends a patch and it is refused. */
  predicate RefusedAt(x: Execution, k: int) {
    0 <= k < |x.acts| && k < |x.worlds| && x.acts[k] == Own(Patch) && x.worlds[k].stage.Checked?
    && !PatchAccepted(x.worlds[k])
  }

  function Refusals(x: Execution, l: nat, n: nat): set<int> { set k | l <= k < n && RefusedAt(x, k) }

  lemma TriesStep(w: World, target: string, act: Act)
    requires act != Own(List)
    ensures var s := Next(w, target, act).stage;
            if act == Own(Patch) && w.stage.Checked? && !PatchAccepted(w)
            then s == if w.stage.tries > 1 then Listed(w.stage.tries - 1) else Off
            else (s.Listed? || s.Checked?) ==> (w.stage.Listed? || w.stage.Checked?) && s.tries == w.stage.tries
  {
  }

  lemma OneMoreRefusal(x: Execution, l: nat, n: nat)
    requires l <= n
    ensures |Refusals(x, l, n + 1)| == |Refusals(x, l, n)| + if RefusedAt(x, n) then 1 else 0
  {
    var before := Refusals(x, l, n);
    assert Refusals(x, l, n + 1) == if RefusedAt(x, n) then before + {n} else before;
  }

  /** The command's stage after so many refusals. */
  predicate StageAfter(stage: Stage, refusals: nat) {
    && refusals <= 3 && (refusals == 3 ==> stage.Off?)
    && (stage.Listed? || stage.Checked? ==> stage.tries == 3 - refusals)
  }

  lemma StageStep(w: World, target: string, act: Act, refusals: nat)
    requires act != Own(List) && StageAfter(w.stage, refusals)
    ensures var refused := act == Own(Patch) && w.stage.Checked? && !PatchAccepted(w);
            && StageAfter(Next(w, target, act).stage, refusals + if refused then 1 else 0)
            && (refused && refusals < 2 ==> Next(w, target, act).stage.Listed?)
  {
    TriesStep(w, target, act);
    if w.stage.Off? {
      OffStays(w, target, act);
    }
  }

  /** Since a listing the command goes on exactly as long as fewer than three patches were refused: a refused one is
      tried again after another look, and the third ends it. */
  lemma {:induction false} ThreeTries(x: Execution, l: nat, n: nat)
    requires x.Valid() && l < n <= |x.acts| && x.acts[l] == Own(List)
    requires forall k :: l < k < n ==> x.acts[k] != Own(List)
    ensures StageAfter(x.worlds[n].stage, |Refusals(x, l, n)|)
    ensures RefusedAt(x, n - 1) && |Refusals(x, l, n)| < 3 ==> x.worlds[n].stage.Listed?
  {
    assert x.StepAt(n - 1);
    OneMoreRefusal(x, l, n - 1);
    if n == l + 1 {
      assert Refusals(x, l, l) == {};
    } else {
      ThreeTries(x, l, n - 1);
      StageStep(x.worlds[n - 1], x.target, x.acts[n - 1], |Refusals(x, l, n - 1)|);
    }
  }

  lemma OffStays(w: World, target: string, act: Act)
    requires w.stage.Off? && act != Own(List)
    ensures Next(w, target, act).stage.Off?
  {
  }
}
