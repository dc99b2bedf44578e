// Whole runs of the run store and the approval service: the lock, the run and the pending
// approval always agree, so resolving an approval never fails in the run layer.

module RunHistory {
  import opened Prelude
  import opened RunStates
  import opened RunStore

  datatype Op =
    | Create(id: string, run: Run)
    | Move(id: string, status: RunStatus, options: Options, now: int)
    | Ask(request: Request, now: int)
    | ApproveOp(id: string, workspace: string, c: Circumstances)
    | RejectOp(id: string, workspace: string, c: Circumstances)

  // A refused operation, and a repeated request, leave everything as it was.
  ghost function Next(s: State, op: Op): State {
    match op
    case Create(id, r) => StateOf(s, CreateRun(s, id, r))
    case Move(id, status, o, now) => StateOf(s, SetStatus(s, id, status, o, now))
    case Ask(q, now) =>
      if WellFormed(q.approval) && IsNew(s, q) then StateOf(s, OpenRequest(s, q, now)) else s
    case ApproveOp(id, w, c) => StateOf(s, Approve(s, id, w, c))
    case RejectOp(id, w, c) => StateOf(s, Reject(s, id, w, c))
  }

  // Code outside the approval service ends running runs only, and no approval that holds a run
  // is rejected by doing nothing.
  predicate Ordinary(s: State, op: Op) {
    match op
    case Move(id, status, _, _) =>
      !(id in s.runs && s.runs[id].status == Suspended && status == Failed)
    case RejectOp(a, _, _) => !RejectsIdly(s, a)
    case _ => true
  }

  // A pending approval holding a run whose rejection is a no-op.
  predicate RejectsIdly(s: State, a: string) {
    && a in s.approvals && s.approvals[a].status == Pending
    && s.approvals[a].run.Some? && s.approvals[a].onReject == NoOp
  }

  ghost function After(s: State, ops: seq<Op>): Option<State> {
    if ops == [] then Some(s)
    else
      var before := After(s, ops[..|ops| - 1]);
      if before.Some? && Ordinary(before.value, ops[|ops| - 1])
      then Some(Next(before.value, ops[|ops| - 1])) else None
  }

  // ---- The invariant -------------------------------------------------------

  ghost predicate HoldsLock(s: State, id: string, r: Run) {
    !Terminal(r.status) ==>
      r.workspace in s.locks && s.locks[r.workspace] == Lock(id, r.updatedAt)
  }

  // Suspended exactly when pointing at an approval, which is pending and the run's own.
  ghost predicate WaitsRight(s: State, id: string, r: Run) {
    && (r.status == Suspended <==> r.waitsFor.Some?)
    && (r.status == Suspended ==> IsPendingFor(s, r.waitsFor.value, r.workspace, id))
  }

  ghost predicate RunOk(s: State, id: string) {
    id in s.runs ==> HoldsLock(s, id, s.runs[id]) && WaitsRight(s, id, s.runs[id])
  }

  ghost predicate LockOk(s: State, w: string) {
    w in s.locks ==>
      var id := s.locks[w].run;
      id in s.runs && s.runs[id].workspace == w && !Terminal(s.runs[id].status)
  }

  ghost predicate HoldsRun(s: State, a: string, id: string) {
    a in s.approvals && s.approvals[a].status == Pending && s.approvals[a].run == Some(id)
  }

  ghost predicate PendingOk(s: State, a: string, id: string) {
    HoldsRun(s, a, id) ==>
      && id in s.runs && s.runs[id].status == Suspended && s.runs[id].waitsFor == Some(a)
      && s.runs[id].workspace == s.approvals[a].workspace
      && s.approvals[a].onApprove == ResumeRun
  }

  ghost predicate Inv(s: State) {
    && (forall id :: RunOk(s, id))
    && (forall w :: LockOk(s, w))
    && (forall a, id :: PendingOk(s, a, id))
  }

  // The lock of a workspace names its one run that has not ended.
  lemma ActiveRunIsUnique(s: State, id: string, other: string)
    requires Inv(s) && id in s.runs && other in s.runs
    requires !Terminal(s.runs[id].status) && !Terminal(s.runs[other].status)
    requires s.runs[id].workspace == s.runs[other].workspace
    ensures id == other
    ensures s.runs[id].workspace in s.locks && s.locks[s.runs[id].workspace].run == id
  {
    assert RunOk(s, id) && RunOk(s, other);
  }

  lemma LockNamesActiveRun(s: State, w: string)
    requires Inv(s)
    ensures w in s.locks <==>
              exists id :: id in s.runs && s.runs[id].workspace == w && !Terminal(s.runs[id].status)
  {
    assert LockOk(s, w);
    if id :| id in s.runs && s.runs[id].workspace == w && !Terminal(s.runs[id].status) {
      assert RunOk(s, id);
    }
  }

  // A run is suspended exactly when some pending approval holds it, and then exactly one does.
  lemma SuspendedIffHeld(s: State, id: string)
    requires Inv(s) && id in s.runs
    ensures s.runs[id].status == Suspended <==> exists a :: HoldsRun(s, a, id)
    ensures forall a, b :: HoldsRun(s, a, id) && HoldsRun(s, b, id) ==> a == b
  {
    assert RunOk(s, id);
    if s.runs[id].status == Suspended {
      assert HoldsRun(s, s.runs[id].waitsFor.value, id);
    }
    forall a, b | HoldsRun(s, a, id) && HoldsRun(s, b, id) ensures a == b {
      assert PendingOk(s, a, id) && PendingOk(s, b, id);
    }
    if a :| HoldsRun(s, a, id) {
      assert PendingOk(s, a, id);
    }
  }

  // ---- Every ordinary operation keeps it -----------------------------------

  // All but one run is in order.
  ghost predicate InvBut(s: State, id: string) {
    && (forall x :: x != id ==> RunOk(s, x))
    && (forall w :: LockOk(s, w))
    && (forall a, x :: x != id ==> PendingOk(s, a, x))
  }

  // The run holding the lock moves, and agrees with what holds it afterwards.
  lemma MoveKeeps(s: State, id: string, r: Run)
    requires InvBut(s, id) && id in s.runs && r.workspace == s.runs[id].workspace
    requires !Terminal(s.runs[id].status) && HoldsLock(s, id, s.runs[id])
    requires WaitsRight(s, id, r)
    requires forall a :: HoldsRun(s, a, id) ==>
      && r.status == Suspended && r.waitsFor == Some(a)
      && r.workspace == s.approvals[a].workspace
      && s.approvals[a].onApprove == ResumeRun
    ensures var moved := MoveLock(s.(runs := s.runs[id := r]), id, r);
            moved.Ok? && Inv(moved.value)
  {
    var n := MoveLock(s.(runs := s.runs[id := r]), id, r).value;
    forall x ensures RunOk(n, x) {
      assert x != id ==> RunOk(s, x);
    }
    forall w ensures LockOk(n, w) { assert LockOk(s, w); }
    forall a, x ensures PendingOk(n, a, x) {
      assert x != id ==> PendingOk(s, a, x);
      assert HoldsRun(n, a, x) == HoldsRun(s, a, x);
    }
  }

  lemma CreateKeeps(s: State, id: string, r: Run)
    requires Inv(s)
    ensures Inv(StateOf(s, CreateRun(s, id, r)))
  {
    if CreateRun(s, id, r).Ok? {
      var n := CreateRun(s, id, r).value;
      assert r.waitsFor.Some? ==> PendingOk(s, r.waitsFor.value, id);
      assert r.status != Suspended;
      forall x ensures RunOk(n, x) {
        assert RunOk(s, x);
        if x in s.runs && s.runs[x].workspace == r.workspace { assert LockOk(s, r.workspace); }
      }
      forall w ensures LockOk(n, w) { assert LockOk(s, w); }
      forall a, x ensures PendingOk(n, a, x) { assert PendingOk(s, a, x); }
    }
  }

  lemma SetStatusKeeps(s: State, id: string, status: RunStatus, o: Options, now: int)
    requires Inv(s) && Ordinary(s, Move(id, status, o, now))
    ensures Inv(StateOf(s, SetStatus(s, id, status, o, now)))
  {
    if SetStatus(s, id, status, o, now).Ok? && !Terminal(s.runs[id].status) {
      var c := s.runs[id];
      var at := if o.updatedAt.Some? then o.updatedAt.value else now;
      var r := Run(c.workspace, status, NextNode(c, o), NextWaitsFor(c, status, o), at);
      assert RunOk(s, id);
      SuspendedIffHeld(s, id);
      forall a | HoldsRun(s, a, id)
        ensures r.status == Suspended && r.waitsFor == Some(a) && PendingOk(s, a, id)
      {
        assert PendingOk(s, a, id);
        assert c.status == Suspended && c.waitsFor == Some(a);
      }
      forall a ensures status == Suspended && IsPendingFor(s, a, c.workspace, id) ==> HoldsRun(s, a, id) {}
      hide Transition;
      MoveKeeps(s, id, r);
    }
  }

  // A request suspends its running run and points it at the new approval.
  lemma OpenRequestKeeps(s: State, q: Request, now: int)
    requires Inv(s) && WellFormed(q.approval)
    ensures Inv(StateOf(s, OpenRequest(s, q, now)))
  {
    if OpenRequest(s, q, now).Ok? {
      var asked := s.(approvals := s.approvals[q.id := q.approval]);
      forall x ensures (q.approval.run != Some(x) ==> RunOk(asked, x)) {
        assert RunOk(s, x);
      }
      forall w ensures LockOk(asked, w) { assert LockOk(s, w); }
      forall a, x ensures q.approval.run != Some(x) ==> PendingOk(asked, a, x) {
        assert PendingOk(s, a, x);
      }
      if q.approval.run.Some? {
        var id := q.approval.run.value;
        var r := Run(s.runs[id].workspace, Suspended, Some("approval_requested"), Some(q.id), now);
        assert RunOk(s, id);
        SuspendedIffHeld(s, id);
        forall a | HoldsRun(asked, a, id) ensures a == q.id {
          assert a != q.id ==> HoldsRun(s, a, id);
        }
        MoveKeeps(asked, id, r);
      } else {
        forall x ensures RunOk(asked, x) {}
        forall a, x ensures PendingOk(asked, a, x) {}
      }
    }
  }

  lemma ResolvedIsInvBut(s: State, a: string, verdict: ApprovalStatus)
    requires Inv(s) && a in s.approvals && verdict != Pending
    ensures var n := Resolve(s, a, verdict);
            && (s.approvals[a].run.Some? ==>
                 && InvBut(n, s.approvals[a].run.value)
                 && (s.approvals[a].status == Pending ==>
                      forall b :: !HoldsRun(n, b, s.approvals[a].run.value)))
            && (s.approvals[a].run.None? ==> Inv(n))
  {
    var n := Resolve(s, a, verdict);
    var holder := s.approvals[a].run;
    forall x ensures holder != Some(x) ==> RunOk(n, x) { assert RunOk(s, x); }
    forall w ensures LockOk(n, w) { assert LockOk(s, w); }
    forall b, x ensures holder != Some(x) ==> PendingOk(n, b, x) { assert PendingOk(s, b, x); }
    if holder.Some? && s.approvals[a].status == Pending {
      forall b ensures !HoldsRun(n, b, holder.value) {
        assert PendingOk(s, a, holder.value) && PendingOk(s, b, holder.value);
      }
    }
  }

  // Resolving a pending approval that holds a run: the run layer never refuses, and the run
  // leaves its suspension for the named status.
  lemma ResolutionMoves(s: State, a: string, verdict: ApprovalStatus, status: RunStatus, node: string, now: int)
    requires Inv(s) && a in s.approvals && s.approvals[a].status == Pending
    requires s.approvals[a].run.Some? && verdict != Pending
    requires status == Failed
             || (status == Running
                 && (verdict == Approved || s.approvals[a].onReject == SkipAction))
    ensures var id := s.approvals[a].run.value;
            var moved := SetStatus(Resolve(s, a, verdict), id, status, MovingTo(node), now);
            && moved.Ok? && Inv(moved.value)
            && id in moved.value.runs && moved.value.runs[id].status == status
            && s.runs[id].status == Suspended
  {
    var id := s.approvals[a].run.value;
    var n := Resolve(s, a, verdict);
    assert PendingOk(s, a, id) && RunOk(s, id);
    ResolvedIsInvBut(s, a, verdict);
    var r := Run(s.runs[id].workspace, status, Some(node), None, now);
    assert MayResume(n, id, s.runs[id]) || status == Failed;
    MoveKeeps(n, id, r);
  }

  lemma ApproveKeeps(s: State, a: string, w: string, c: Circumstances)
    requires Inv(s)
    ensures Inv(StateOf(s, Approve(s, a, w, c)))
  {
    hide SetStatus, Inv;
    if a in s.approvals && s.approvals[a].status == Pending && Approve(s, a, w, c).Ok? {
      if s.approvals[a].run.Some? {
        assert PendingOk(s, a, s.approvals[a].run.value) by { InvIsPendingOk(s, a); }
        ResolutionMoves(s, a, Approved, Running, "approval_resolved", c.now);
      } else {
        ResolvedIsInvBut(s, a, Approved);
      }
    }
  }

  lemma InvIsPendingOk(s: State, a: string)
    requires Inv(s)
    ensures forall id :: PendingOk(s, a, id)
  {
  }

  lemma RejectKeeps(s: State, a: string, w: string, c: Circumstances)
    requires Inv(s) && !RejectsIdly(s, a)
    ensures Inv(StateOf(s, Reject(s, a, w, c)))
  {
    hide SetStatus, Inv;
    if a in s.approvals && s.approvals[a].status == Pending && Reject(s, a, w, c).Ok? {
      if s.approvals[a].run.Some? {
        assert PendingOk(s, a, s.approvals[a].run.value) by { InvIsPendingOk(s, a); }
        if s.approvals[a].onReject == FailRun {
          ResolutionMoves(s, a, Rejected, Failed, "approval_rejected", c.now);
        } else {
          ResolutionMoves(s, a, Rejected, Running, "approval_skipped", c.now);
        }
      } else {
        ResolvedIsInvBut(s, a, Rejected);
      }
    }
  }

  lemma StepKeeps(s: State, op: Op)
    requires Inv(s) && Ordinary(s, op)
    ensures Inv(Next(s, op))
  {
    hide Inv, SetStatus, OpenRequest, Approve, Reject, CreateRun;
    match op
    case Create(id, r) => CreateKeeps(s, id, r);
    case Move(id, status, o, now) => SetStatusKeeps(s, id, status, o, now);
    case Ask(q, now) => if WellFormed(q.approval) { OpenRequestKeeps(s, q, now); }
    case ApproveOp(id, w, c) => ApproveKeeps(s, id, w, c);
    case RejectOp(id, w, c) => RejectKeeps(s, id, w, c);
  }

  // In every reachable state the lock, the run and its pending approval agree.
  lemma {:induction false} RunsKeepInv(s: State, ops: seq<Op>)
    requires Inv(s) && After(s, ops).Some?
    ensures Inv(After(s, ops).value)
  {
    hide Inv, Next, Ordinary;
    if ops != [] {
      RunsKeepInv(s, ops[..|ops| - 1]);
      StepKeeps(After(s, ops[..|ops| - 1]).value, ops[|ops| - 1]);
    }
  }

  lemma EmptyIsInv()
    ensures Inv(State(map[], map[], map[]))
  {
  }

  // ---- What consistency gives ----------------------------------------------

  // Unless the resolver, the signature or the target refuses, a pending approval is resolved:
  // the run layer never is the reason it fails.
  lemma ResolvingNeverFails(s: State, a: string, c: Circumstances)
    requires Inv(s) && a in s.approvals && s.approvals[a].status == Pending
    requires !c.self && c.signed && c.hasHandler && c.targetAccepts
    ensures var w := s.approvals[a].workspace;
            Approve(s, a, w, c).Ok? && Reject(s, a, w, c).Ok?
  {
    hide SetStatus, Inv;
    if s.approvals[a].run.Some? {
      assert PendingOk(s, a, s.approvals[a].run.value) by { InvIsPendingOk(s, a); }
      ResolutionMoves(s, a, Approved, Running, "approval_resolved", c.now);
      ResolutionMoves(s, a, Rejected, Failed, "approval_rejected", c.now);
      if s.approvals[a].onReject == SkipAction {
        ResolutionMoves(s, a, Rejected, Running, "approval_skipped", c.now);
      }
    }
  }

  ghost predicate Unmoved(s: State, n: State, id: string) {
    id in s.runs && Terminal(s.runs[id].status) ==> id in n.runs && n.runs[id] == s.runs[id]
  }

  lemma SetStatusLeavesEnded(s: State, run: string, status: RunStatus, o: Options, now: int, id: string)
    ensures Unmoved(s, StateOf(s, SetStatus(s, run, status, o, now)), id)
  {
    hide MayMove, NextNode, NextWaitsFor;
  }

  // A run that completed or failed is never changed by anything.
  lemma TerminalRunsNeverChange(s: State, op: Op, id: string)
    requires id in s.runs && Terminal(s.runs[id].status)
    ensures id in Next(s, op).runs && Next(s, op).runs[id] == s.runs[id]
  {
    hide SetStatus;
    match op
    case Create(_, _) => hide WaitsForValid;
    case Move(run, status, o, now) => SetStatusLeavesEnded(s, run, status, o, now, id);
    case Ask(q, now) =>
      var asked := s.(approvals := s.approvals[q.id := q.approval]);
      if q.approval.run.Some? {
        SetStatusLeavesEnded(asked, q.approval.run.value, Suspended, Suspending(q.id), now, id);
      }
    case ApproveOp(a, _, c) =>
      if a in s.approvals && s.approvals[a].run.Some? {
        SetStatusLeavesEnded(
          Resolve(s, a, Approved), s.approvals[a].run.value, Running, MovingTo("approval_resolved"),
          c.now, id);
      }
    case RejectOp(a, _, c) =>
      if a in s.approvals && s.approvals[a].run.Some? {
        var resolved, run := Resolve(s, a, Rejected), s.approvals[a].run.value;
        SetStatusLeavesEnded(resolved, run, Failed, MovingTo("approval_rejected"), c.now, id);
        SetStatusLeavesEnded(resolved, run, Running, MovingTo("approval_skipped"), c.now, id);
      }
  }

  // Rejecting the approval that holds a run keeps the run consistent exactly when the
  // rejection acts: a no-op leaves it suspended on an approval that is no longer pending.
  lemma RejectKeepsIff(s: State, a: string, w: string, c: Circumstances)
    requires Inv(s) && a in s.approvals && s.approvals[a].status == Pending
    requires s.approvals[a].run.Some? && Reject(s, a, w, c).Ok?
    ensures Inv(Reject(s, a, w, c).value) <==> s.approvals[a].onReject != NoOp
  {
    if s.approvals[a].onReject != NoOp {
      RejectKeeps(s, a, w, c);
    } else {
      var id := s.approvals[a].run.value;
      assert PendingOk(s, a, id);
      assert !RunOk(Reject(s, a, w, c).value, id);
    }
  }

  // Setting a status keeps everything consistent exactly when it does not fail a run that is
  // waiting for its approval.
  lemma SetStatusKeepsIff(s: State, id: string, status: RunStatus, o: Options, now: int)
    requires Inv(s) && SetStatus(s, id, status, o, now).Ok?
    ensures Inv(SetStatus(s, id, status, o, now).value) <==>
              !(s.runs[id].status == Suspended && status == Failed)
  {
    if s.runs[id].status == Suspended && status == Failed {
      assert RunOk(s, id);
      assert !PendingOk(SetStatus(s, id, status, o, now).value, s.runs[id].waitsFor.value, id);
    } else {
      SetStatusKeeps(s, id, status, o, now);
    }
  }

  // Code that fails a suspended run strands its approval: rejecting it is refused from then on.
  lemma FailingSuspendedRunStrandsApproval(
      s: State, id: string, o: Options, now: int, c: Circumstances)
    requires Inv(s) && id in s.runs && s.runs[id].status == Suspended
    requires SetStatus(s, id, Failed, o, now).Ok? && o.node != Given(Some("approval_rejected"))
    requires var a := s.runs[id].waitsFor;
             && a.Some? && a.value in s.approvals && s.approvals[a.value].onReject == FailRun
    requires s.runs[id].node != Some("approval_rejected")
    requires !c.self && c.signed && c.targetAccepts
    ensures var a := s.runs[id].waitsFor.value;
            Reject(SetStatus(s, id, Failed, o, now).value, a, s.runs[id].workspace, c) == Err(TerminalRun)
  {
    assert RunOk(s, id);
  }

  // ---- Both exceptions from the start --------------------------------------

  function Asked(onReject: OnReject): Approval {
    Approval("workspace", Some("run"), "action", "requester", Payload("type", "target", "body"),
             ResumeRun, onReject, Pending)
  }

  // One run, asked to wait for one approval.
  ghost function AskedState(onReject: OnReject): State {
    var created :=
      Next(State(map[], map[], map[]), Create("run", Run("workspace", Running, None, None, 0)));
    Next(created, Ask(Request("approval", true, Asked(onReject)), 1))
  }

  lemma AskedWaits(onReject: OnReject)
    ensures AskedState(onReject) == State(
              map["run" := Run("workspace", Suspended, Some("approval_requested"), Some("approval"), 1)],
              map["workspace" := Lock("run", 1)], map["approval" := Asked(onReject)])
  {
  }

  const WILLING := Circumstances(false, true, true, true, 2)

  // Failing the waiting run leaves an approval that cannot be rejected any more.
  lemma StrandedApproval()
    ensures var failed := Next(AskedState(FailRun), Move("run", Failed, Options(Unset, Unset, None), 2));
            && failed.runs == map["run" := Run("workspace", Failed, Some("approval_requested"), None, 2)]
            && failed.approvals == map["approval" := Asked(FailRun)]
            && Reject(failed, "approval", "workspace", WILLING) == Err(TerminalRun)
  {
    AskedWaits(FailRun);
  }

  // Rejecting by a no-op leaves the run waiting for an approval that is resolved.
  lemma IdleRejection()
    ensures var idle := Next(AskedState(NoOp), RejectOp("approval", "workspace", WILLING));
            && idle.runs == AskedState(NoOp).runs
            && idle.approvals == map["approval" := Asked(NoOp).(status := Rejected)]
            && Approve(idle, "approval", "workspace", WILLING) == Err(AlreadyResolved)
  {
    AskedWaits(NoOp);
  }
}
