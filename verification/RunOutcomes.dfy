// What each operation on runs and approvals comes to, table by table.

module RunOutcomes {
  import opened Prelude
  import opened RunStates
  import opened RunStore
  import opened RunHistory

  // ---- Moving a run --------------------------------------------------------

  ghost predicate Allowed(from: RunStatus, to: RunStatus) {
    || from == to
    || (from, to) in {(Queued, Running), (Running, Suspended), (Running, Completed),
                      (Running, Failed), (Suspended, Running), (Suspended, Failed)}
  }

  // The approval is one of the run, in the run's workspace.
  ghost predicate IsOf(s: State, approval: string, workspace: string, run: string) {
    && approval in s.approvals
    && s.approvals[approval].workspace == workspace && s.approvals[approval].run == Some(run)
  }

  // A run waits exactly while it is suspended, and then for a pending approval of its own.
  ghost predicate WaitsProperly(s: State, id: string, workspace: string, status: RunStatus, waitsFor: Option<string>) {
    && (status == Suspended <==> waitsFor.Some?)
    && (waitsFor.Some? ==>
         IsOf(s, waitsFor.value, workspace, id) && s.approvals[waitsFor.value].status == Pending)
  }

  // A suspended run stays with its approval, and runs on only once that approval was given,
  // or was refused by skipping the action.
  ghost predicate LeavesProperly(s: State, id: string, c: Run, status: RunStatus, waitsFor: Option<string>) {
    c.status == Suspended ==>
      && (status == Suspended ==> waitsFor == c.waitsFor)
      && (status == Running ==>
           && c.waitsFor.Some? && IsOf(s, c.waitsFor.value, c.workspace, id)
           && var a := s.approvals[c.waitsFor.value];
              a.status == Approved || (a.status == Rejected && a.onReject == SkipAction))
  }

  lemma MayMoveIff(s: State, id: string, c: Run, status: RunStatus, waitsFor: Option<string>)
    ensures MayMove(s, id, c, status, waitsFor) <==>
              && Allowed(c.status, status)
              && WaitsProperly(s, id, c.workspace, status, waitsFor)
              && LeavesProperly(s, id, c, status, waitsFor)
  {
  }

  // The lock held by the run that moves, or free.
  ghost predicate LockOpen(s: State, workspace: string, id: string) {
    workspace in s.locks ==> s.locks[workspace].run == id
  }

  // Setting the status of a run, on any tables: an ended run takes only what it already is;
  // another moves along the allowed transitions, and the lock goes with it.
  lemma SetStatusDecides(s: State, id: string, status: RunStatus, o: Options, now: int)
    requires id in s.runs
    ensures var c := s.runs[id];
            var node := if o.node.Unset? then c.node else o.node.value;
            var waitsFor := if o.waitsFor.Given? then o.waitsFor.value
                            else if status == Suspended then c.waitsFor else None;
            var at := if o.updatedAt.Some? then o.updatedAt.value else now;
            var runs := s.runs[id := Run(c.workspace, status, node, waitsFor, at)];
            SetStatus(s, id, status, o, now) ==
              if c.status in {Completed, Failed} then
                (if status == c.status && node == c.node && waitsFor == c.waitsFor
                    && (o.updatedAt == None || o.updatedAt == Some(c.updatedAt)) then Ok(s)
                 else Err(TerminalRun))
              else if !(&& Allowed(c.status, status)
                        && WaitsProperly(s, id, c.workspace, status, waitsFor)
                        && LeavesProperly(s, id, c, status, waitsFor)) then Err(InvalidTransition)
              else if status in {Completed, Failed} then
                Ok(State(runs, if c.workspace in s.locks && s.locks[c.workspace].run == id
                               then map w | w in s.locks && w != c.workspace :: s.locks[w]
                               else s.locks, s.approvals))
              else if !LockOpen(s, c.workspace, id) then Err(ActiveRunExists)
              else Ok(State(runs, s.locks[c.workspace := Lock(id, at)], s.approvals))
  {
    var c := s.runs[id];
    MayMoveIff(s, id, c, status, NextWaitsFor(c, status, o));
    hide MayMove, WaitsProperly, LeavesProperly, Allowed;
    assert s.locks - {c.workspace} == map w | w in s.locks && w != c.workspace :: s.locks[w];
  }

  lemma SetStatusOfNone(s: State, id: string, status: RunStatus, o: Options, now: int)
    requires id !in s.runs
    ensures SetStatus(s, id, status, o, now) == Err(RunNotFound)
  {
  }

  // A new run takes its workspace's lock unless it has ended; it needs the lock free.
  lemma CreateDecides(s: State, id: string, r: Run)
    ensures CreateRun(s, id, r) ==
              if !WaitsProperly(s, id, r.workspace, r.status, r.waitsFor) then Err(InvalidTransition)
              else if r.status !in {Completed, Failed} && r.workspace in s.locks then Err(ActiveRunExists)
              else if id in s.runs then Err(RunExists)
              else Ok(State(s.runs[id := r],
                            if r.status in {Completed, Failed} then s.locks
                            else s.locks[r.workspace := Lock(id, r.updatedAt)],
                            s.approvals))
  {
  }

  // ---- Asking for an approval ----------------------------------------------

  // The same target, and not rejected.
  ghost predicate StandsFor(a: Approval, b: Approval) {
    && a.workspace == b.workspace
    && a.payload.targetType == b.payload.targetType && a.payload.targetId == b.payload.targetId
    && a.status in {Pending, Approved}
  }

  // The request repeats one that was made before.
  ghost predicate AsksAgain(s: State, q: Request) {
    || (q.given && q.id in s.approvals)
    || exists a :: a in s.approvals && StandsFor(s.approvals[a], q.approval)
  }

  lemma IsNewIff(s: State, q: Request)
    ensures IsNew(s, q) <==> !AsksAgain(s, q)
  {
    if q.given && q.id in s.approvals {
      assert Replays(s, q, q.id);
    } else {
      forall a ensures Replays(s, q, a) <==> a in s.approvals && StandsFor(s.approvals[a], q.approval) {}
    }
  }

  // What a repeated request finds: the approval of the id it gives, if there is one, and
  // otherwise one that stands for the same target.
  lemma ReplaysIff(s: State, q: Request, a: string)
    ensures Replays(s, q, a) <==>
              if q.given && q.id in s.approvals then a == q.id
              else a in s.approvals && StandsFor(s.approvals[a], q.approval)
  {
  }

  // On consistent tables, what a request leaves behind: a new one opens the approval and
  // suspends its running run on it; everything else leaves the tables alone.
  lemma AskDecides(s: State, q: Request, now: int)
    requires Inv(s)
    ensures var a := q.approval;
            Next(s, Ask(q, now)) ==
              if AsksAgain(s, q) || a.status != Pending || q.id in s.approvals then s
              else match a.run
                case None =>
                  if a.onApprove == ApplyWithoutRun
                  then State(s.runs, s.locks, s.approvals[q.id := a]) else s
                case Some(x) =>
                  if a.onApprove == ResumeRun && x in s.runs && s.runs[x].status == Running
                     && s.runs[x].workspace == a.workspace
                  then State(s.runs[x := Run(a.workspace, Suspended, Some("approval_requested"), Some(q.id), now)],
                             s.locks[a.workspace := Lock(x, now)], s.approvals[q.id := a])
                  else s
  {
    IsNewIff(s, q);
    var a := q.approval;
    if a.run.Some? && a.run.value in s.runs {
      assert RunOk(s, a.run.value);
      var asked := s.(approvals := s.approvals[q.id := a]);
      SetStatusDecides(asked, a.run.value, Suspended, Suspending(q.id), now);
    }
    hide IsNew, AsksAgain, SetStatus, Inv;
  }

  // Why a request that is no repetition is refused.
  lemma AskIsRefusedIff(s: State, q: Request, now: int)
    requires Inv(s) && WellFormed(q.approval) && !AsksAgain(s, q)
    ensures var a, r := q.approval, OpenRequest(s, q, now);
            && (r == Err(RunNotFound) <==> a.run.Some? && a.run.value !in s.runs)
            && (r == Err(OtherWorkspace) <==>
                 a.run.Some? && a.run.value in s.runs && s.runs[a.run.value].workspace != a.workspace)
            && (r == Err(RunNotRunning) <==>
                 && a.run.Some? && a.run.value in s.runs
                 && s.runs[a.run.value].workspace == a.workspace
                 && s.runs[a.run.value].status != Running)
            && (r == Err(ApprovalConflict) <==>
                 && q.id in s.approvals
                 && (a.run.Some? ==>
                      && a.run.value in s.runs && s.runs[a.run.value].workspace == a.workspace
                      && s.runs[a.run.value].status == Running))
            && (r.Err? ==> r.error in {RunNotFound, OtherWorkspace, RunNotRunning, ApprovalConflict})
  {
    var a := q.approval;
    if a.run.Some? && a.run.value in s.runs {
      assert RunOk(s, a.run.value);
      var asked := s.(approvals := s.approvals[q.id := a]);
      SetStatusDecides(asked, a.run.value, Suspended, Suspending(q.id), now);
    }
    hide AsksAgain, SetStatus, Inv;
  }

  // ---- Resolving an approval -----------------------------------------------

  // On consistent tables, approving: a pending approval that holds a run resumes it, one
  // that holds none is resolved alone, and an approved one stays as it is.
  lemma ApproveDecides(s: State, id: string, workspace: string, c: Circumstances)
    requires Inv(s) && id in s.approvals && s.approvals[id].workspace == workspace
    ensures var a := s.approvals[id];
            var approvals := s.approvals[id := a.(status := Approved)];
            Approve(s, id, workspace, c) ==
              if a.status == Approved then Ok(s)
              else if c.self then Err(SelfResolution)
              else if a.onApprove == ApplyWithoutRun && !c.hasHandler then Err(NoHandler)
              else if a.status == Rejected then Err(AlreadyResolved)
              else if !c.signed then Err(NotSigned)
              else if a.onApprove == ApplyWithoutRun && !c.targetAccepts then Err(TargetRefused)
              else match a.run
                case None => Ok(State(s.runs, s.locks, approvals))
                case Some(x) =>
                  Ok(State(s.runs[x := Run(workspace, Running, Some("approval_resolved"), None, c.now)],
                           s.locks[workspace := Lock(x, c.now)], approvals))
  {
    var a := s.approvals[id];
    if a.status == Pending && a.run.Some? {
      HeldRunMoves(s, id, Approved, Running, "approval_resolved", c.now);
    }
    hide SetStatus, Inv;
  }

  // The run that a pending approval holds, and what a verdict on the approval makes of it.
  lemma HeldRunMoves(s: State, id: string, verdict: ApprovalStatus, status: RunStatus, node: string, now: int)
    requires Inv(s) && id in s.approvals && s.approvals[id].status == Pending
    requires s.approvals[id].run.Some?
    requires status == Failed
             || (status == Running && (verdict == Approved
                                       || (verdict == Rejected && s.approvals[id].onReject == SkipAction)))
    ensures var a, x := s.approvals[id], s.approvals[id].run.value;
            var runs := s.runs[x := Run(a.workspace, status, Some(node), None, now)];
            var approvals := s.approvals[id := a.(status := verdict)];
            && x in s.runs && s.runs[x].status == Suspended && a.onApprove == ResumeRun
            && SetStatus(Resolve(s, id, verdict), x, status, MovingTo(node), now) ==
                 Ok(if status == Failed
                    then State(runs, map w | w in s.locks && w != a.workspace :: s.locks[w], approvals)
                    else State(runs, s.locks[a.workspace := Lock(x, now)], approvals))
  {
    var x := s.approvals[id].run.value;
    assert PendingOk(s, id, x) && RunOk(s, x);
    SetStatusDecides(Resolve(s, id, verdict), x, status, MovingTo(node), now);
    hide SetStatus, Inv, PendingOk;
  }

  // Rejecting: the run that waited fails, skips its action and runs on, or is left as it is,
  // as the approval says.
  lemma RejectDecides(s: State, id: string, workspace: string, c: Circumstances)
    requires Inv(s) && id in s.approvals && s.approvals[id].workspace == workspace
    ensures var a := s.approvals[id];
            var approvals := s.approvals[id := a.(status := Rejected)];
            Reject(s, id, workspace, c) ==
              if a.status == Rejected then Ok(s)
              else if c.self then Err(SelfResolution)
              else if a.status == Approved then Err(AlreadyResolved)
              else if !c.signed then Err(NotSigned)
              else if !c.targetAccepts then Err(TargetRefused)
              else if a.run == None || a.onReject == NoOp then Ok(State(s.runs, s.locks, approvals))
              else if a.onReject == FailRun then
                Ok(State(s.runs[a.run.value := Run(workspace, Failed, Some("approval_rejected"), None, c.now)],
                         map w | w in s.locks && w != workspace :: s.locks[w], approvals))
              else
                Ok(State(s.runs[a.run.value := Run(workspace, Running, Some("approval_skipped"), None, c.now)],
                         s.locks[workspace := Lock(a.run.value, c.now)], approvals))
  {
    var a := s.approvals[id];
    if a.status == Pending && a.run.Some? {
      HeldRunMoves(s, id, Rejected, Failed, "approval_rejected", c.now);
      if a.onReject == SkipAction {
        HeldRunMoves(s, id, Rejected, Running, "approval_skipped", c.now);
      }
    }
    hide SetStatus, Inv;
  }

  // Tables that other code left inconsistent: approving looks at the run that waited, and
  // moves it only if it is still suspended; rejecting moves it or is refused.
  lemma ResolvingAnIdleRun(s: State, id: string, workspace: string, c: Circumstances, x: string)
    requires id in s.approvals && s.approvals[id].workspace == workspace
    requires s.approvals[id].status == Pending && s.approvals[id].run == Some(x)
    requires s.approvals[id].onApprove == ResumeRun && !c.self && c.signed && c.targetAccepts
    requires x in s.runs ==> s.runs[x].status != Suspended
    ensures var a := s.approvals[id];
            && Approve(s, id, workspace, c) ==
                 (if x !in s.runs then Err(RunNotFound)
                  else Ok(State(s.runs, s.locks, s.approvals[id := a.(status := Approved)])))
            && (a.onReject != NoOp && x !in s.runs ==> Reject(s, id, workspace, c) == Err(RunNotFound))
            && (a.onReject == FailRun && x in s.runs && s.runs[x].status == Completed ==>
                 Reject(s, id, workspace, c) == Err(TerminalRun))
  {
  }

  lemma UnknownIsRefused(s: State, id: string, workspace: string, c: Circumstances)
    requires id in s.approvals ==> s.approvals[id].workspace != workspace
    ensures var error := if id in s.approvals then OtherWorkspace else ApprovalNotFound;
            Approve(s, id, workspace, c) == Err(error) && Reject(s, id, workspace, c) == Err(error)
  {
  }

  // ---- Whole runs ----------------------------------------------------------

  // What can be asked for stands at most once: two approvals for one target are one, unless
  // one of them is rejected.
  ghost predicate OnePerTarget(s: State) {
    forall a, b | a in s.approvals && b in s.approvals ::
      s.approvals[a].status in {Pending, Approved} && StandsFor(s.approvals[b], s.approvals[a]) ==>
        a == b
  }

  lemma NextKeepsOnePerTarget(s: State, op: Op)
    requires Inv(s) && OnePerTarget(s)
    ensures OnePerTarget(Next(s, op))
  {
    var n := Next(s, op);
    match op
    case Create(id, r) => CreateDecides(s, id, r);
    case Move(id, status, o, now) =>
      if id in s.runs { SetStatusDecides(s, id, status, o, now); }
    case Ask(q, now) => AskDecides(s, q, now);
    case ApproveOp(id, w, c) => ApprovalsAfter(s, id, w, c);
    case RejectOp(id, w, c) => ApprovalsAfter(s, id, w, c);
    hide Inv, Next, WaitsProperly, LeavesProperly, LockOpen, Allowed;
  }

  // A resolution changes no approval but the pending one it resolves.
  lemma ApprovalsAfter(s: State, id: string, w: string, c: Circumstances)
    requires Inv(s)
    ensures forall op :: op in {ApproveOp(id, w, c), RejectOp(id, w, c)} ==>
              || Next(s, op).approvals == s.approvals
              || (&& id in s.approvals && s.approvals[id].status == Pending
                  && Next(s, op).approvals ==
                       s.approvals[id := s.approvals[id].(status := if op.ApproveOp? then Approved else Rejected)])
  {
    if id in s.approvals && s.approvals[id].workspace == w {
      ApproveDecides(s, id, w, c);
      RejectDecides(s, id, w, c);
    } else {
      UnknownIsRefused(s, id, w, c);
    }
    hide Inv, Approve, Reject;
  }

  // In every run there is at most one open or approved approval for a target: a repeated
  // request never opens a second one.
  lemma {:induction false} OneApprovalPerTarget(s: State, ops: seq<Op>)
    requires Inv(s) && OnePerTarget(s) && After(s, ops).Some?
    ensures OnePerTarget(After(s, ops).value)
  {
    hide Inv, Next, Ordinary, OnePerTarget;
    if ops != [] {
      OneApprovalPerTarget(s, ops[..|ops| - 1]);
      RunsKeepInv(s, ops[..|ops| - 1]);
      NextKeepsOnePerTarget(After(s, ops[..|ops| - 1]).value, ops[|ops| - 1]);
    }
  }
}
