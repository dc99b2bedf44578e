// Runs, the approvals they wait for and the one active-run lock per workspace, together with the
// approvals that suspend and resume them.

module RunStore {
  import opened Prelude
  import opened RunStates

  datatype Run = Run(
    workspace: string,
    status: RunStatus,
    node: Option<string>,
    waitsFor: Option<string>,
    updatedAt: int)

  datatype Lock = Lock(run: string, heartbeat: int)

  datatype OnApprove = ResumeRun | ApplyWithoutRun

  datatype OnReject = FailRun | SkipAction | NoOp

  datatype Payload = Payload(targetType: string, targetId: string, body: string)

  datatype Approval = Approval(
    workspace: string,
    run: Option<string>,
    action: string,
    requester: string,
    payload: Payload,
    onApprove: OnApprove,
    onReject: OnReject,
    status: ApprovalStatus)

  datatype State = State(
    runs: map<string, Run>,
    locks: map<string, Lock>,
    approvals: map<string, Approval>)

  datatype StoreError =
    | RunNotFound | RunExists | TerminalRun | InvalidTransition | ActiveRunExists
    | ApprovalNotFound | OtherWorkspace | ApprovalConflict | BadRequest | RunNotRunning
    | SelfResolution | NoHandler | AlreadyResolved | NotSigned | TargetRefused

  // An option of setStatus is absent or given, possibly as null.
  datatype Maybe<T> = Unset | Given(value: T)

  datatype Options = Options(node: Maybe<Option<string>>, waitsFor: Maybe<Option<string>>, updatedAt: Option<int>)

  predicate Terminal(status: RunStatus) {
    status == Completed || status == Failed
  }

  predicate Transition(from: RunStatus, to: RunStatus) {
    match from
    case Queued => to == Running
    case Running => to == Suspended || to == Completed || to == Failed
    case Suspended => to == Running || to == Failed
    case Completed => false
    case Failed => false
  }

  // ---- Creating a run and setting its status -------------------------------

  predicate IsPendingFor(s: State, approval: string, workspace: string, run: string) {
    && approval in s.approvals
    && s.approvals[approval].workspace == workspace && s.approvals[approval].run == Some(run)
    && s.approvals[approval].status == Pending
  }

  // Only a suspended run points at an approval, and that one is pending and its own.
  predicate WaitsForValid(
      s: State, run: string, workspace: string, status: RunStatus, waitsFor: Option<string>)
  {
    if status != Suspended then waitsFor.None?
    else waitsFor.Some? && IsPendingFor(s, waitsFor.value, workspace, run)
  }

  // The approval the run waits for was approved, or rejected by skipping the action.
  predicate MayResume(s: State, id: string, r: Run) {
    && r.waitsFor.Some? && r.waitsFor.value in s.approvals
    && var a := s.approvals[r.waitsFor.value];
       && a.workspace == r.workspace && a.run == Some(id)
       && (a.status == Approved || (a.status == Rejected && a.onReject == SkipAction))
  }

  function CreateRun(s: State, id: string, r: Run): Result<State, StoreError> {
    if !WaitsForValid(s, id, r.workspace, r.status, r.waitsFor) then Err(InvalidTransition)
    else if !Terminal(r.status) && r.workspace in s.locks then Err(ActiveRunExists)
    else if id in s.runs then Err(RunExists)
    else
      Ok(s.(runs := s.runs[id := r],
            locks := if Terminal(r.status) then s.locks
                     else s.locks[r.workspace := Lock(id, r.updatedAt)]))
  }

  function NextNode(c: Run, o: Options): Option<string> {
    if o.node.Given? then o.node.value else c.node
  }

  function NextWaitsFor(c: Run, status: RunStatus, o: Options): Option<string> {
    if o.waitsFor.Given? then o.waitsFor.value else if status == Suspended then c.waitsFor else None
  }

  predicate MayMove(s: State, id: string, c: Run, status: RunStatus, waitsFor: Option<string>) {
    && (status != c.status ==> Transition(c.status, status))
    && (c.status == Suspended && status == Suspended ==> waitsFor == c.waitsFor)
    && (c.status == Suspended && status == Running ==> MayResume(s, id, c))
    && WaitsForValid(s, id, c.workspace, status, waitsFor)
  }

  // The lock follows the run: freed when it ends, taken or refreshed while it lives.
  function MoveLock(s: State, id: string, r: Run): Result<State, StoreError> {
    if Terminal(r.status) then
      Ok(s.(locks := if r.workspace in s.locks && s.locks[r.workspace].run == id
                     then s.locks - {r.workspace} else s.locks))
    else if r.workspace in s.locks && s.locks[r.workspace].run != id then Err(ActiveRunExists)
    else Ok(s.(locks := s.locks[r.workspace := Lock(id, r.updatedAt)]))
  }

  function SetStatus(s: State, id: string, status: RunStatus, o: Options, now: int)
    : Result<State, StoreError>
  {
    if id !in s.runs then Err(RunNotFound)
    else
      var c := s.runs[id];
      var node, waitsFor := NextNode(c, o), NextWaitsFor(c, status, o);
      if Terminal(c.status) then
        (if status == c.status && node == c.node && waitsFor == c.waitsFor
            && (o.updatedAt.None? || o.updatedAt.value == c.updatedAt) then Ok(s)
         else Err(TerminalRun))
      else if !MayMove(s, id, c, status, waitsFor) then Err(InvalidTransition)
      else
        var at := if o.updatedAt.Some? then o.updatedAt.value else now;
        var updated := Run(c.workspace, status, node, waitsFor, at);
        MoveLock(s.(runs := s.runs[id := updated]), id, updated)
  }

  // ---- Requesting and resolving approvals ----------------------------------

  datatype Request = Request(id: string, given: bool, approval: Approval)

  predicate SamePayloadTarget(a: Approval, workspace: string, p: Payload) {
    a.workspace == workspace && a.payload.targetType == p.targetType && a.payload.targetId == p.targetId
  }

  // The approval a repeated request finds: the one of that id, else an open or approved one
  // for the same target.
  predicate Replays(s: State, q: Request, a: string) {
    && a in s.approvals
    && (if q.given && q.id in s.approvals then a == q.id
        else
          && SamePayloadTarget(s.approvals[a], q.approval.workspace, q.approval.payload)
          && s.approvals[a].status != Rejected)
  }

  ghost predicate IsNew(s: State, q: Request) {
    forall a :: !Replays(s, q, a)
  }

  function Suspending(id: string): Options {
    Options(Given(Some("approval_requested")), Given(Some(id)), None)
  }

  function MovingTo(node: string): Options {
    Options(Given(Some(node)), Unset, None)
  }

  // A request that finds no earlier one.
  function OpenRequest(s: State, q: Request, now: int): Result<State, StoreError> {
    var a := q.approval;
    if a.run.Some? && a.run.value !in s.runs then Err(RunNotFound)
    else if a.run.Some? && s.runs[a.run.value].workspace != a.workspace then Err(OtherWorkspace)
    else if a.run.Some? && s.runs[a.run.value].status != Running then Err(RunNotRunning)
    else if q.id in s.approvals then Err(ApprovalConflict)
    else
      var asked := s.(approvals := s.approvals[q.id := a]);
      if a.run.None? then Ok(asked)
      else SetStatus(asked, a.run.value, Suspended, Suspending(q.id), now)
  }

  predicate WellFormed(a: Approval) {
    a.status == Pending && (a.run.None? <==> a.onApprove == ApplyWithoutRun)
  }

  // How the world outside the run layer answers a resolution.
  datatype Circumstances = Circumstances(
    self: bool, signed: bool, hasHandler: bool, targetAccepts: bool, now: int)

  function Resolve(s: State, id: string, status: ApprovalStatus): State
    requires id in s.approvals
  {
    s.(approvals := s.approvals[id := s.approvals[id].(status := status)])
  }

  function Approve(s: State, id: string, workspace: string, c: Circumstances)
    : Result<State, StoreError>
  {
    if id !in s.approvals then Err(ApprovalNotFound)
    else
      var a := s.approvals[id];
      if a.workspace != workspace then Err(OtherWorkspace)
      else if a.status == Approved then Ok(s)
      else if c.self then Err(SelfResolution)
      else if a.onApprove == ApplyWithoutRun && !c.hasHandler then Err(NoHandler)
      else if a.status == Rejected then Err(AlreadyResolved)
      else if !c.signed then Err(NotSigned)
      else
        var resolved := Resolve(s, id, Approved);
        if a.run.Some? && a.onApprove == ResumeRun then
          (if a.run.value !in s.runs then Err(RunNotFound)
           else if s.runs[a.run.value].status == Suspended
           then SetStatus(resolved, a.run.value, Running, MovingTo("approval_resolved"), c.now)
           else Ok(resolved))
        else if a.onApprove == ApplyWithoutRun && !c.targetAccepts then Err(TargetRefused)
        else Ok(resolved)
  }

  function Reject(s: State, id: string, workspace: string, c: Circumstances)
    : Result<State, StoreError>
  {
    if id !in s.approvals then Err(ApprovalNotFound)
    else
      var a := s.approvals[id];
      if a.workspace != workspace then Err(OtherWorkspace)
      else if a.status == Rejected then Ok(s)
      else if c.self then Err(SelfResolution)
      else if a.status == Approved then Err(AlreadyResolved)
      else if !c.signed then Err(NotSigned)
      else if !c.targetAccepts then Err(TargetRefused)
      else
        var resolved := Resolve(s, id, Rejected);
        if a.run.Some? && a.onReject == FailRun
        then SetStatus(resolved, a.run.value, Failed, MovingTo("approval_rejected"), c.now)
        else if a.run.Some? && a.onReject == SkipAction
        then SetStatus(resolved, a.run.value, Running, MovingTo("approval_skipped"), c.now)
        else Ok(resolved)
  }

  // ---- The stores, statement by statement ----------------------------------

  // The new state of an operation that throws is the old one.
  function StateOf(s: State, r: Result<State, StoreError>): State {
    if r.Ok? then r.value else s
  }

  function ErrorOf(r: Result<State, StoreError>): Option<StoreError> {
    if r.Ok? then None else Some(r.error)
  }

  class Store {
    var runs: map<string, Run>
    var locks: map<string, Lock>
    var approvals: map<string, Approval>

    function Contents(): State
      reads this
    {
      State(runs, locks, approvals)
    }

    constructor (s: State)
      ensures Contents() == s
    {
      runs, locks, approvals := s.runs, s.locks, s.approvals;
    }

    method Create(id: string, r: Run) returns (error: Option<StoreError>)
      modifies this
      ensures var spec := CreateRun(old(Contents()), id, r);
              Contents() == StateOf(old(Contents()), spec) && error == ErrorOf(spec)
    {
      if !WaitsForValid(Contents(), id, r.workspace, r.status, r.waitsFor) {
        return Some(InvalidTransition);
      }
      if !Terminal(r.status) && r.workspace in locks {
        return Some(ActiveRunExists);
      }
      if id in runs {
        return Some(RunExists);
      }
      runs := runs[id := r];
      if !Terminal(r.status) {
        locks := locks[r.workspace := Lock(id, r.updatedAt)];
      }
      return None;
    }

    method RefreshLock(id: string, r: Run) returns (error: Option<StoreError>)
      modifies this`locks
      ensures var spec := MoveLock(old(Contents()), id, r);
              Contents() == StateOf(old(Contents()), spec) && error == ErrorOf(spec)
    {
      if Terminal(r.status) {
        if r.workspace in locks && locks[r.workspace].run == id {
          locks := locks - {r.workspace};
        }
        return None;
      }
      if r.workspace in locks && locks[r.workspace].run != id {
        return Some(ActiveRunExists);
      }
      locks := locks[r.workspace := Lock(id, r.updatedAt)];
      return None;
    }

    method ValidateMove(id: string, current: Run, status: RunStatus, waitsFor: Option<string>)
      returns (valid: bool)
      ensures valid == MayMove(Contents(), id, current, status, waitsFor)
    {
      if status != current.status && !Transition(current.status, status) {
        return false;
      }
      if current.status == Suspended && status == Suspended && waitsFor != current.waitsFor {
        return false;
      }
      if current.status == Suspended && status == Running && !MayResume(Contents(), id, current) {
        return false;
      }
      return WaitsForValid(Contents(), id, current.workspace, status, waitsFor);
    }

    method SetRunStatus(id: string, status: RunStatus, o: Options, now: int)
      returns (error: Option<StoreError>)
      modifies this`runs, this`locks
      ensures var spec := SetStatus(old(Contents()), id, status, o, now);
              Contents() == StateOf(old(Contents()), spec) && error == ErrorOf(spec)
    {
      hide MoveLock, MayMove, NextNode, NextWaitsFor;
      if id !in runs {
        return Some(RunNotFound);
      }
      var current := runs[id];
      var node, waitsFor := NextNode(current, o), NextWaitsFor(current, status, o);
      if Terminal(current.status) {
        if status == current.status && node == current.node && waitsFor == current.waitsFor
           && (o.updatedAt.None? || o.updatedAt.value == current.updatedAt) {
          return None;
        }
        return Some(TerminalRun);
      }
      var valid := ValidateMove(id, current, status, waitsFor);
      if !valid {
        return Some(InvalidTransition);
      }
      var updated := Run(current.workspace, status, node, waitsFor,
                         if o.updatedAt.Some? then o.updatedAt.value else now);
      var before := runs;
      runs := runs[id := updated];
      error := RefreshLock(id, updated);
      if error.Some? {
        runs := before;
      }
    }

    // Scans for the approval a repeated request stands for.
    method FindExisting(q: Request) returns (found: Option<string>)
      ensures found.Some? ==> Replays(Contents(), q, found.value)
      ensures found.None? ==> IsNew(Contents(), q)
    {
      if q.given && q.id in approvals {
        return Some(q.id);
      }
      var rest := approvals.Keys;
      while rest != {}
        invariant rest <= approvals.Keys
        invariant forall a :: a in approvals.Keys - rest ==> !Replays(Contents(), q, a)
        decreases |rest|
      {
        var a :| a in rest;
        if SamePayloadTarget(approvals[a], q.approval.workspace, q.approval.payload)
           && approvals[a].status != Rejected {
          return Some(a);
        }
        rest := rest - {a};
      }
      return None;
    }

    // A repeated request changes nothing; a new one opens the approval and suspends its run.
    method RequestApproval(q: Request, now: int) returns (r: Result<string, StoreError>)
      modifies this
      ensures !WellFormed(q.approval) ==> r == Err(BadRequest) && Contents() == old(Contents())
      ensures WellFormed(q.approval) && !IsNew(old(Contents()), q) ==>
        && Contents() == old(Contents())
        && (r.Ok? ==>
             && Replays(Contents(), q, r.value)
             && approvals[r.value].(status := Pending) == q.approval)
        && (r.Err? ==> r.error == ApprovalConflict)
      ensures WellFormed(q.approval) && IsNew(old(Contents()), q) ==>
        var spec := OpenRequest(old(Contents()), q, now);
        && Contents() == StateOf(old(Contents()), spec)
        && r == (if spec.Ok? then Ok(q.id) else Err(spec.error))
    {
      hide SetStatus;
      var a := q.approval;
      if a.status != Pending || (a.run.None? && a.onApprove == ResumeRun)
         || (a.run.Some? && a.onApprove == ApplyWithoutRun) {
        return Err(BadRequest);
      }
      var existing := FindExisting(q);
      if existing.Some? {
        var found := approvals[existing.value];
        return if found.(status := Pending) == a then Ok(existing.value) else Err(ApprovalConflict);
      }
      if a.run.Some? {
        if a.run.value !in runs {
          return Err(RunNotFound);
        }
        if runs[a.run.value].workspace != a.workspace {
          return Err(OtherWorkspace);
        }
        if runs[a.run.value].status != Running {
          return Err(RunNotRunning);
        }
      }
      if q.id in approvals {
        return Err(ApprovalConflict);
      }
      var before := approvals;
      approvals := approvals[q.id := a];
      if a.run.Some? {
        var error := SetRunStatus(a.run.value, Suspended, Suspending(q.id), now);
        if error.Some? {
          approvals := before;
          return Err(error.value);
        }
      }
      return Ok(q.id);
    }

    method ApproveApproval(id: string, workspace: string, c: Circumstances)
      returns (error: Option<StoreError>)
      modifies this
      ensures var spec := Approve(old(Contents()), id, workspace, c);
              Contents() == StateOf(old(Contents()), spec) && error == ErrorOf(spec)
    {
      hide SetStatus;
      if id !in approvals {
        return Some(ApprovalNotFound);
      }
      var current := approvals[id];
      if current.workspace != workspace {
        return Some(OtherWorkspace);
      }
      if current.status == Approved {
        return None;
      }
      if c.self {
        return Some(SelfResolution);
      }
      if current.onApprove == ApplyWithoutRun && !c.hasHandler {
        return Some(NoHandler);
      }
      if current.status == Rejected {
        return Some(AlreadyResolved);
      }
      if !c.signed {
        return Some(NotSigned);
      }
      var before := approvals;
      approvals := approvals[id := current.(status := Approved)];
      error := None;
      if current.run.Some? && current.onApprove == ResumeRun {
        if current.run.value !in runs {
          error := Some(RunNotFound);
        } else if runs[current.run.value].status == Suspended {
          error := SetRunStatus(current.run.value, Running, MovingTo("approval_resolved"), c.now);
        }
      } else if current.onApprove == ApplyWithoutRun && !c.targetAccepts {
        error := Some(TargetRefused);
      }
      if error.Some? {
        approvals := before;
      }
    }

    method RejectApproval(id: string, workspace: string, c: Circumstances)
      returns (error: Option<StoreError>)
      modifies this
      ensures var spec := Reject(old(Contents()), id, workspace, c);
              Contents() == StateOf(old(Contents()), spec) && error == ErrorOf(spec)
    {
      hide SetStatus;
      if id !in approvals {
        return Some(ApprovalNotFound);
      }
      var current := approvals[id];
      if current.workspace != workspace {
        return Some(OtherWorkspace);
      }
      if current.status == Rejected {
        return None;
      }
      if c.self {
        return Some(SelfResolution);
      }
      if current.status == Approved {
        return Some(AlreadyResolved);
      }
      if !c.signed {
        return Some(NotSigned);
      }
      if !c.targetAccepts {
        return Some(TargetRefused);
      }
      var before := approvals;
      approvals := approvals[id := current.(status := Rejected)];
      error := None;
      if current.run.Some? && current.onReject == FailRun {
        error := SetRunStatus(current.run.value, Failed, MovingTo("approval_rejected"), c.now);
      } else if current.run.Some? && current.onReject == SkipAction {
        error := SetRunStatus(current.run.value, Running, MovingTo("approval_skipped"), c.now);
      }
      if error.Some? {
        approvals := before;
      }
    }
  }
}
