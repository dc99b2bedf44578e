// The gateway's tables and its transactions: insert-once calls, decisions, results and node
// effects, one approval per call, and the transaction that opens every invocation.

module GatewayTables {
  import opened GatewayDecision
  import opened Prelude
  import opened RunStates

  datatype Run = Run(workspace: string, status: RunStatus)

  datatype ApprovalTarget = CallTarget(id: string) | OtherTarget

  datatype Approval = Approval(
    workspace: string, run: Option<string>, target: ApprovalTarget, status: ApprovalStatus)

  datatype CallStatus = Succeeded | Blocked | Unsuccessful

  datatype CallResult = CallResult(status: CallStatus, reason: Reason, output: string)

  datatype EffectKey = EffectKey(run: string, node: string, call: string)

  datatype CallKey = CallKey(workspace: string, key: string)

  datatype CapabilityKey = CapabilityKey(workspace: string, name: string)

  // One database. `callKeys` is the unique index on a call's idempotency key.
  datatype Db = Db(
    facts: Facts,
    runs: map<string, Run>,
    capabilities: map<CapabilityKey, Capability>,
    calls: map<string, Call>,
    callKeys: map<CallKey, string>,
    decisions: map<string, Decision>,
    approvals: map<string, Approval>,
    results: map<string, CallResult>,
    effects: set<EffectKey>)

  datatype GatewayError =
    | CapabilityNotRegistered | CallRefused | RunNotExecutable | CallKeyReused | CallIdTaken
    | DecisionMissing | ApprovalConflict | ResultConflict

  datatype Invocation = Invocation(
    call: Call, decision: Decision, approvalId: Option<string>, result: Option<CallResult>)

  datatype Executable = Executable(
    call: Call, capability: Capability, decision: Decision, approvalId: Option<string>)

  datatype TxResult =
    | Thrown(error: GatewayError)
    | Answered(db: Db, invocation: Invocation)
    | Execute(db: Db, executable: Executable)

  // What one registry brings: its providers, its naming of approvals and its input checks.
  datatype Config = Config(
    providers: map<string, bool>,
    approvalIdFor: string -> string,
    acceptable: (Call, Capability) -> bool)

  function KeyOf(call: Call): CallKey {
    CallKey(call.workspace, call.key)
  }

  function CapabilityOf(call: Call): CapabilityKey {
    CapabilityKey(call.workspace, call.capability)
  }

  function EffectOf(call: Call): EffectKey {
    EffectKey(call.run, call.capability, call.id)
  }

  // ---- The tables' invariant -----------------------------------------------

  ghost predicate CallIndexed(db: Db, id: string) {
    id in db.calls ==>
      && db.calls[id].id == id
      && KeyOf(db.calls[id]) in db.callKeys && db.callKeys[KeyOf(db.calls[id])] == id
  }

  ghost predicate KeyIndexed(db: Db, k: CallKey) {
    k in db.callKeys ==>
      db.callKeys[k] in db.calls && KeyOf(db.calls[db.callKeys[k]]) == k
  }

  // A decision belongs to a recorded call, and anything but a block to one its task
  // envelope covers; a result comes after a decision.
  ghost predicate DecisionBacked(db: Db, id: string) {
    && (id in db.results ==> id in db.decisions)
    && (id in db.decisions ==>
         && id in db.calls
         && (db.decisions[id].outcome != Block ==>
              && CapabilityOf(db.calls[id]) in db.capabilities
              && Covered(db.facts.tasks, db.calls[id], db.capabilities[CapabilityOf(db.calls[id])])))
  }

  predicate Targets(a: Approval, workspace: string, callId: string) {
    a.workspace == workspace && a.target == CallTarget(callId)
  }

  ghost predicate HasApproval(approvals: map<string, Approval>, call: Call) {
    exists a :: a in approvals && Targets(approvals[a], call.workspace, call.id)
  }

  // A call has an approval exactly when its recorded decision requires one, and never two.
  ghost predicate ApprovalPresent(db: Db, id: string) {
    id in db.calls && id in db.decisions && db.decisions[id].outcome == RequireApproval ==>
      HasApproval(db.approvals, db.calls[id])
  }

  ghost predicate ApprovalBacked(db: Db, a: string) {
    a in db.approvals && db.approvals[a].target.CallTarget? ==>
      var id := db.approvals[a].target.id;
      && id in db.decisions && id in db.calls
      && db.decisions[id].outcome == RequireApproval
      && db.approvals[a].workspace == db.calls[id].workspace
  }

  ghost predicate ApprovalsApart(db: Db, a: string, b: string) {
    a in db.approvals && b in db.approvals && a != b && db.approvals[a].target.CallTarget? ==>
      db.approvals[a].target != db.approvals[b].target
  }

  ghost predicate Indexed(db: Db) {
    (forall id :: CallIndexed(db, id)) && (forall k :: KeyIndexed(db, k))
  }

  ghost predicate Backed(db: Db) {
    (forall id :: DecisionBacked(db, id)) && (forall a :: ApprovalBacked(db, a))
  }

  ghost predicate Matched(db: Db) {
    (forall id :: ApprovalPresent(db, id)) && (forall a, b :: ApprovalsApart(db, a, b))
  }

  ghost predicate Consistent(db: Db) {
    Indexed(db) && Backed(db) && Matched(db)
  }

  // ---- Stores --------------------------------------------------------------

  // Insert once by idempotency key; a replay must be the same call.
  function RecordCall(db: Db, call: Call): Result<Db, GatewayError> {
    var key := KeyOf(call);
    if key in db.callKeys then
      (if db.callKeys[key] in db.calls && db.calls[db.callKeys[key]] == call then Ok(db)
       else Err(CallKeyReused))
    else if call.id in db.calls then Err(CallIdTaken)
    else Ok(db.(calls := db.calls[call.id := call], callKeys := db.callKeys[key := call.id]))
  }

  // Insert once by call. Every result carries a new id, so a second one is never a replay.
  function RecordResult(db: Db, callId: string, result: CallResult): Result<Db, GatewayError> {
    if callId in db.results then Err(ResultConflict)
    else Ok(db.(results := db.results[callId := result]))
  }

  // The transaction that starts a call's provider: only the first starter inserts the effect.
  function StartOnce(db: Db, call: Call): (r: (Db, bool)) {
    if EffectOf(call) in db.effects then (db, false)
    else (db.(effects := db.effects + {EffectOf(call)}), true)
  }

  function StoredResult(db: Db, call: Call): Option<CallResult> {
    if call.id in db.results then Some(db.results[call.id]) else None
  }

  // What a failed invocation records, when it found nothing stored.
  function FailureFor(reason: Reason): CallResult {
    CallResult(Unsuccessful, reason, "")
  }

  ghost function FindForTarget(db: Db, workspace: string, callId: string): (r: Option<string>)
    ensures r.Some? ==>
      r.value in db.approvals && Targets(db.approvals[r.value], workspace, callId)
    ensures r.None? ==>
      forall a :: a in db.approvals ==> !Targets(db.approvals[a], workspace, callId)
  {
    if exists a :: a in db.approvals && Targets(db.approvals[a], workspace, callId) then
      var a :| a in db.approvals && Targets(db.approvals[a], workspace, callId);
      Some(a)
    else None
  }

  predicate RunIsExecutable(db: Db, call: Call) {
    && call.run in db.runs && db.runs[call.run].workspace == call.workspace
    && db.runs[call.run].status == Running
  }

  // Asks for the approval of a call that has none: an approval of that name is for something
  // else, and only a running run can be suspended.
  function RequestApproval(db: Db, id: string, call: Call): Result<Db, GatewayError> {
    if id in db.approvals then Err(ApprovalConflict)
    else if !RunIsExecutable(db, call) then Err(RunNotExecutable)
    else
      Ok(db.(approvals := db.approvals[id :=
               Approval(call.workspace, Some(call.run), CallTarget(call.id), Pending)],
             runs := db.runs[call.run := Run(call.workspace, Suspended)]))
  }

  // ---- The transaction that opens an invocation ----------------------------

  function AnswerBlocked(
      db: Db, call: Call, decision: Decision, approvalId: Option<string>, reason: Reason): TxResult
  {
    var result := CallResult(Blocked, reason, "");
    match RecordResult(db, call.id, result)
    case Err(e) => Thrown(e)
    case Ok(after) => Answered(after, Invocation(call, decision, approvalId, Some(result)))
  }

  // A recorded decision other than a block executes unless the grant is suspended by now.
  function ResumeCall(
      db: Db, call: Call, capability: Capability, decision: Decision, approvalId: Option<string>)
    : TxResult
  {
    if GrantOf(call) in db.facts.suspended then AnswerBlocked(db, call, decision, None, GrantSuspended)
    else Execute(db, Executable(call, capability, decision, approvalId))
  }

  function DecideFresh(cfg: Config, db: Db, call: Call, capability: Capability): TxResult {
    var d := DecideCall(db.facts, cfg.providers, call, capability);
    var decided := db.(decisions := db.decisions[call.id := d]);
    match d.outcome
    case RequireApproval =>
      (match RequestApproval(decided, cfg.approvalIdFor(call.id), call)
       case Err(e) => Thrown(e)
       case Ok(after) =>
         Answered(after, Invocation(call, d, Some(cfg.approvalIdFor(call.id)), None)))
    case Block => AnswerBlocked(decided, call, d, None, d.reason)
    case Allow => Execute(decided, Executable(call, capability, d, None))
  }

  function ContinueApproval(
      db: Db, call: Call, capability: Capability, a: string): TxResult
    requires a in db.approvals
  {
    if call.id !in db.decisions then Thrown(DecisionMissing)
    else
      var d := db.decisions[call.id];
      match db.approvals[a].status
      case Approved => ResumeCall(db, call, capability, d, Some(a))
      case Rejected => AnswerBlocked(db, call, d, Some(a), ApprovalRejected)
      case Pending => Answered(db, Invocation(call, d, Some(a), None))
  }

  ghost function Continue(cfg: Config, db: Db, call: Call, capability: Capability): TxResult {
    var approval := FindForTarget(db, call.workspace, call.id);
    if call.id in db.results then
      (if call.id !in db.decisions then Thrown(DecisionMissing)
       else Answered(db, Invocation(call, db.decisions[call.id], None, Some(db.results[call.id]))))
    else if approval.Some? then ContinueApproval(db, call, capability, approval.value)
    else if call.id in db.decisions then
      (var d := db.decisions[call.id];
       if d.outcome == Block then AnswerBlocked(db, call, d, None, d.reason)
       else ResumeCall(db, call, capability, d, None))
    else DecideFresh(cfg, db, call, capability)
  }

  ghost function InvokeTx(cfg: Config, db: Db, call: Call): TxResult {
    if CapabilityOf(call) !in db.capabilities then Thrown(CapabilityNotRegistered)
    else
      var capability := db.capabilities[CapabilityOf(call)];
      if !cfg.acceptable(call, capability) then Thrown(CallRefused)
      else if KeyOf(call) !in db.callKeys && !RunIsExecutable(db, call) then Thrown(RunNotExecutable)
      else
        match RecordCall(db, call)
        case Err(e) => Thrown(e)
        case Ok(recorded) => Continue(cfg, recorded, call, capability)
  }

  // ---- What later states keep of earlier ones ------------------------------

  ghost predicate Extends(before: Db, after: Db) {
    && (forall id :: id in before.calls ==> id in after.calls && after.calls[id] == before.calls[id])
    && (forall id :: id in before.decisions ==>
         id in after.decisions && after.decisions[id] == before.decisions[id])
    && (forall id :: id in before.results ==>
         id in after.results && after.results[id] == before.results[id])
    && (forall a :: a in before.approvals ==>
         && a in after.approvals && after.approvals[a].target == before.approvals[a].target
         && after.approvals[a].workspace == before.approvals[a].workspace
         && (before.approvals[a].status != Pending ==> after.approvals[a] == before.approvals[a]))
    && (forall k :: k in before.capabilities ==>
         k in after.capabilities && after.capabilities[k] == before.capabilities[k])
    && (forall t :: t in before.facts.tasks ==>
         t in after.facts.tasks && after.facts.tasks[t] == before.facts.tasks[t])
    && before.effects <= after.effects
  }

  // What licenses one execution of the provider: the recorded decision allows it, or an
  // approved approval does, and the task envelope covers the call.
  ghost predicate Licensed(db: Db, e: Executable) {
    && e.call.id in db.calls && db.calls[e.call.id] == e.call
    && CapabilityOf(e.call) in db.capabilities && db.capabilities[CapabilityOf(e.call)] == e.capability
    && e.call.id in db.decisions && db.decisions[e.call.id] == e.decision
    && Covered(db.facts.tasks, e.call, e.capability)
    && (e.decision.outcome == Allow
        || (&& e.decision.outcome == RequireApproval && e.approvalId.Some?
            && e.approvalId.value in db.approvals
            && Targets(db.approvals[e.approvalId.value], e.call.workspace, e.call.id)
            && db.approvals[e.approvalId.value].status == Approved))
  }

  lemma LicenceLasts(before: Db, after: Db, e: Executable)
    requires Extends(before, after) && Licensed(before, e)
    ensures Licensed(after, e)
  {
  }

  lemma ExtendsIsTransitive(a: Db, b: Db, c: Db)
    requires Extends(a, b) && Extends(b, c)
    ensures Extends(a, c)
  {
  }

  // ---- The opening transaction keeps the tables consistent -----------------

  lemma RecordCallKeeps(db: Db, call: Call)
    requires Consistent(db) && RecordCall(db, call).Ok?
    ensures Consistent(RecordCall(db, call).value)
  {
    var after := RecordCall(db, call).value;
    if KeyOf(call) !in db.callKeys {
      assert DecisionBacked(db, call.id);
      forall id ensures CallIndexed(after, id) && DecisionBacked(after, id) && ApprovalPresent(after, id) {
        assert CallIndexed(db, id) && DecisionBacked(db, id) && ApprovalPresent(db, id);
      }
      forall k ensures KeyIndexed(after, k) { assert KeyIndexed(db, k); }
      forall a ensures ApprovalBacked(after, a) { assert ApprovalBacked(db, a); }
      forall a, b ensures ApprovalsApart(after, a, b) { assert ApprovalsApart(db, a, b); }
    }
  }

  lemma RecordCallRecords(db: Db, call: Call)
    requires Indexed(db) && RecordCall(db, call).Ok?
    ensures var after := RecordCall(db, call).value;
            && Extends(db, after) && call.id in after.calls && after.calls[call.id] == call
            && after.results == db.results && after.effects == db.effects
            && after.facts == db.facts && after.capabilities == db.capabilities
  {
    if KeyOf(call) in db.callKeys {
      assert CallIndexed(db, db.callKeys[KeyOf(call)]);
    }
  }

  // Tables that only gain rows in `decisions` and `results` keep what does not read them.
  lemma SameCallsAndApprovals(db: Db, after: Db)
    requires Indexed(db) && after.calls == db.calls && after.callKeys == db.callKeys
    requires after.approvals == db.approvals && forall a, b :: ApprovalsApart(db, a, b)
    ensures Indexed(after) && forall a, b :: ApprovalsApart(after, a, b)
  {
    forall id ensures CallIndexed(after, id) { assert CallIndexed(db, id); }
    forall k ensures KeyIndexed(after, k) { assert KeyIndexed(db, k); }
    forall a, b ensures ApprovalsApart(after, a, b) { assert ApprovalsApart(db, a, b); }
  }

  lemma RecordResultKeeps(db: Db, callId: string, result: CallResult)
    requires Consistent(db) && callId in db.decisions && RecordResult(db, callId, result).Ok?
    ensures var after := RecordResult(db, callId, result).value;
            Consistent(after) && Extends(db, after) && callId in after.results
  {
    var after := RecordResult(db, callId, result).value;
    SameCallsAndApprovals(db, after);
    forall id ensures DecisionBacked(after, id) && ApprovalPresent(after, id) {
      assert DecisionBacked(db, id) && ApprovalPresent(db, id);
    }
    forall a ensures ApprovalBacked(after, a) { assert ApprovalBacked(db, a); }
  }

  // A decision recorded for a call without one leaves at most its approval to be asked for.
  lemma RecordDecisionKeeps(cfg: Config, db: Db, call: Call, capability: Capability)
    requires Consistent(db) && call.id in db.calls && db.calls[call.id] == call
    requires CapabilityOf(call) in db.capabilities && db.capabilities[CapabilityOf(call)] == capability
    requires call.id !in db.decisions && call.id !in db.results
    ensures var d := DecideCall(db.facts, cfg.providers, call, capability);
            var after := db.(decisions := db.decisions[call.id := d]);
            && Indexed(after) && Backed(after) && Extends(db, after)
            && (forall a, b :: ApprovalsApart(after, a, b))
            && (forall id :: id != call.id ==> ApprovalPresent(after, id))
            && (d.outcome != Block ==>
                 Covered(db.facts.tasks, call, capability) && GrantOf(call) !in db.facts.suspended)
  {
    hide DecideCall;
    DecisionIsExact(db.facts, cfg.providers, call, capability);
    var d := DecideCall(db.facts, cfg.providers, call, capability);
    var after := db.(decisions := db.decisions[call.id := d]);
    SameCallsAndApprovals(db, after);
    forall id ensures DecisionBacked(after, id) { assert DecisionBacked(db, id); }
    forall a ensures ApprovalBacked(after, a) { assert ApprovalBacked(db, a); }
    forall id | id != call.id ensures ApprovalPresent(after, id) {
      assert ApprovalPresent(db, id);
    }
  }

  lemma RequestApprovalKeeps(db: Db, id: string, call: Call)
    requires Indexed(db) && Backed(db) && (forall a, b :: ApprovalsApart(db, a, b))
    requires forall c :: c != call.id ==> ApprovalPresent(db, c)
    requires call.id in db.calls && db.calls[call.id] == call
    requires call.id in db.decisions && db.decisions[call.id].outcome == RequireApproval
    requires !HasApproval(db.approvals, call) && RequestApproval(db, id, call).Ok?
    ensures var after := RequestApproval(db, id, call).value;
            Consistent(after) && Extends(db, after)
  {
    var after := RequestApproval(db, id, call).value;
    forall c ensures CallIndexed(after, c) { assert CallIndexed(db, c); }
    forall k ensures KeyIndexed(after, k) { assert KeyIndexed(db, k); }
    forall c ensures DecisionBacked(after, c) { assert DecisionBacked(db, c); }
    forall a ensures ApprovalBacked(after, a) { assert ApprovalBacked(db, a); }
    forall a, b ensures ApprovalsApart(after, a, b) {
      assert ApprovalsApart(db, a, b) && ApprovalBacked(db, a) && ApprovalBacked(db, b);
    }
    forall c ensures ApprovalPresent(after, c) {
      if c == call.id {
        assert Targets(after.approvals[id], call.workspace, call.id);
      } else {
        assert ApprovalPresent(db, c) && CallIndexed(db, c);
        if c in db.calls && HasApproval(db.approvals, db.calls[c]) {
          var a :| a in db.approvals && Targets(db.approvals[a], db.calls[c].workspace, c);
          assert a in after.approvals && after.approvals[a] == db.approvals[a];
        }
      }
    }
  }

  ghost predicate TxSound(db: Db, r: TxResult, call: Call) {
    match r
    case Thrown(e) => e != DecisionMissing
    case Answered(after, inv) =>
      && Consistent(after) && Extends(db, after) && after.effects == db.effects
      && (forall id :: id in after.results && id !in db.results ==>
           after.results[id].status == Blocked)
      && (inv.result.Some? ==> call.id in after.results && after.results[call.id] == inv.result.value)
      && inv.call == call && call.id in after.calls && after.calls[call.id] == call
      && call.id in after.decisions && after.decisions[call.id] == inv.decision
    case Execute(after, e) =>
      && Consistent(after) && Extends(db, after) && after.effects == db.effects
      && after.results == db.results && call.id !in after.results
      && e.call == call && Licensed(after, e) && GrantOf(call) !in db.facts.suspended
  }

  lemma AnswerBlockedIsSound(
      db: Db, call: Call, decision: Decision, approvalId: Option<string>, reason: Reason)
    requires Consistent(db) && call.id !in db.results
    requires call.id in db.calls && db.calls[call.id] == call
    requires call.id in db.decisions && db.decisions[call.id] == decision
    ensures TxSound(db, AnswerBlocked(db, call, decision, approvalId, reason), call)
  {
    hide Consistent;
    RecordResultKeeps(db, call.id, CallResult(Blocked, reason, ""));
  }

  lemma ResumeIsSound(
      db: Db, call: Call, capability: Capability, d: Decision, approvalId: Option<string>)
    requires Consistent(db) && call.id !in db.results
    requires Licensed(db, Executable(call, capability, d, approvalId))
    ensures TxSound(db, ResumeCall(db, call, capability, d, approvalId), call)
  {
    hide Consistent, AnswerBlocked;
    if GrantOf(call) in db.facts.suspended {
      AnswerBlockedIsSound(db, call, d, None, GrantSuspended);
    }
  }

  lemma ContinueApprovalIsSound(db: Db, call: Call, capability: Capability, a: string)
    requires Consistent(db) && call.id in db.calls && db.calls[call.id] == call
    requires CapabilityOf(call) in db.capabilities && db.capabilities[CapabilityOf(call)] == capability
    requires call.id !in db.results
    requires a in db.approvals && Targets(db.approvals[a], call.workspace, call.id)
    ensures TxSound(db, ContinueApproval(db, call, capability, a), call)
  {
    hide AnswerBlocked, ResumeCall;
    assert ApprovalBacked(db, a) && DecisionBacked(db, call.id);
    hide Consistent;
    var d := db.decisions[call.id];
    match db.approvals[a].status
    case Approved => ResumeIsSound(db, call, capability, d, Some(a));
    case Rejected => AnswerBlockedIsSound(db, call, d, Some(a), ApprovalRejected);
    case Pending =>
  }

  // A transaction is as sound from an earlier state with the same facts and results.
  lemma SoundFromEarlier(db: Db, middle: Db, r: TxResult, call: Call)
    requires Extends(db, middle) && TxSound(middle, r, call)
    requires middle.effects == db.effects && middle.results == db.results && middle.facts == db.facts
    ensures TxSound(db, r, call)
  {
    hide Consistent, Licensed;
    if !r.Thrown? {
      ExtendsIsTransitive(db, middle, r.db);
    }
    hide Extends;
  }

  lemma DecideFreshIsSound(cfg: Config, db: Db, call: Call, capability: Capability)
    requires Consistent(db) && call.id in db.calls && db.calls[call.id] == call
    requires CapabilityOf(call) in db.capabilities && db.capabilities[CapabilityOf(call)] == capability
    requires call.id !in db.decisions && call.id !in db.results && !HasApproval(db.approvals, call)
    ensures TxSound(db, DecideFresh(cfg, db, call, capability), call)
  {
    hide DecideCall, AnswerBlocked, Extends, Covered;
    var d := DecideCall(db.facts, cfg.providers, call, capability);
    var decided := db.(decisions := db.decisions[call.id := d]);
    RecordDecisionKeeps(cfg, db, call, capability);
    assert d.outcome != RequireApproval ==> ApprovalPresent(decided, call.id);
    hide Indexed, Backed;
    match d.outcome
    case RequireApproval =>
      if RequestApproval(decided, cfg.approvalIdFor(call.id), call).Ok? {
        RequestApprovalKeeps(decided, cfg.approvalIdFor(call.id), call);
        ExtendsIsTransitive(db, decided, RequestApproval(decided, cfg.approvalIdFor(call.id), call).value);
      }
    case Block =>
      AnswerBlockedIsSound(decided, call, d, None, d.reason);
      SoundFromEarlier(db, decided, AnswerBlocked(decided, call, d, None, d.reason), call);
    case Allow =>
  }

  // "Require approval" on record implies an approval exists, so a recorded decision without
  // one is an allow.
  lemma ContinueIsSound(cfg: Config, db: Db, call: Call, capability: Capability)
    requires Consistent(db) && call.id in db.calls && db.calls[call.id] == call
    requires CapabilityOf(call) in db.capabilities && db.capabilities[CapabilityOf(call)] == capability
    ensures TxSound(db, Continue(cfg, db, call, capability), call)
  {
    hide AnswerBlocked, ResumeCall, DecideFresh, ContinueApproval;
    assert DecisionBacked(db, call.id) && CallIndexed(db, call.id) && ApprovalPresent(db, call.id);
    hide Consistent;
    var approval := FindForTarget(db, call.workspace, call.id);
    assert approval.None? ==> !HasApproval(db.approvals, call);
    if call.id in db.results {
    } else if approval.Some? {
      ContinueApprovalIsSound(db, call, capability, approval.value);
    } else if call.id in db.decisions {
      var d := db.decisions[call.id];
      if d.outcome == Block {
        AnswerBlockedIsSound(db, call, d, None, d.reason);
      } else {
        ResumeIsSound(db, call, capability, d, None);
      }
    } else {
      DecideFreshIsSound(cfg, db, call, capability);
    }
  }

  lemma RecordCallFails(db: Db, call: Call)
    requires RecordCall(db, call).Err?
    ensures RecordCall(db, call).error != DecisionMissing
  {
  }

  // Every invocation's opening transaction: nothing executes without a licence and a clear
  // grant, results are only added, and a recorded decision is never found missing.
  lemma InvokeIsSound(cfg: Config, db: Db, call: Call)
    requires Consistent(db)
    ensures TxSound(db, InvokeTx(cfg, db, call), call)
  {
    hide Continue, Extends, Indexed, Backed, Matched, RecordCall;
    if CapabilityOf(call) in db.capabilities && RecordCall(db, call).Ok? {
      var recorded := RecordCall(db, call).value;
      var capability := db.capabilities[CapabilityOf(call)];
      RecordCallKeeps(db, call);
      RecordCallRecords(db, call);
      ContinueIsSound(cfg, recorded, call, capability);
      SoundFromEarlier(db, recorded, Continue(cfg, recorded, call, capability), call);
    } else if RecordCall(db, call).Err? {
      RecordCallFails(db, call);
    }
  }
}
