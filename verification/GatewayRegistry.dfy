// The gateway's code over its tables, statement by statement: the stores, the transaction that
// opens an invocation, and the segments of executeProvider between its awaits.

module GatewayRegistry {
  import opened GatewayDecision
  import opened GatewayTables
  import opened Prelude
  import opened RunStates

  datatype Reply = Failure(error: GatewayError) | Answer(invocation: Invocation) | Go(executable: Executable)

  ghost function ReplyOf(r: TxResult): Reply {
    match r
    case Thrown(e) => Failure(e)
    case Answered(_, i) => Answer(i)
    case Execute(_, e) => Go(e)
  }

  ghost function DbOf(before: Db, r: TxResult): Db {
    if r.Thrown? then before else r.db
  }

  class CapabilityRegistry {
    var db: Db
    const cfg: Config

    constructor (cfg: Config, db: Db)
      ensures this.db == db && this.cfg == cfg
    {
      this.db, this.cfg := db, cfg;
    }

    method RecordCall(call: Call) returns (error: Option<GatewayError>)
      modifies this
      ensures match GatewayTables.RecordCall(old(db), call)
              case Ok(after) => db == after && error == None
              case Err(e) => db == old(db) && error == Some(e)
    {
      var key := KeyOf(call);
      if key in db.callKeys {
        var id := db.callKeys[key];
        if id in db.calls && db.calls[id] == call {
          return None;
        }
        return Some(CallKeyReused);
      }
      if call.id in db.calls {
        return Some(CallIdTaken);
      }
      db := db.(calls := db.calls[call.id := call], callKeys := db.callKeys[key := call.id]);
      return None;
    }

    method RecordResult(callId: string, result: CallResult) returns (error: Option<GatewayError>)
      modifies this
      ensures match GatewayTables.RecordResult(old(db), callId, result)
              case Ok(after) => db == after && error == None
              case Err(e) => db == old(db) && error == Some(e)
    {
      if callId in db.results {
        return Some(ResultConflict);
      }
      db := db.(results := db.results[callId := result]);
      return None;
    }

    // Scans the approvals; at most one targets a call.
    method FindForTarget(workspace: string, callId: string) returns (found: Option<string>)
      requires Consistent(db)
      ensures found == GatewayTables.FindForTarget(db, workspace, callId)
    {
      var rest := db.approvals.Keys;
      while rest != {}
        invariant rest <= db.approvals.Keys
        invariant forall a :: a in db.approvals.Keys - rest ==>
          !Targets(db.approvals[a], workspace, callId)
        decreases |rest|
      {
        var a :| a in rest;
        if Targets(db.approvals[a], workspace, callId) {
          forall b | b in db.approvals && Targets(db.approvals[b], workspace, callId) ensures b == a {
            assert ApprovalsApart(db, a, b);
          }
          return Some(a);
        }
        rest := rest - {a};
      }
      return None;
    }

    method RequestApproval(id: string, call: Call) returns (error: Option<GatewayError>)
      modifies this
      ensures match GatewayTables.RequestApproval(old(db), id, call)
              case Ok(after) => db == after && error == None
              case Err(e) => db == old(db) && error == Some(e)
    {
      if id in db.approvals {
        return Some(ApprovalConflict);
      }
      if call.run !in db.runs || db.runs[call.run].workspace != call.workspace
         || db.runs[call.run].status != Running {
        return Some(RunNotExecutable);
      }
      db := db.(approvals := db.approvals[id :=
                  Approval(call.workspace, Some(call.run), CallTarget(call.id), Pending)]);
      db := db.(runs := db.runs[call.run := Run(call.workspace, Suspended)]);
      return None;
    }

    method DecideCall(call: Call, capability: Capability) returns (d: Decision)
      ensures d == GatewayDecision.DecideCall(db.facts, cfg.providers, call, capability)
    {
      var boundary := TaskBoundaryBlock(db.facts, call);
      if boundary.Some? {
        return Decision(Block, boundary.value);
      }
      var gateway := GatewayBlock(cfg.providers, call, capability);
      if gateway.Some? {
        return Decision(Block, gateway.value);
      }
      var scope := ResourceScopeBlock(db.facts, call, capability);
      if scope.Some? {
        return Decision(Block, scope.value);
      }
      if call.actor.Some? && call.actor.value.isWorker {
        return DecideWorker(db.facts, call, capability, call.actor.value.id);
      }
      return DecideRole(db.facts, call, capability);
    }

    method RecordBlocked(
        call: Call, decision: Decision, approvalId: Option<string>, reason: Reason)
      returns (r: Reply)
      modifies this
      ensures var spec := AnswerBlocked(old(db), call, decision, approvalId, reason);
              db == DbOf(old(db), spec) && r == ReplyOf(spec)
    {
      var result := CallResult(Blocked, reason, "");
      var error := RecordResult(call.id, result);
      if error.Some? {
        return Failure(error.value);
      }
      return Answer(Invocation(call, decision, approvalId, Some(result)));
    }

    method Resume(
        call: Call, capability: Capability, decision: Decision, approvalId: Option<string>)
      returns (r: Reply)
      modifies this
      ensures var spec := ResumeCall(old(db), call, capability, decision, approvalId);
              db == DbOf(old(db), spec) && r == ReplyOf(spec)
    {
      if GrantOf(call) in db.facts.suspended {
        r := RecordBlocked(call, decision, None, GrantSuspended);
        return;
      }
      return Go(Executable(call, capability, decision, approvalId));
    }

    // A throw rolls everything back, the recorded decision included.
    method Decide(call: Call, capability: Capability) returns (r: Reply)
      modifies this
      ensures var spec := DecideFresh(cfg, old(db), call, capability);
              db == DbOf(old(db), spec) && r == ReplyOf(spec)
    {
      var before := db;
      var d := DecideCall(call, capability);
      db := db.(decisions := db.decisions[call.id := d]);
      match d.outcome {
        case RequireApproval =>
          var approvalId := cfg.approvalIdFor(call.id);
          var error := RequestApproval(approvalId, call);
          if error.Some? {
            db := before;
            return Failure(error.value);
          }
          return Answer(Invocation(call, d, Some(approvalId), None));
        case Block =>
          r := RecordBlocked(call, d, None, d.reason);
          if r.Failure? {
            db := before;
          }
        case Allow =>
          return Go(Executable(call, capability, d, None));
      }
    }

    method Continue(call: Call, capability: Capability) returns (r: Reply)
      requires Consistent(db)
      modifies this
      ensures var spec := GatewayTables.Continue(cfg, old(db), call, capability);
              db == DbOf(old(db), spec) && r == ReplyOf(spec)
    {
      if call.id in db.results {
        if call.id !in db.decisions {
          return Failure(DecisionMissing);
        }
        return Answer(Invocation(call, db.decisions[call.id], None, Some(db.results[call.id])));
      }
      var approval := FindForTarget(call.workspace, call.id);
      if approval.Some? {
        if call.id !in db.decisions {
          return Failure(DecisionMissing);
        }
        var d := db.decisions[call.id];
        match db.approvals[approval.value].status {
          case Approved => r := Resume(call, capability, d, approval);
          case Rejected => r := RecordBlocked(call, d, approval, ApprovalRejected);
          case Pending => r := Answer(Invocation(call, d, approval, None));
        }
        return;
      }
      if call.id in db.decisions {
        var d := db.decisions[call.id];
        if d.outcome == Outcome.Block {
          r := RecordBlocked(call, d, None, d.reason);
        } else {
          r := Resume(call, capability, d, None);
        }
        return;
      }
      r := Decide(call, capability);
    }

    // The opening transaction is the specified one; it keeps the tables consistent and all
    // that was recorded, and what it sends to execution is licensed and on a clear grant.
    method Invoke(call: Call) returns (r: Reply)
      requires Consistent(db)
      modifies this
      ensures var spec := InvokeTx(cfg, old(db), call);
              db == DbOf(old(db), spec) && r == ReplyOf(spec)
      ensures Consistent(db)
      ensures r.Go? ==>
        && Licensed(db, r.executable) && r.executable.call == call && call.id !in db.results
        && GrantOf(call) !in old(db).facts.suspended
    {
      hide Consistent, GatewayTables.Continue, Licensed, Extends, GatewayTables.RecordCall;
      InvokeIsSound(cfg, db, call);
      var before := db;
      if CapabilityOf(call) !in db.capabilities {
        return Failure(CapabilityNotRegistered);
      }
      var capability := db.capabilities[CapabilityOf(call)];
      if !cfg.acceptable(call, capability) {
        return Failure(CallRefused);
      }
      if KeyOf(call) !in db.callKeys && !RunIsExecutable(db, call) {
        return Failure(RunNotExecutable);
      }
      var error := RecordCall(call);
      if error.Some? {
        return Failure(error.value);
      }
      RecordCallKeeps(before, call);
      r := Continue(call, capability);
      if r.Failure? {
        db := before;
      }
    }

    // The first starter of a call inserts its effect; everyone after finds it.
    method EnsureProviderEffect(call: Call) returns (created: bool)
      modifies this
      ensures (db, created) == StartOnce(old(db), call)
    {
      var key := EffectOf(call);
      if key in db.effects {
        return false;
      }
      db := db.(effects := db.effects + {key});
      return true;
    }

    method GetForCall(call: Call) returns (found: Option<CallResult>)
      ensures found == StoredResult(db, call)
    {
      if call.id in db.results {
        return Some(db.results[call.id]);
      }
      return None;
    }

    // Reads, and writes in a transaction of its own: `between` is what the database became in
    // the meantime. A result that was written then is not replaced, and the record throws.
    method RecordFailed(call: Call, reason: Reason, between: Db)
      returns (result: Result<CallResult, GatewayError>)
      modifies this
      ensures StoredResult(old(db), call).Some? ==>
        db == old(db) && result == Ok(StoredResult(old(db), call).value)
      ensures StoredResult(old(db), call).None? ==>
        match GatewayTables.RecordResult(between, call.id, FailureFor(reason))
        case Ok(after) => db == after && result == Ok(FailureFor(reason))
        case Err(e) => db == between && result == Err(e)
    {
      var existing := GetForCall(call);
      if existing.Some? {
        return Ok(existing.value);
      }
      db := between;
      var failure := CallResult(Unsuccessful, reason, "");
      var error := RecordResult(call.id, failure);
      return if error.Some? then Err(error.value) else Ok(failure);
    }
  }
}
