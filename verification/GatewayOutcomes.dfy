// What an invocation comes to, outcome by outcome: when it executes, when it answers and what
// that leaves behind.

module GatewayOutcomes {
  import opened GatewayDecision
  import opened GatewayTables
  import opened Prelude
  import opened RunStates

  // The call is on record, its capability registered and its input accepted.
  ghost predicate OnRecord(cfg: Config, db: Db, call: Call) {
    && Consistent(db) && call.id in db.calls && db.calls[call.id] == call
    && CapabilityKey(call.workspace, call.capability) in db.capabilities
    && cfg.acceptable(call, db.capabilities[CapabilityKey(call.workspace, call.capability)])
  }

  function CapabilityFor(db: Db, call: Call): Capability
    requires CapabilityKey(call.workspace, call.capability) in db.capabilities
  {
    db.capabilities[CapabilityKey(call.workspace, call.capability)]
  }

  // ---- A call on record ----------------------------------------------------

  lemma RecordedContinues(cfg: Config, db: Db, call: Call)
    requires OnRecord(cfg, db, call)
    ensures InvokeTx(cfg, db, call) == Continue(cfg, db, call, CapabilityFor(db, call))
  {
    assert CallIndexed(db, call.id);
    hide Consistent, Continue;
  }

  // A finished call answers with its decision and result, and nothing changes.
  lemma FinishedAnswers(cfg: Config, db: Db, call: Call)
    requires OnRecord(cfg, db, call) && call.id in db.results
    ensures call.id in db.decisions
    ensures InvokeTx(cfg, db, call) ==
              Answered(db, Invocation(call, db.decisions[call.id], None, Some(db.results[call.id])))
  {
    RecordedContinues(cfg, db, call);
    assert DecisionBacked(db, call.id);
    hide Consistent, InvokeTx;
  }

  lemma OnlyApproval(db: Db, call: Call, a: string)
    requires Consistent(db) && call.id in db.calls && db.calls[call.id] == call
    requires a in db.approvals && db.approvals[a].workspace == call.workspace
    requires db.approvals[a].target == CallTarget(call.id)
    ensures FindForTarget(db, call.workspace, call.id) == Some(a) && call.id in db.decisions
  {
    assert ApprovalBacked(db, a);
    assert Targets(db.approvals[a], call.workspace, call.id);
    var found := FindForTarget(db, call.workspace, call.id);
    assert ApprovalsApart(db, a, found.value);
  }

  // An unfinished call with an approval goes by it: approved on a clear grant executes, on a
  // suspended one is blocked, rejected is blocked, and pending waits.
  lemma ApprovalDecides(cfg: Config, db: Db, call: Call, a: string)
    requires OnRecord(cfg, db, call) && call.id !in db.results
    requires a in db.approvals && db.approvals[a].workspace == call.workspace
    requires db.approvals[a].target == CallTarget(call.id)
    ensures call.id in db.decisions
    ensures var d := db.decisions[call.id];
            var suspended := Grant(call.workspace, call.requestedBy, call.capability) in db.facts.suspended;
            var blocked := (reason: Reason) =>
              db.(results := db.results[call.id := CallResult(Blocked, reason, "")]);
            InvokeTx(cfg, db, call) ==
              match db.approvals[a].status
              case Approved =>
                if !suspended then Execute(db, Executable(call, CapabilityFor(db, call), d, Some(a)))
                else Answered(blocked(GrantSuspended),
                       Invocation(call, d, None, Some(CallResult(Blocked, GrantSuspended, ""))))
              case Rejected =>
                Answered(blocked(ApprovalRejected),
                  Invocation(call, d, Some(a), Some(CallResult(Blocked, ApprovalRejected, ""))))
              case Pending => Answered(db, Invocation(call, d, Some(a), None))
  {
    RecordedContinues(cfg, db, call);
    OnlyApproval(db, call, a);
    hide Consistent, InvokeTx;
  }

  // Without an approval it goes by its recorded decision.
  lemma DecisionDecides(cfg: Config, db: Db, call: Call)
    requires OnRecord(cfg, db, call) && call.id !in db.results && call.id in db.decisions
    requires forall a :: a in db.approvals ==>
      !(db.approvals[a].workspace == call.workspace && db.approvals[a].target == CallTarget(call.id))
    ensures var d := db.decisions[call.id];
            var suspended := Grant(call.workspace, call.requestedBy, call.capability) in db.facts.suspended;
            var reason := if d.outcome == Block then d.reason else GrantSuspended;
            && d.outcome != RequireApproval
            && InvokeTx(cfg, db, call) ==
                 if d.outcome == Allow && !suspended
                 then Execute(db, Executable(call, CapabilityFor(db, call), d, None))
                 else Answered(db.(results := db.results[call.id := CallResult(Blocked, reason, "")]),
                        Invocation(call, d, None, Some(CallResult(Blocked, reason, ""))))
  {
    RecordedContinues(cfg, db, call);
    assert FindForTarget(db, call.workspace, call.id).None?;
    assert ApprovalPresent(db, call.id);
    hide Consistent, InvokeTx;
  }

  // ---- A call that is decided now ------------------------------------------

  // What follows a fresh decision: a block is stored with its reason, an approval is opened
  // and its running run suspended, an allow executes.
  lemma FreshDecides(cfg: Config, db: Db, call: Call)
    requires OnRecord(cfg, db, call) && call.id !in db.results && call.id !in db.decisions
    ensures var capability := CapabilityFor(db, call);
            var d := DecideCall(db.facts, cfg.providers, call, capability);
            var decided := db.(decisions := db.decisions[call.id := d]);
            var a := cfg.approvalIdFor(call.id);
            var running := call.run in db.runs && db.runs[call.run].workspace == call.workspace
                           && db.runs[call.run].status == Running;
            InvokeTx(cfg, db, call) ==
              match d.outcome
              case Allow => Execute(decided, Executable(call, capability, d, None))
              case Block =>
                Answered(decided.(results := db.results[call.id := CallResult(Blocked, d.reason, "")]),
                  Invocation(call, d, None, Some(CallResult(Blocked, d.reason, ""))))
              case RequireApproval =>
                if a in db.approvals then Thrown(ApprovalConflict)
                else if !running then Thrown(RunNotExecutable)
                else
                  Answered(
                    decided.(approvals := db.approvals[a :=
                               Approval(call.workspace, Some(call.run), CallTarget(call.id), Pending)],
                             runs := db.runs[call.run := db.runs[call.run].(status := Suspended)]),
                    Invocation(call, d, Some(a), None))
  {
    RecordedContinues(cfg, db, call);
    NoApprovalYet(db, call);
    hide Consistent, InvokeTx, DecideCall;
  }

  lemma NoApprovalYet(db: Db, call: Call)
    requires Consistent(db) && call.id !in db.decisions
    ensures FindForTarget(db, call.workspace, call.id).None?
  {
    forall a | a in db.approvals ensures !Targets(db.approvals[a], call.workspace, call.id) {
      assert ApprovalBacked(db, a);
    }
  }

  // ---- A call that is not on record ----------------------------------------

  // The call is put on record when its key and id are free and its run is running, and then
  // goes on as if it had been; otherwise it is refused, each refusal for its reason.
  lemma NewCallIsRecordedFirst(cfg: Config, db: Db, call: Call)
    requires Consistent(db) && !(call.id in db.calls && db.calls[call.id] == call)
    ensures var capability := CapabilityKey(call.workspace, call.capability);
            var key := CallKey(call.workspace, call.key);
            var recorded := db.(calls := db.calls[call.id := call], callKeys := db.callKeys[key := call.id]);
            var running := call.run in db.runs && db.runs[call.run].workspace == call.workspace
                           && db.runs[call.run].status == Running;
            InvokeTx(cfg, db, call) ==
              if capability !in db.capabilities then Thrown(CapabilityNotRegistered)
              else if !cfg.acceptable(call, db.capabilities[capability]) then Thrown(CallRefused)
              else if key in db.callKeys then Thrown(CallKeyReused)
              else if !running then Thrown(RunNotExecutable)
              else if call.id in db.calls then Thrown(CallIdTaken)
              else InvokeTx(cfg, recorded, call)
  {
    var recorded := db.(calls := db.calls[call.id := call], callKeys := db.callKeys[KeyOf(call) := call.id]);
    assert KeyIndexed(db, KeyOf(call));
    if KeyOf(call) in db.callKeys {
      assert CallIndexed(db, db.callKeys[KeyOf(call)]);
    }
    hide Consistent, Continue;
    assert RecordCall(recorded, call) == Ok(recorded);
  }

  lemma NewCallIsOnRecord(cfg: Config, db: Db, call: Call)
    requires Consistent(db) && call.id !in db.calls && CallKey(call.workspace, call.key) !in db.callKeys
    requires CapabilityKey(call.workspace, call.capability) in db.capabilities
    requires cfg.acceptable(call, CapabilityFor(db, call))
    ensures OnRecord(cfg, db.(calls := db.calls[call.id := call],
                              callKeys := db.callKeys[CallKey(call.workspace, call.key) := call.id]), call)
    ensures call.id !in db.results && call.id !in db.decisions
  {
    assert DecisionBacked(db, call.id);
    RecordCallKeeps(db, call);
    hide Consistent;
  }

  // A call on record that is refused: unregistered, or no longer accepted.
  lemma RecordedIsRefusedIff(cfg: Config, db: Db, call: Call)
    requires Consistent(db) && call.id in db.calls && db.calls[call.id] == call
    requires !OnRecord(cfg, db, call)
    ensures InvokeTx(cfg, db, call) ==
              Thrown(if CapabilityKey(call.workspace, call.capability) !in db.capabilities
                     then CapabilityNotRegistered else CallRefused)
  {
    hide Consistent, Continue;
  }

  // ---- When an invocation executes -----------------------------------------

  // An approval of the call was approved.
  ghost predicate ApprovedFor(db: Db, call: Call) {
    exists a :: a in db.approvals && db.approvals[a].workspace == call.workspace
      && db.approvals[a].target == CallTarget(call.id) && db.approvals[a].status == Approved
  }

  // Decided now, the call is authorised and the dial leaves it to no human.
  ghost predicate AllowedNow(cfg: Config, db: Db, call: Call)
    requires CapabilityKey(call.workspace, call.capability) in db.capabilities
  {
    var capability := CapabilityFor(db, call);
    && Authorised(db.facts, cfg.providers, call, capability)
    && !NeedsApproval(call, capability, AutonomyOf(db.facts, call.workspace))
  }

  // A recorded call is sent to its provider exactly when it has no result, its grant is clear,
  // and it was approved, or was allowed before, or is allowed now.
  lemma ExecutesIff(cfg: Config, db: Db, call: Call)
    requires OnRecord(cfg, db, call)
    ensures InvokeTx(cfg, db, call).Execute? <==>
              && call.id !in db.results
              && Grant(call.workspace, call.requestedBy, call.capability) !in db.facts.suspended
              && (|| ApprovedFor(db, call)
                  || (call.id in db.decisions && db.decisions[call.id].outcome == Allow)
                  || (call.id !in db.decisions && AllowedNow(cfg, db, call)))
  {
    var capability := CapabilityFor(db, call);
    if call.id in db.results {
      FinishedAnswers(cfg, db, call);
    } else if a :| a in db.approvals && db.approvals[a].workspace == call.workspace
                   && db.approvals[a].target == CallTarget(call.id) {
      ApprovalDecides(cfg, db, call, a);
      OnlyApprovalCounts(db, call, a);
    } else if call.id in db.decisions {
      DecisionDecides(cfg, db, call);
    } else {
      FreshDecides(cfg, db, call);
      DecisionIsExact(db.facts, cfg.providers, call, capability);
    }
    hide Consistent, InvokeTx, DecideCall, Authorised, NeedsApproval;
  }

  lemma OnlyApprovalCounts(db: Db, call: Call, a: string)
    requires Consistent(db) && a in db.approvals && db.approvals[a].workspace == call.workspace
    requires db.approvals[a].target == CallTarget(call.id)
    requires call.id in db.calls && db.calls[call.id] == call
    ensures ApprovedFor(db, call) <==> db.approvals[a].status == Approved
    ensures call.id in db.decisions && db.decisions[call.id].outcome == RequireApproval
  {
    assert ApprovalBacked(db, a);
    forall b | b in db.approvals && db.approvals[b].target == CallTarget(call.id) ensures b == a {
      assert ApprovalsApart(db, a, b);
    }
  }
}
