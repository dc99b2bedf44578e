// Why a call is blocked and when it needs a human: the reason a decision carries is the first
// that applies, and the dial gates exactly the calls its level is there for.

module GatewayReasons {
  import opened GatewayDecision
  import opened Prelude

  // What the call's task envelope grants the capability for the field.
  function GrantedStrings(facts: Facts, call: Call, field: string): seq<string> {
    if call.task in facts.tasks && call.capability in facts.tasks[call.task].grants
       && field in facts.tasks[call.task].grants[call.capability]
    then facts.tasks[call.task].grants[call.capability][field] else []
  }

  // The call gives the field one of the strings granted for it.
  predicate InGrant(facts: Facts, call: Call, field: string) {
    field in call.input && call.input[field].Text?
    && call.input[field].text in GrantedStrings(facts, call, field)
  }

  lemma InGrantIff(facts: Facts, call: Call, field: string)
    ensures FieldGranted(GrantsFor(facts, call), call, field) <==> InGrant(facts, call, field)
  {
  }

  // Field i is the first declared one whose value the envelope does not grant.
  ghost predicate FirstUngranted(facts: Facts, call: Call, capability: Capability, i: int) {
    && 0 <= i < |capability.resourceFields|
    && !InGrant(facts, call, capability.resourceFields[i])
    && forall j :: 0 <= j < i ==> InGrant(facts, call, capability.resourceFields[j])
  }

  predicate ByWorker(call: Call) {
    call.actor.Some? && call.actor.value.isWorker
  }

  predicate WorkerOfWorkspace(facts: Facts, call: Call) {
    call.actor.Some? && call.actor.value.id in facts.workers
    && facts.workers[call.actor.value.id].workspace == call.workspace
  }

  // What each reason says of a call.
  ghost predicate Applies(
      facts: Facts, providers: map<string, bool>, call: Call, capability: Capability, reason: Reason)
  {
    var known := call.task in facts.tasks;
    match reason
    case NoTask => !known
    case TaskOfOtherWorkspace => known && facts.tasks[call.task].workspace != call.workspace
    case TaskOfOtherRun => known && facts.tasks[call.task].run != call.run
    case NotTheAssignee => known && facts.tasks[call.task].assignee != call.requestedBy
    case NotInTheEnvelope => known && call.capability !in facts.tasks[call.task].allowed
    case ProviderNotDeclared => call.provider !in capability.providers
    case ProviderNotAvailable => call.provider !in providers
    case CredentialMissing => capability.credentialRequired && call.credential.None?
    case CredentialNotBound => capability.credentialRequired && capability.credential.None?
    case CredentialOfOther => call.credential.Some? && call.credential != capability.credential
    case CallNotSideEffecting => capability.sideEffecting && !call.sideEffecting
    case ProviderIsSideEffecting =>
      && call.provider in providers && providers[call.provider]
      && !(capability.sideEffecting && call.sideEffecting)
    case ResourceNotGranted(field) =>
      exists i :: FirstUngranted(facts, call, capability, i)
        && field == capability.resourceFields[i] && GrantedStrings(facts, call, field) == []
    case ResourceOutsideGrant(field) =>
      exists i :: FirstUngranted(facts, call, capability, i)
        && field == capability.resourceFields[i] && GrantedStrings(facts, call, field) != []
    case ActorIsNotCaller => ByWorker(call) && call.actor.value.id != call.requestedBy
    case NoWorker => ByWorker(call) && !WorkerOfWorkspace(facts, call)
    case WorkerDisabled =>
      ByWorker(call) && WorkerOfWorkspace(facts, call) && !facts.workers[call.actor.value.id].enabled
    case CapabilityDisabled => capability.permission == Disabled
    case NoGrant =>
      if ByWorker(call) then
        WorkerOfWorkspace(facts, call) && call.capability !in facts.workers[call.actor.value.id].allowed
      else
        call.requestedBy !in facts.roleGrants || call.capability !in facts.roleGrants[call.requestedBy]
    case GrantSuspended =>
      Grant(call.workspace, call.requestedBy, call.capability) in facts.suspended
    case _ => false
  }

  // The order in which the gateway looks for them.
  function Turn(reason: Reason): nat {
    match reason
    case NoTask => 1
    case TaskOfOtherWorkspace => 2
    case TaskOfOtherRun => 3
    case NotTheAssignee => 4
    case NotInTheEnvelope => 5
    case ProviderNotDeclared => 6
    case ProviderNotAvailable => 7
    case CredentialMissing => 8
    case CredentialNotBound => 9
    case CredentialOfOther => 10
    case CallNotSideEffecting => 11
    case ProviderIsSideEffecting => 12
    case ResourceNotGranted(_) => 13
    case ResourceOutsideGrant(_) => 13
    case ActorIsNotCaller => 14
    case NoWorker => 15
    case WorkerDisabled => 16
    case CapabilityDisabled => 17
    case NoGrant => 18
    case GrantSuspended => 19
    case _ => 20
  }

  lemma {:induction false} FieldReasonApplies(
      facts: Facts, call: Call, capability: Capability, i: nat) returns (k: nat)
    requires i <= |capability.resourceFields|
    requires forall j :: 0 <= j < i ==> InGrant(facts, call, capability.resourceFields[j])
    requires FirstFieldBlock(GrantsFor(facts, call), call, capability.resourceFields[i..]).Some?
    ensures FirstUngranted(facts, call, capability, k)
    ensures var field := capability.resourceFields[k];
            FirstFieldBlock(GrantsFor(facts, call), call, capability.resourceFields[i..]) ==
              Some(if GrantedStrings(facts, call, field) != [] then ResourceOutsideGrant(field)
                   else ResourceNotGranted(field))
    decreases |capability.resourceFields| - i
  {
    var fields := capability.resourceFields;
    assert fields[i..] != [];
    assert fields[i..][0] == fields[i] && fields[i..][1..] == fields[i + 1..];
    InGrantIff(facts, call, fields[i]);
    if FieldBlock(GrantsFor(facts, call), call, fields[i]).Some? {
      k := i;
    } else {
      k := FieldReasonApplies(facts, call, capability, i + 1);
    }
  }

  // Which of the first three checks blocks, if one does.
  lemma EarlyReason(facts: Facts, providers: map<string, bool>, call: Call, capability: Capability)
    ensures var r := TaskBoundaryBlock(facts, call);
            r.Some? ==>
              && Applies(facts, providers, call, capability, r.value) && Turn(r.value) <= 5
              && forall x :: Applies(facts, providers, call, capability, x) ==> Turn(r.value) <= Turn(x)
    ensures TaskBoundaryBlock(facts, call).None? ==>
              forall x :: Applies(facts, providers, call, capability, x) ==> Turn(x) > 5
  {
    hide FirstUngranted;
  }

  lemma GatewayReason(facts: Facts, providers: map<string, bool>, call: Call, capability: Capability)
    ensures var r := GatewayBlock(providers, call, capability);
            r.Some? ==>
              && Applies(facts, providers, call, capability, r.value) && 6 <= Turn(r.value) <= 12
              && forall x :: Applies(facts, providers, call, capability, x) && Turn(x) > 5 ==>
                   Turn(r.value) <= Turn(x)
    ensures GatewayBlock(providers, call, capability).None? ==>
              forall x :: Applies(facts, providers, call, capability, x) ==> Turn(x) <= 5 || Turn(x) > 12
  {
    hide FirstUngranted;
  }

  lemma ScopeReason(facts: Facts, providers: map<string, bool>, call: Call, capability: Capability)
    ensures var r := FirstFieldBlock(GrantsFor(facts, call), call, capability.resourceFields);
            && (r.Some? ==> Applies(facts, providers, call, capability, r.value) && Turn(r.value) == 13)
            && (r.None? ==> forall x :: Applies(facts, providers, call, capability, x) ==> Turn(x) != 13)
  {
    var fields := capability.resourceFields;
    assert fields[0..] == fields;
    if FirstFieldBlock(GrantsFor(facts, call), call, fields).Some? {
      var k := FieldReasonApplies(facts, call, capability, 0);
    } else {
      forall i ensures !FirstUngranted(facts, call, capability, i) {
        if 0 <= i < |fields| { InGrantIff(facts, call, fields[i]); }
        assert 0 <= i < |fields| ==> fields[i] in fields;
      }
    }
  }

  lemma ActorReason(facts: Facts, providers: map<string, bool>, call: Call, capability: Capability)
    ensures var d := if ByWorker(call) then DecideWorker(facts, call, capability, call.actor.value.id)
                     else DecideRole(facts, call, capability);
            && (d.outcome == Block ==>
                 && Applies(facts, providers, call, capability, d.reason) && Turn(d.reason) > 13
                 && forall x :: Applies(facts, providers, call, capability, x) && Turn(x) > 13 ==>
                      Turn(d.reason) <= Turn(x))
            && (d.outcome != Block ==>
                 forall x :: Applies(facts, providers, call, capability, x) ==> Turn(x) <= 13)
  {
    hide FirstUngranted, NeedsApproval;
  }

  // A block carries the first reason that applies to the call, and a call is blocked exactly
  // when some reason does.
  lemma BlockGivesFirstReason(
      facts: Facts, providers: map<string, bool>, call: Call, capability: Capability)
    ensures var d := DecideCall(facts, providers, call, capability);
            && (d.outcome == Block <==> exists x :: Applies(facts, providers, call, capability, x))
            && (d.outcome == Block ==>
                 && Applies(facts, providers, call, capability, d.reason)
                 && forall x :: Applies(facts, providers, call, capability, x) ==> Turn(d.reason) <= Turn(x))
  {
    EarlyReason(facts, providers, call, capability);
    GatewayReason(facts, providers, call, capability);
    ScopeReason(facts, providers, call, capability);
    ActorReason(facts, providers, call, capability);
    hide Applies, TaskBoundaryBlock, GatewayBlock, FirstFieldBlock, DecideWorker, DecideRole;
  }

  // The dial: what is not blocked needs a human when its permission or a high risk says so,
  // below bounded autonomy when it has side effects, and under advisory unless its risk is low.
  lemma DialGates(facts: Facts, providers: map<string, bool>, call: Call, capability: Capability)
    requires DecideCall(facts, providers, call, capability).outcome != Block
    ensures var level := if call.workspace in facts.autonomy then facts.autonomy[call.workspace] else Advisory;
            var effects := capability.sideEffecting || call.sideEffecting;
            var low := capability.risk == Low && call.risk == Low;
            DecideCall(facts, providers, call, capability) ==
              if capability.permission == ApprovalRequired || capability.risk == High || call.risk == High
                 || (level == Supervised && effects) || (level == Advisory && (effects || !low))
              then Decision(RequireApproval, Gated) else Decision(Allow, Granted)
  {
    hide TaskBoundaryBlock, GatewayBlock, FirstFieldBlock;
  }
}
