// The call-time decision of the capability gateway: task envelope, gateway, resource scope,
// grant, suspension and the autonomy dial, in the order the gateway checks them.

module GatewayDecision {
  import opened Prelude

  datatype Risk = Low | Medium | High

  datatype Autonomy = Advisory | Supervised | Bounded

  datatype Permission = Enabled | ApprovalRequired | Disabled

  // An input field is compared with grants only when it is a string.
  datatype InputValue = Text(text: string) | NotText

  datatype ExternalActor = ExternalActor(isWorker: bool, id: string)

  datatype Call = Call(
    id: string,
    workspace: string,
    run: string,
    capability: string,
    provider: string,
    input: map<string, InputValue>,
    requestedBy: string,
    actor: Option<ExternalActor>,
    task: string,
    credential: Option<string>,
    sideEffecting: bool,
    risk: Risk,
    key: string)

  datatype Capability = Capability(
    workspace: string,
    name: string,
    providers: seq<string>,
    sideEffecting: bool,
    risk: Risk,
    credentialRequired: bool,
    credential: Option<string>,
    permission: Permission,
    resourceFields: seq<string>)

  datatype Task = Task(
    workspace: string,
    run: string,
    assignee: string,
    allowed: seq<string>,
    grants: map<string, map<string, seq<string>>>)

  datatype Worker = Worker(workspace: string, enabled: bool, allowed: seq<string>)

  // A (workspace, actor, capability) grant.
  datatype Grant = Grant(workspace: string, actor: string, capability: string)

  // Everything the decision reads besides the call and the capability.
  datatype Facts = Facts(
    tasks: map<string, Task>,
    workers: map<string, Worker>,
    roleGrants: map<string, set<string>>,
    autonomy: map<string, Autonomy>,
    suspended: set<Grant>)

  datatype Outcome = Allow | RequireApproval | Block

  datatype Reason =
    | NoTask | TaskOfOtherWorkspace | TaskOfOtherRun | NotTheAssignee | NotInTheEnvelope
    | ProviderNotDeclared | ProviderNotAvailable | CredentialMissing | CredentialNotBound
    | CredentialOfOther | CallNotSideEffecting | ProviderIsSideEffecting
    | ResourceNotGranted(field: string) | ResourceOutsideGrant(field: string)
    | ActorIsNotCaller | NoWorker | WorkerDisabled | CapabilityDisabled | NoGrant
    | GrantSuspended | Gated | Granted | ApprovalRejected
    | NoProvider | AlreadyStarted | ProviderAnswered

  datatype Decision = Decision(outcome: Outcome, reason: Reason)

  function GrantOf(call: Call): Grant {
    Grant(call.workspace, call.requestedBy, call.capability)
  }

  // ---- Task envelope -------------------------------------------------------

  function TaskBoundaryBlock(facts: Facts, call: Call): (r: Option<Reason>)
    ensures r.None? <==>
      && call.task in facts.tasks
      && var t := facts.tasks[call.task];
         && t.workspace == call.workspace && t.run == call.run
         && t.assignee == call.requestedBy && call.capability in t.allowed
  {
    if call.task !in facts.tasks then Some(NoTask)
    else
      var t := facts.tasks[call.task];
      if t.workspace != call.workspace then Some(TaskOfOtherWorkspace)
      else if t.run != call.run then Some(TaskOfOtherRun)
      else if t.assignee != call.requestedBy then Some(NotTheAssignee)
      else if call.capability !in t.allowed then Some(NotInTheEnvelope)
      else None
  }

  function GrantsFor(facts: Facts, call: Call): map<string, seq<string>> {
    if call.task in facts.tasks && call.capability in facts.tasks[call.task].grants
    then facts.tasks[call.task].grants[call.capability]
    else map[]
  }

  // The call's value for the field is one of the strings granted for it.
  predicate FieldGranted(grants: map<string, seq<string>>, call: Call, field: string) {
    && field in grants && field in call.input && call.input[field].Text?
    && call.input[field].text in grants[field]
  }

  function FieldBlock(grants: map<string, seq<string>>, call: Call, field: string)
    : (r: Option<Reason>)
    ensures r.None? <==> FieldGranted(grants, call, field)
  {
    if field !in grants || grants[field] == [] then Some(ResourceNotGranted(field))
    else if field !in call.input || call.input[field].NotText? ||
            call.input[field].text !in grants[field] then Some(ResourceOutsideGrant(field))
    else None
  }

  // The block for the first of `fields` outside the grants.
  function FirstFieldBlock(grants: map<string, seq<string>>, call: Call, fields: seq<string>)
    : (r: Option<Reason>)
    ensures r.None? <==> forall f :: f in fields ==> FieldGranted(grants, call, f)
  {
    if fields == [] then None
    else if FieldBlock(grants, call, fields[0]).Some? then FieldBlock(grants, call, fields[0])
    else FirstFieldBlock(grants, call, fields[1..])
  }

  method ResourceScopeBlock(facts: Facts, call: Call, capability: Capability)
    returns (r: Option<Reason>)
    ensures r == FirstFieldBlock(GrantsFor(facts, call), call, capability.resourceFields)
  {
    var fields := capability.resourceFields;
    if |fields| == 0 {
      return None;
    }
    var grants := GrantsFor(facts, call);
    for i := 0 to |fields|
      invariant FirstFieldBlock(grants, call, fields) == FirstFieldBlock(grants, call, fields[i..])
    {
      var field := fields[i];
      assert fields[i..][0] == field && fields[i..][1..] == fields[i + 1..];
      if field !in grants || |grants[field]| == 0 {
        return Some(ResourceNotGranted(field));
      }
      if field !in call.input || call.input[field].NotText?
         || call.input[field].text !in grants[field] {
        return Some(ResourceOutsideGrant(field));
      }
    }
    return None;
  }

  // ---- Gateway -------------------------------------------------------------

  // A declared provider that this process runs, the capability's own credential or none, and
  // side effects only where capability and call both declare them.
  ghost predicate GatewayAdmits(providers: map<string, bool>, call: Call, capability: Capability) {
    && call.provider in capability.providers && call.provider in providers
    && (capability.credentialRequired ==> call.credential.Some?)
    && (call.credential.Some? ==> call.credential == capability.credential)
    && (capability.sideEffecting ==> call.sideEffecting)
    && (providers[call.provider] ==> capability.sideEffecting)
  }

  // `providers` are the ones this registry runs, with whether each is side-effecting.
  function GatewayBlock(providers: map<string, bool>, call: Call, capability: Capability)
    : (r: Option<Reason>)
    ensures r.None? <==> GatewayAdmits(providers, call, capability)
  {
    if call.provider !in capability.providers then Some(ProviderNotDeclared)
    else if call.provider !in providers then Some(ProviderNotAvailable)
    else if capability.credentialRequired && call.credential.None? then Some(CredentialMissing)
    else if capability.credentialRequired && capability.credential.None? then Some(CredentialNotBound)
    else if call.credential.Some? && call.credential != capability.credential
    then Some(CredentialOfOther)
    else if capability.sideEffecting && !call.sideEffecting then Some(CallNotSideEffecting)
    else if providers[call.provider] && (!capability.sideEffecting || !call.sideEffecting)
    then Some(ProviderIsSideEffecting)
    else None
  }

  // ---- Grant, suspension and the autonomy dial -----------------------------

  function MaxRisk(a: Risk, b: Risk): Risk {
    if a.High? || b.High? then High else if a.Medium? || b.Medium? then Medium else Low
  }

  function AutonomyOf(facts: Facts, workspace: string): Autonomy {
    if workspace in facts.autonomy then facts.autonomy[workspace] else Advisory
  }

  // A call the dial leaves to a human.
  predicate NeedsApproval(call: Call, capability: Capability, level: Autonomy) {
    var risk := MaxRisk(capability.risk, call.risk);
    || capability.permission.ApprovalRequired?
    || risk.High?
    || (!level.Bounded? && (capability.sideEffecting || call.sideEffecting))
    || (level.Advisory? && !risk.Low?)
  }

  function DialDecision(facts: Facts, call: Call, capability: Capability): Decision {
    if NeedsApproval(call, capability, AutonomyOf(facts, call.workspace))
    then Decision(RequireApproval, Gated)
    else Decision(Allow, Granted)
  }

  function DecideWorker(facts: Facts, call: Call, capability: Capability, actorId: string): Decision {
    if actorId != call.requestedBy then Decision(Block, ActorIsNotCaller)
    else if actorId !in facts.workers || facts.workers[actorId].workspace != call.workspace
    then Decision(Block, NoWorker)
    else if !facts.workers[actorId].enabled then Decision(Block, WorkerDisabled)
    else if capability.permission.Disabled? then Decision(Block, CapabilityDisabled)
    else if call.capability !in facts.workers[actorId].allowed then Decision(Block, NoGrant)
    else if GrantOf(call) in facts.suspended then Decision(Block, GrantSuspended)
    else DialDecision(facts, call, capability)
  }

  function DecideRole(facts: Facts, call: Call, capability: Capability): Decision {
    if capability.permission.Disabled? then Decision(Block, CapabilityDisabled)
    else if call.requestedBy !in facts.roleGrants ||
            call.capability !in facts.roleGrants[call.requestedBy] then Decision(Block, NoGrant)
    else if GrantOf(call) in facts.suspended then Decision(Block, GrantSuspended)
    else DialDecision(facts, call, capability)
  }

  function DecideCall(
      facts: Facts, providers: map<string, bool>, call: Call, capability: Capability): Decision
  {
    var boundary := TaskBoundaryBlock(facts, call);
    var gateway := GatewayBlock(providers, call, capability);
    var scope := FirstFieldBlock(GrantsFor(facts, call), call, capability.resourceFields);
    if boundary.Some? then Decision(Block, boundary.value)
    else if gateway.Some? then Decision(Block, gateway.value)
    else if scope.Some? then Decision(Block, scope.value)
    else if call.actor.Some? && call.actor.value.isWorker
    then DecideWorker(facts, call, capability, call.actor.value.id)
    else DecideRole(facts, call, capability)
  }

  // ---- What a decision means -----------------------------------------------

  // The task envelope covers the call: workspace, run, assignee, capability and every
  // declared resource field.
  ghost predicate Covered(tasks: map<string, Task>, call: Call, capability: Capability) {
    && call.task in tasks
    && var t := tasks[call.task];
       && t.workspace == call.workspace && t.run == call.run && t.assignee == call.requestedBy
       && call.capability in t.allowed
       && (forall f :: f in capability.resourceFields ==>
            && call.capability in t.grants
            && FieldGranted(t.grants[call.capability], call, f))
  }

  // A worker acts under its own identity and grants, anyone else under its role's.
  ghost predicate HoldsGrant(facts: Facts, call: Call) {
    if call.actor.Some? && call.actor.value.isWorker then
      && call.actor.value.id == call.requestedBy
      && call.requestedBy in facts.workers
      && var w := facts.workers[call.requestedBy];
         w.workspace == call.workspace && w.enabled && call.capability in w.allowed
    else
      call.requestedBy in facts.roleGrants && call.capability in facts.roleGrants[call.requestedBy]
  }

  ghost predicate Authorised(
      facts: Facts, providers: map<string, bool>, call: Call, capability: Capability)
  {
    && Covered(facts.tasks, call, capability)
    && GatewayAdmits(providers, call, capability)
    && !capability.permission.Disabled?
    && HoldsGrant(facts, call)
    && GrantOf(call) !in facts.suspended
  }

  // The ordered checks together are exactly the authorisation, and what is left to a human
  // is exactly what the dial gates.
  lemma DecisionIsExact(
      facts: Facts, providers: map<string, bool>, call: Call, capability: Capability)
    ensures var d := DecideCall(facts, providers, call, capability);
            && (d.outcome != Block <==> Authorised(facts, providers, call, capability))
            && (d.outcome == RequireApproval <==>
                 && Authorised(facts, providers, call, capability)
                 && NeedsApproval(call, capability, AutonomyOf(facts, call.workspace)))
  {
    var fields := capability.resourceFields;
    var grants := GrantsFor(facts, call);
    if TaskBoundaryBlock(facts, call).None? {
      var t := facts.tasks[call.task];
      assert (forall f :: f in fields ==> FieldGranted(grants, call, f)) <==>
             (forall f :: f in fields ==>
               call.capability in t.grants && FieldGranted(t.grants[call.capability], call, f));
    }
  }
}
