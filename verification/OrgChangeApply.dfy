// Applying a ratified memory cleanup for real, and reverting it: one transaction each, over
// memory entries that change by compare-and-swap only.

module OrgChangeApply {
  import opened Prelude

  datatype EntryStatus = Provisional | Confirmed | Rejected | Stale

  datatype Entry = Entry(workspace: string, status: EntryStatus, content: string)

  // One element of the patch's memory_entries list.
  datatype PatchItem = Ref(ref: string) | NotAString

  datatype ProposalStatus = Open | Approved | Refused | Applied | Acknowledged | Withdrawn

  // `patch` is absent when memory_entries is not a list.
  datatype Proposal = Proposal(
    workspace: string,
    status: ProposalStatus,
    changeType: string,
    proposedBy: string,
    evidence: nat,
    patch: Option<seq<PatchItem>>)

  datatype TargetState = TargetState(
    ref: string,
    beforeStatus: EntryStatus,
    afterStatus: EntryStatus,
    beforeHash: string,
    afterHash: string)

  datatype ApplicationStatus = JustApplied | Verified | Reverted

  datatype Application = Application(
    workspace: string,
    proposal: string,
    changeType: string,
    appliedBy: string,
    targets: seq<TargetState>,
    status: ApplicationStatus)

  datatype State = State(
    memory: map<string, Entry>,
    proposals: map<string, Proposal>,
    applications: map<string, Application>,
    paused: set<string>)

  datatype ApplyError =
    | ProposalNotFound | OtherWorkspace | ApplicationMissing | NotApproved | NoApplier
    | Paused | NoEvidence | SelfApplied | BadPatch | NoTargets | BlastRadius
    | EntryNotFound | StatusConflict | VerificationFailed | BadProposalId | ApplicationExists
    | NotSigned | ApplicationNotFound | NotVerified | RevertConflict

  // The content hash of an entry, and the cap on targets per application.
  datatype Config = Config(hash: Entry -> string, cap: nat)

  const MEMORY_CLEANUP := "memory_cleanup"

  // ---- Canonical ids -------------------------------------------------------

  predicate IsHex(c: char) {
    '0' <= c <= '9' || 'a' <= c <= 'f'
  }

  // A lower-case kind, an underscore and 32 hexadecimal digits.
  predicate IsCanonicalId(s: string) {
    && |s| >= 34 && s[|s| - 33] == '_'
    && 'a' <= s[0] <= 'z'
    && (forall k | 1 <= k < |s| - 33 :: 'a' <= s[k] <= 'z' || '0' <= s[k] <= '9')
    && (forall k | |s| - 32 <= k < |s| :: IsHex(s[k]))
  }

  const PROPOSAL_PREFIX := "orgchg_"

  function ApplicationIdFor(proposalId: string): Option<string> {
    var n := |PROPOSAL_PREFIX|;
    if |proposalId| == n + 32 && PROPOSAL_PREFIX <= proposalId
       && (forall k | n <= k < |proposalId| :: IsHex(proposalId[k]))
    then Some("application_" + proposalId[n..]) else None
  }

  lemma ApplicationIdsAreDistinct(p: string, q: string)
    requires ApplicationIdFor(p).Some? && ApplicationIdFor(p) == ApplicationIdFor(q)
    ensures p == q
  {
    var n := |PROPOSAL_PREFIX|;
    var a, b := "application_" + p[n..], "application_" + q[n..];
    assert a[|"application_"|..] == p[n..] && b[|"application_"|..] == q[n..];
    assert p == PROPOSAL_PREFIX + p[n..] && q == PROPOSAL_PREFIX + q[n..];
  }

  // ---- Targets -------------------------------------------------------------

  function RefsOf(items: seq<PatchItem>): seq<string> {
    if items == [] then []
    else
      RefsOf(items[..|items| - 1])
      + (if items[|items| - 1].Ref? then [items[|items| - 1].ref] else [])
  }

  // The patch's entries, when all are strings naming canonical ids.
  function ResolveTargets(p: Proposal): Option<seq<string>> {
    if p.patch.None? || NotAString in p.patch.value then None
    else
      var refs := RefsOf(p.patch.value);
      if forall r :: r in refs ==> IsCanonicalId(r) then Some(refs) else None
  }

  // Keeps each first occurrence, in order.
  function Dedupe(refs: seq<string>): (r: seq<string>)
    ensures forall x :: x in r <==> x in refs
    ensures forall i, j | 0 <= i < j < |r| :: r[i] != r[j]
  {
    if refs == [] then []
    else
      var shorter := Dedupe(refs[..|refs| - 1]);
      var last := refs[|refs| - 1];
      assert refs == refs[..|refs| - 1] + [last];
      if last in shorter then shorter else shorter + [last]
  }

  predicate Present(memory: map<string, Entry>, workspace: string, ref: string) {
    ref in memory && memory[ref].workspace == workspace
  }

  predicate HasStatus(
      memory: map<string, Entry>, workspace: string, ref: string, status: EntryStatus)
  {
    Present(memory, workspace, ref) && memory[ref].status == status
  }

  // The named entries take a status; everything else stays.
  function Flip(memory: map<string, Entry>, refs: seq<string>, next: EntryStatus)
    : map<string, Entry>
  {
    map id | id in memory :: if id in refs then memory[id].(status := next) else memory[id]
  }

  function TargetFor(cfg: Config, e: Entry, ref: string): TargetState {
    var after := e.(status := Rejected);
    TargetState(ref, e.status, Rejected, cfg.hash(e), cfg.hash(after))
  }

  function TargetsFor(cfg: Config, memory: map<string, Entry>, refs: seq<string>): seq<TargetState>
    requires forall r :: r in refs ==> r in memory
  {
    seq(|refs|, i requires 0 <= i < |refs| =>
      assert refs[i] in refs; TargetFor(cfg, memory[refs[i]], refs[i]))
  }

  function RefsOfTargets(targets: seq<TargetState>): seq<string> {
    seq(|targets|, i requires 0 <= i < |targets| => targets[i].ref)
  }

  // ---- What apply and revert do --------------------------------------------

  function TargetRefs(s: State, id: string): seq<string> {
    if id in s.proposals && ResolveTargets(s.proposals[id]).Some?
    then Dedupe(ResolveTargets(s.proposals[id]).value) else []
  }

  // What stops a proposal before its targets are looked at, in order.
  function PlanGuard(cfg: Config, s: State, id: string, workspace: string, principal: string)
    : Option<ApplyError>
  {
    if id !in s.proposals then Some(ProposalNotFound)
    else
      var p := s.proposals[id];
      if p.workspace != workspace then Some(OtherWorkspace)
      else if p.status != Approved then Some(NotApproved)
      else if p.changeType != MEMORY_CLEANUP then Some(NoApplier)
      else if workspace in s.paused then Some(Paused)
      else if p.evidence == 0 then Some(NoEvidence)
      else if p.proposedBy == principal then Some(SelfApplied)
      else if ResolveTargets(p).None? then Some(BadPatch)
      else if TargetRefs(s, id) == [] then Some(NoTargets)
      else if |TargetRefs(s, id)| > cfg.cap then Some(BlastRadius)
      else None
  }

  predicate AllStale(memory: map<string, Entry>, refs: seq<string>) {
    forall r :: r in refs ==> r in memory && memory[r].status == Stale
  }

  predicate AllPresent(memory: map<string, Entry>, workspace: string, refs: seq<string>) {
    forall r :: r in refs ==> Present(memory, workspace, r)
  }

  // Every guard in order; None lets the change happen.
  function ApplyGuard(cfg: Config, s: State, id: string, workspace: string, principal: string)
    : Option<ApplyError>
  {
    var plan := PlanGuard(cfg, s, id, workspace, principal);
    if plan.Some? then plan
    else if !AllPresent(s.memory, workspace, TargetRefs(s, id)) then Some(EntryNotFound)
    else if !AllStale(s.memory, TargetRefs(s, id)) then Some(StatusConflict)
    else if ApplicationIdFor(id).None? then Some(BadProposalId)
    else if ApplicationIdFor(id).value in s.applications then Some(ApplicationExists)
    else None
  }

  function AppliedState(cfg: Config, s: State, id: string, workspace: string, principal: string): State
    requires ApplyGuard(cfg, s, id, workspace, principal).None?
  {
    var p := s.proposals[id];
    var refs := TargetRefs(s, id);
    State(
      Flip(s.memory, refs, Rejected),
      s.proposals[id := p.(status := Applied)],
      s.applications[ApplicationIdFor(id).value :=
        Application(workspace, id, p.changeType, principal, TargetsFor(cfg, s.memory, refs), Verified)],
      s.paused)
  }

  // Applied before: the application on record, or an error if there is none.
  predicate IsReplay(s: State, id: string, workspace: string) {
    id in s.proposals && s.proposals[id].workspace == workspace && s.proposals[id].status == Applied
  }

  predicate IsApplicationOf(a: Application, id: string, workspace: string) {
    a.proposal == id && a.workspace == workspace
  }

  function RevertGuard(cfg: Config, s: State, id: string, workspace: string): Option<ApplyError> {
    if id !in s.applications || s.applications[id].workspace != workspace then Some(ApplicationNotFound)
    else
      var a := s.applications[id];
      if a.status != Verified then Some(NotVerified)
      else if a.changeType != MEMORY_CLEANUP then Some(NoApplier)
      else TargetsGuard(cfg, s.memory, a)
  }

  // The first target that is gone or changed since it was applied.
  function DriftGuard(
      cfg: Config, memory: map<string, Entry>, workspace: string, targets: seq<TargetState>)
    : Option<ApplyError>
  {
    if targets == [] then None
    else
      var t := targets[0];
      if !Present(memory, workspace, t.ref) then Some(EntryNotFound)
      else if cfg.hash(memory[t.ref]) != t.afterHash then Some(RevertConflict)
      else DriftGuard(cfg, memory, workspace, targets[1..])
  }

  // The first target that cannot be put back to the status it had.
  function RestoreGuard(
      memory: map<string, Entry>, workspace: string, targets: seq<TargetState>): Option<ApplyError>
  {
    if targets == [] then None
    else
      var t := targets[0];
      if !HasStatus(memory, workspace, t.ref, Rejected) then Some(StatusConflict)
      else if t.beforeStatus != Stale then Some(VerificationFailed)
      else RestoreGuard(Flip(memory, [t.ref], Stale), workspace, targets[1..])
  }

  function TargetsGuard(cfg: Config, memory: map<string, Entry>, a: Application): Option<ApplyError> {
    var drift := DriftGuard(cfg, memory, a.workspace, a.targets);
    if drift.Some? then drift else RestoreGuard(memory, a.workspace, a.targets)
  }

  function RevertedState(s: State, id: string): State
    requires id in s.applications
  {
    var a := s.applications[id];
    s.(memory := Flip(s.memory, RefsOfTargets(a.targets), Stale),
       applications := s.applications[id := a.(status := Reverted)])
  }

  // ---- The service ---------------------------------------------------------

  class OrgChangeApplyService {
    const cfg: Config
    var memory: map<string, Entry>
    var proposals: map<string, Proposal>
    var applications: map<string, Application>
    var paused: set<string>

    function Contents(): State
      reads this
    {
      State(memory, proposals, applications, paused)
    }

    constructor (cfg: Config, s: State)
      ensures this.cfg == cfg && Contents() == s
    {
      this.cfg := cfg;
      memory, proposals, applications, paused := s.memory, s.proposals, s.applications, s.paused;
    }

    // Compare-and-swap on one entry's status.
    method SetStatusIfCurrent(ref: string, workspace: string, expected: EntryStatus, next: EntryStatus)
      returns (error: Option<ApplyError>)
      modifies this`memory
      ensures error == if !Present(old(memory), workspace, ref) then Some(EntryNotFound)
                       else if old(memory)[ref].status != expected then Some(StatusConflict)
                       else None
      ensures memory == if error.None? then Flip(old(memory), [ref], next) else old(memory)
    {
      if ref !in memory || memory[ref].workspace != workspace {
        return Some(EntryNotFound);
      }
      if memory[ref].status != expected {
        return Some(StatusConflict);
      }
      ghost var before := memory;
      if next != expected {
        memory := memory[ref := memory[ref].(status := next)];
      }
      assert memory == Flip(before, [ref], next);
      return None;
    }

    method FindForProposal(workspace: string, id: string) returns (found: Option<Application>)
      ensures found.Some? ==>
        found.value in applications.Values && IsApplicationOf(found.value, id, workspace)
      ensures found.None? ==>
        forall a :: a in applications ==> !IsApplicationOf(applications[a], id, workspace)
    {
      var rest := applications.Keys;
      while rest != {}
        invariant rest <= applications.Keys
        invariant forall a :: a in applications.Keys - rest ==>
          !IsApplicationOf(applications[a], id, workspace)
        decreases |rest|
      {
        var a :| a in rest;
        if IsApplicationOf(applications[a], id, workspace) {
          return Some(applications[a]);
        }
        rest := rest - {a};
      }
      return None;
    }

    // Inspects every target before any is touched.
    method InspectAll(workspace: string, refs: seq<string>) returns (found: bool)
      ensures found <==> AllPresent(memory, workspace, refs)
    {
      for i := 0 to |refs|
        invariant forall k :: 0 <= k < i ==> Present(memory, workspace, refs[k])
      {
        if refs[i] !in memory || memory[refs[i]].workspace != workspace {
          assert refs[i] in refs;
          return false;
        }
      }
      return true;
    }

    // Flips the targets one by one, each verified; a failure leaves the caller to roll back.
    method ApplyTargets(workspace: string, refs: seq<string>)
      returns (error: Option<ApplyError>, targets: seq<TargetState>)
      requires AllPresent(memory, workspace, refs)
      requires forall i, j | 0 <= i < j < |refs| :: refs[i] != refs[j]
      modifies this`memory
      ensures forall r :: r in refs ==> r in old(memory)
      ensures error == if AllStale(old(memory), refs) then None else Some(StatusConflict)
      ensures error.None? ==>
        && memory == Flip(old(memory), refs, Rejected)
        && targets == TargetsFor(cfg, old(memory), refs)
    {
      targets, error := [], None;
      ghost var before := memory;
      assert memory == Flip(before, refs[..0], Rejected);
      for i := 0 to |refs|
        invariant error.None? && memory == Flip(before, refs[..i], Rejected)
        invariant |targets| == i
        invariant forall k :: 0 <= k < i ==>
          && refs[k] in before && before[refs[k]].status == Stale
          && targets[k] == TargetFor(cfg, before[refs[k]], refs[k])
      {
        var ref := refs[i];
        assert ref in refs && ref !in refs[..i];
        var inspected := memory[ref];
        error := SetStatusIfCurrent(ref, workspace, Stale, Rejected);
        if error.Some? {
          return;
        }
        FlipStep(before, refs, i, Rejected);
        var after := memory[ref];
        if after.status != Rejected {
          assert false;
        }
        targets := targets +
          [TargetState(ref, inspected.status, after.status, cfg.hash(inspected), cfg.hash(after))];
      }
      assert refs[..|refs|] == refs;
    }

    method Plan(id: string, workspace: string, principal: string)
      returns (error: Option<ApplyError>, refs: seq<string>)
      ensures error == PlanGuard(cfg, Contents(), id, workspace, principal)
      ensures error.None? ==> refs == TargetRefs(Contents(), id)
    {
      refs := [];
      if id !in proposals {
        return Some(ProposalNotFound), refs;
      }
      var proposal := proposals[id];
      if proposal.workspace != workspace {
        return Some(OtherWorkspace), refs;
      }
      if proposal.status != Approved {
        return Some(NotApproved), refs;
      }
      if proposal.changeType != MEMORY_CLEANUP {
        return Some(NoApplier), refs;
      }
      if workspace in paused {
        return Some(Paused), refs;
      }
      if proposal.evidence == 0 {
        return Some(NoEvidence), refs;
      }
      if proposal.proposedBy == principal {
        return Some(SelfApplied), refs;
      }
      var planned := ResolveTargets(proposal);
      if planned.None? {
        return Some(BadPatch), refs;
      }
      refs := Dedupe(planned.value);
      if |refs| == 0 {
        return Some(NoTargets), refs;
      }
      if |refs| > cfg.cap {
        return Some(BlastRadius), refs;
      }
      error := None;
    }

    // Succeeds exactly when no guard stops it and the decision is signed; then the targets are
    // flipped and recorded, and otherwise nothing changes at all.
    method Apply(id: string, workspace: string, principal: string, signed: bool)
      returns (r: Result<Application, ApplyError>)
      modifies this
      ensures IsReplay(old(Contents()), id, workspace) ==>
        && Contents() == old(Contents())
        && (r.Ok? ==> r.value in old(applications).Values && IsApplicationOf(r.value, id, workspace))
        && (r.Err? ==>
             && r.error == ApplicationMissing
             && forall a :: a in old(applications) ==>
                  !IsApplicationOf(old(applications)[a], id, workspace))
      ensures !IsReplay(old(Contents()), id, workspace) ==>
        var guard := ApplyGuard(cfg, old(Contents()), id, workspace, principal);
        if guard.Some? then r == Err(guard.value) && Contents() == old(Contents())
        else if !signed then r == Err(NotSigned) && Contents() == old(Contents())
        else
          && Contents() == AppliedState(cfg, old(Contents()), id, workspace, principal)
          && r == Ok(applications[ApplicationIdFor(id).value])
    {
      hide PlanGuard, TargetRefs, AllStale, AllPresent, Flip, TargetsFor;
      if IsReplay(Contents(), id, workspace) {
        var existing := FindForProposal(workspace, id);
        return if existing.Some? then Ok(existing.value) else Err(ApplicationMissing);
      }
      var stopped, refs := Plan(id, workspace, principal);
      if stopped.Some? {
        return Err(stopped.value);
      }
      DedupedRefs(Contents(), id);
      ProposalIsThere(cfg, Contents(), id, workspace, principal);
      var found := InspectAll(workspace, refs);
      if !found {
        return Err(EntryNotFound);
      }
      var before, proposal := memory, proposals[id];
      var error, targets := ApplyTargets(workspace, refs);
      if error.Some? {
        memory := before;
        return Err(error.value);
      }
      proposals := proposals[id := proposal.(status := Applied)];
      var applicationId := ApplicationIdFor(id);
      if applicationId.None? || applicationId.value in applications || !signed {
        memory, proposals := before, proposals[id := proposal];
        assert proposals == old(proposals);
        return Err(if applicationId.None? then BadProposalId
                   else if applicationId.value in applications then ApplicationExists
                   else NotSigned);
      }
      var application :=
        Application(workspace, id, proposal.changeType, principal, targets, JustApplied);
      applications := applications[applicationId.value := application];
      applications := applications[applicationId.value := application.(status := Verified)];
      return Ok(applications[applicationId.value]);
    }

    method CheckDrift(workspace: string, targets: seq<TargetState>) returns (error: Option<ApplyError>)
      ensures error == DriftGuard(cfg, memory, workspace, targets)
    {
      for i := 0 to |targets|
        invariant DriftGuard(cfg, memory, workspace, targets) ==
                  DriftGuard(cfg, memory, workspace, targets[i..])
      {
        var target := targets[i];
        assert targets[i..][0] == target && targets[i..][1..] == targets[i + 1..];
        if target.ref !in memory || memory[target.ref].workspace != workspace {
          return Some(EntryNotFound);
        }
        if cfg.hash(memory[target.ref]) != target.afterHash {
          return Some(RevertConflict);
        }
      }
      return None;
    }

    method RestoreTargets(workspace: string, targets: seq<TargetState>)
      returns (error: Option<ApplyError>)
      requires forall k :: 0 <= k < |targets| ==> Present(memory, workspace, targets[k].ref)
      modifies this`memory
      ensures error == RestoreGuard(old(memory), workspace, targets)
      ensures error.None? ==> memory == Flip(old(memory), RefsOfTargets(targets), Stale)
    {
      ghost var before := memory;
      error := None;
      assert memory == Flip(before, RefsOfTargets(targets)[..0], Stale);
      for i := 0 to |targets|
        invariant error.None? && memory == Flip(before, RefsOfTargets(targets)[..i], Stale)
        invariant forall k :: 0 <= k < |targets| ==> Present(memory, workspace, targets[k].ref)
        invariant RestoreGuard(before, workspace, targets) ==
                  RestoreGuard(memory, workspace, targets[i..])
      {
        var target := targets[i];
        assert targets[i..][0] == target && targets[i..][1..] == targets[i + 1..];
        error := SetStatusIfCurrent(target.ref, workspace, Rejected, Stale);
        if error.Some? {
          return;
        }
        FlipStep(before, RefsOfTargets(targets), i, Stale);
        if memory[target.ref].status != target.beforeStatus {
          return Some(VerificationFailed);
        }
      }
      assert RefsOfTargets(targets)[..|targets|] == RefsOfTargets(targets);
    }

    // Reverts every target of a verified application, or changes nothing.
    method Revert(id: string, workspace: string, signed: bool)
      returns (r: Result<Application, ApplyError>)
      modifies this
      ensures id in old(applications) && old(applications)[id].workspace == workspace
              && old(applications)[id].status == Reverted
              ==> Contents() == old(Contents()) && r == Ok(old(applications)[id])
      ensures !(id in old(applications) && old(applications)[id].workspace == workspace
                && old(applications)[id].status == Reverted) ==>
        var guard := RevertGuard(cfg, old(Contents()), id, workspace);
        if guard.Some? then r == Err(guard.value) && Contents() == old(Contents())
        else if !signed then r == Err(NotSigned) && Contents() == old(Contents())
        else Contents() == RevertedState(old(Contents()), id) && r == Ok(applications[id])
    {
      if id !in applications || applications[id].workspace != workspace {
        return Err(ApplicationNotFound);
      }
      var application := applications[id];
      if application.status == Reverted {
        return Ok(application);
      }
      if application.status != Verified {
        return Err(NotVerified);
      }
      if application.changeType != MEMORY_CLEANUP {
        return Err(NoApplier);
      }
      var drift := CheckDrift(workspace, application.targets);
      if drift.Some? {
        return Err(drift.value);
      }
      NoDriftIsPresent(cfg, memory, workspace, application.targets);
      var before := memory;
      var error := RestoreTargets(workspace, application.targets);
      if error.Some? || !signed {
        memory := before;
        return Err(if error.Some? then error.value else NotSigned);
      }
      applications := applications[id := application.(status := Reverted)];
      return Ok(applications[id]);
    }
  }

  lemma DedupedRefs(s: State, id: string)
    ensures forall i, j | 0 <= i < j < |TargetRefs(s, id)| :: TargetRefs(s, id)[i] != TargetRefs(s, id)[j]
  {
  }

  lemma ProposalIsThere(cfg: Config, s: State, id: string, workspace: string, principal: string)
    requires PlanGuard(cfg, s, id, workspace, principal).None?
    ensures id in s.proposals && s.proposals[id].workspace == workspace
    ensures s.proposals[id].status == Approved && TargetRefs(s, id) != []
  {
  }

  lemma FlipStep(memory: map<string, Entry>, refs: seq<string>, i: nat, next: EntryStatus)
    requires i < |refs|
    ensures Flip(Flip(memory, refs[..i], next), [refs[i]], next) == Flip(memory, refs[..i + 1], next)
  {
    assert refs[..i + 1] == refs[..i] + [refs[i]];
  }

  lemma NoDriftIsPresent(
      cfg: Config, memory: map<string, Entry>, workspace: string, targets: seq<TargetState>)
    requires DriftGuard(cfg, memory, workspace, targets).None?
    ensures forall k :: 0 <= k < |targets| ==> Present(memory, workspace, targets[k].ref)
  {
    if targets != [] {
      NoDriftIsPresent(cfg, memory, workspace, targets[1..]);
      forall k | 0 <= k < |targets| ensures Present(memory, workspace, targets[k].ref) {
        assert k > 0 ==> targets[k] == targets[1..][k - 1];
      }
    }
  }
}
