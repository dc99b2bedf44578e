// Whole runs of proposing, deciding, applying and reverting memory cleanups.

module OrgChangeRuns {
  import opened Prelude
  import opened OrgChangeApply

  datatype Op =
    | SaveEntry(id: string, entry: Entry)
    | Propose(id: string, proposal: Proposal)
    | Decide(id: string, status: ProposalStatus)
    | SetPaused(workspace: string, on: bool)
    | Apply(id: string, workspace: string, principal: string, signed: bool)
    | Revert(id: string, workspace: string, signed: bool)

  // The lifecycle others may drive a proposal along.
  predicate Allowed(from: ProposalStatus, to: ProposalStatus) {
    || (from == Open && (to == Approved || to == Refused))
    || (from == Approved && (to == Applied || to == Acknowledged))
    || (from == Acknowledged && to == Withdrawn)
  }

  // What an operation leaves; one that is refused leaves everything as it was.
  function Next(cfg: Config, s: State, op: Op): State {
    match op
    case SaveEntry(id, entry) =>
      if id in s.memory then s else s.(memory := s.memory[id := entry])
    case Propose(id, p) =>
      if id in s.proposals || (p.status != Open && p.status != Approved && p.status != Refused) then s
      else s.(proposals := s.proposals[id := p])
    case Decide(id, status) =>
      if id in s.proposals && Allowed(s.proposals[id].status, status)
      then s.(proposals := s.proposals[id := s.proposals[id].(status := status)]) else s
    case SetPaused(w, on) => s.(paused := if on then s.paused + {w} else s.paused - {w})
    case Apply(id, w, principal, signed) =>
      if ApplyGuard(cfg, s, id, w, principal).None? && signed
      then AppliedState(cfg, s, id, w, principal) else s
    case Revert(id, w, signed) =>
      if RevertGuard(cfg, s, id, w).None? && signed then RevertedState(s, id) else s
  }

  function Run(cfg: Config, s: State, ops: seq<Op>): State {
    if ops == [] then s else Next(cfg, Run(cfg, s, ops[..|ops| - 1]), ops[|ops| - 1])
  }

  // ---- The invariant -------------------------------------------------------

  // The target was stale, is rejected, and is otherwise what it was when recorded.
  ghost predicate Held(cfg: Config, memory: map<string, Entry>, workspace: string, t: TargetState) {
    && HasStatus(memory, workspace, t.ref, Rejected)
    && t == TargetFor(cfg, memory[t.ref].(status := Stale), t.ref)
  }

  ghost predicate DistinctRefs(targets: seq<TargetState>) {
    forall i, j | 0 <= i < j < |targets| :: targets[i].ref != targets[j].ref
  }

  ghost predicate ApplicationOk(cfg: Config, s: State, id: string) {
    id in s.applications ==>
      var a := s.applications[id];
      && ApplicationIdFor(a.proposal) == Some(id)
      && a.proposal in s.proposals && s.proposals[a.proposal].status == Applied
      && a.changeType == MEMORY_CLEANUP
      && 1 <= |a.targets| <= cfg.cap && DistinctRefs(a.targets)
      && (a.status == Verified ==> forall t :: t in a.targets ==> Held(cfg, s.memory, a.workspace, t))
  }

  ghost predicate Names(s: State, id: string, ref: string) {
    id in s.applications && exists t :: t in s.applications[id].targets && t.ref == ref
  }

  ghost predicate IsVerified(s: State, id: string) {
    id in s.applications && s.applications[id].status == Verified
  }

  ghost predicate TargetsApart(s: State, a: string, b: string) {
    IsVerified(s, a) && IsVerified(s, b) && a != b ==> forall ref :: !(Names(s, a, ref) && Names(s, b, ref))
  }

  ghost predicate Inv(cfg: Config, s: State) {
    && (forall id :: ApplicationOk(cfg, s, id))
    && (forall a, b :: TargetsApart(s, a, b))
  }

  // ---- Every operation keeps it --------------------------------------------

  // More entries and proposals, or applied ones staying applied.
  lemma GrowthKeeps(cfg: Config, s: State, n: State)
    requires Inv(cfg, s) && n.applications == s.applications
    requires forall id :: id in s.memory ==> id in n.memory && n.memory[id] == s.memory[id]
    requires forall id :: id in s.proposals && s.proposals[id].status == Applied ==>
      id in n.proposals && n.proposals[id].status == Applied
    ensures Inv(cfg, n)
  {
    forall id ensures ApplicationOk(cfg, n, id) {
      assert ApplicationOk(cfg, s, id);
      if IsVerified(s, id) {
        forall t | t in s.applications[id].targets
          ensures Held(cfg, n.memory, s.applications[id].workspace, t)
        {
          assert Held(cfg, s.memory, s.applications[id].workspace, t);
        }
      }
    }
    forall a, b ensures TargetsApart(n, a, b) {
      assert TargetsApart(s, a, b);
      forall ref ensures Names(n, a, ref) == Names(s, a, ref) && Names(n, b, ref) == Names(s, b, ref) {}
    }
  }

  lemma NewTargets(cfg: Config, memory: map<string, Entry>, workspace: string, refs: seq<string>)
    requires AllPresent(memory, workspace, refs) && AllStale(memory, refs)
    requires forall i, j | 0 <= i < j < |refs| :: refs[i] != refs[j]
    requires forall r :: r in refs ==> r in memory
    ensures var targets := TargetsFor(cfg, memory, refs);
            && DistinctRefs(targets) && |targets| == |refs|
            && (forall t :: t in targets ==>
                 t.ref in refs && Held(cfg, Flip(memory, refs, Rejected), workspace, t))
  {
    var targets := TargetsFor(cfg, memory, refs);
    forall t | t in targets
      ensures t.ref in refs && Held(cfg, Flip(memory, refs, Rejected), workspace, t)
    {
      var k :| 0 <= k < |targets| && targets[k] == t;
      assert refs[k] in refs;
      var e := memory[refs[k]];
      assert e.(status := Rejected).(status := Stale) == e;
    }
  }

  lemma ApplyKeeps(cfg: Config, s: State, id: string, w: string, principal: string)
    requires Inv(cfg, s) && ApplyGuard(cfg, s, id, w, principal).None?
    ensures Inv(cfg, AppliedState(cfg, s, id, w, principal))
  {
    var n := AppliedState(cfg, s, id, w, principal);
    var refs := TargetRefs(s, id);
    var mine := ApplicationIdFor(id).value;
    DedupedRefs(s, id);
    PlanIsCleanup(cfg, s, id, w, principal);
    NewTargets(cfg, s.memory, w, refs);
    forall other | IsVerified(s, other) ensures forall ref :: Names(s, other, ref) ==> ref !in refs {
      HeldIsNotStale(cfg, s, other, refs);
    }
    NewApplicationKeeps(cfg, s, n, mine, refs);
  }

  // A new verified application over targets no other verified one names.
  lemma NewApplicationKeeps(cfg: Config, s: State, n: State, mine: string, refs: seq<string>)
    requires Inv(cfg, s) && mine !in s.applications && mine in n.applications
    requires n.applications == s.applications[mine := n.applications[mine]]
    requires n.memory == Flip(s.memory, refs, Rejected)
    requires forall p :: p in s.proposals && s.proposals[p].status == Applied ==>
      p in n.proposals && n.proposals[p].status == Applied
    requires forall other :: IsVerified(s, other) ==> forall ref :: Names(s, other, ref) ==> ref !in refs
    requires forall t :: t in n.applications[mine].targets ==> t.ref in refs
    requires ApplicationOk(cfg, n, mine)
    ensures Inv(cfg, n)
  {
    hide Flip, Held, Allowed;
    forall a ensures ApplicationOk(cfg, n, a) {
      assert ApplicationOk(cfg, s, a);
      if IsVerified(s, a) {
        HeldElsewhere(cfg, s, a, refs, Rejected);
      }
    }
    assert forall ref :: Names(n, mine, ref) ==> ref in refs;
    forall a, b, ref | IsVerified(n, a) && IsVerified(n, b) && a != b
      ensures !(Names(n, a, ref) && Names(n, b, ref))
    {
      assert TargetsApart(s, a, b);
      NamesKept(s, n, a, mine);
      NamesKept(s, n, b, mine);
      assert a != mine ==> IsVerified(s, a) && Names(n, a, ref) == Names(s, a, ref);
      assert b != mine ==> IsVerified(s, b) && Names(n, b, ref) == Names(s, b, ref);
    }
    forall a, b ensures TargetsApart(n, a, b) {}
  }

  lemma PlanIsCleanup(cfg: Config, s: State, id: string, w: string, principal: string)
    requires ApplyGuard(cfg, s, id, w, principal).None?
    ensures id in s.proposals && s.proposals[id].changeType == MEMORY_CLEANUP
    ensures s.proposals[id].status == Approved
    ensures 1 <= |TargetRefs(s, id)| <= cfg.cap
  {
  }

  lemma NamesKept(s: State, n: State, id: string, changed: string)
    requires id != changed ==>
      (id in n.applications <==> id in s.applications)
      && (id in s.applications ==> n.applications[id].targets == s.applications[id].targets)
    ensures id != changed ==> forall ref :: Names(n, id, ref) == Names(s, id, ref)
  {
  }

  // A verified application's targets are rejected, so no cleanup of stale entries names them.
  lemma HeldIsNotStale(cfg: Config, s: State, id: string, refs: seq<string>)
    requires Inv(cfg, s) && IsVerified(s, id) && AllStale(s.memory, refs)
    ensures forall ref :: Names(s, id, ref) ==> ref !in refs
  {
    assert ApplicationOk(cfg, s, id);
    forall ref | Names(s, id, ref) ensures ref !in refs {
      var t :| t in s.applications[id].targets && t.ref == ref;
      assert Held(cfg, s.memory, s.applications[id].workspace, t);
    }
  }

  lemma HeldElsewhere(cfg: Config, s: State, id: string, refs: seq<string>, next: EntryStatus)
    requires ApplicationOk(cfg, s, id) && IsVerified(s, id)
    requires forall ref :: Names(s, id, ref) ==> ref !in refs
    ensures forall t :: t in s.applications[id].targets ==>
      Held(cfg, Flip(s.memory, refs, next), s.applications[id].workspace, t)
  {
    forall t | t in s.applications[id].targets
      ensures Held(cfg, Flip(s.memory, refs, next), s.applications[id].workspace, t)
    {
      assert Held(cfg, s.memory, s.applications[id].workspace, t);
      assert Names(s, id, t.ref);
    }
  }

  lemma RevertKeeps(cfg: Config, s: State, id: string, w: string)
    requires Inv(cfg, s) && RevertGuard(cfg, s, id, w).None?
    ensures Inv(cfg, RevertedState(s, id))
  {
    var n := RevertedState(s, id);
    var refs := RefsOfTargets(s.applications[id].targets);
    RefsAreNames(s, id);
    hide Flip, RefsOfTargets;
    forall a ensures ApplicationOk(cfg, n, a) {
      assert ApplicationOk(cfg, s, a);
      assert TargetsApart(s, a, id);
      if a != id && IsVerified(s, a) {
        HeldElsewhere(cfg, s, a, refs, Stale);
      }
    }
    forall a, b ensures TargetsApart(n, a, b) {
      assert TargetsApart(s, a, b);
      NamesKept(s, n, a, id);
      NamesKept(s, n, b, id);
    }
  }

  lemma RefsAreNames(s: State, id: string)
    requires id in s.applications
    ensures forall ref :: ref in RefsOfTargets(s.applications[id].targets) <==> Names(s, id, ref)
  {
    var targets := s.applications[id].targets;
    var refs := RefsOfTargets(targets);
    forall ref ensures ref in refs <==> Names(s, id, ref) {
      if ref in refs {
        var k :| 0 <= k < |refs| && refs[k] == ref;
        assert targets[k] in targets;
      }
      if Names(s, id, ref) {
        var t :| t in targets && t.ref == ref;
        var k :| 0 <= k < |targets| && targets[k] == t;
        assert refs[k] == ref;
      }
    }
  }

  lemma StepKeeps(cfg: Config, s: State, op: Op)
    requires Inv(cfg, s)
    ensures Inv(cfg, Next(cfg, s, op))
  {
    hide Inv, ApplyGuard, RevertGuard, AppliedState, RevertedState;
    match op
    case Apply(id, w, principal, signed) =>
      if ApplyGuard(cfg, s, id, w, principal).None? && signed { ApplyKeeps(cfg, s, id, w, principal); }
    case Revert(id, w, signed) =>
      if RevertGuard(cfg, s, id, w).None? && signed { RevertKeeps(cfg, s, id, w); }
    case SaveEntry(_, _) => GrowthKeeps(cfg, s, Next(cfg, s, op));
    case Propose(_, _) => GrowthKeeps(cfg, s, Next(cfg, s, op));
    case Decide(_, _) => GrowthKeeps(cfg, s, Next(cfg, s, op));
    case SetPaused(_, _) => GrowthKeeps(cfg, s, Next(cfg, s, op));
  }

  // In every interleaving: verified applications have disjoint targets, each still exactly
  // as that application left it.
  lemma {:induction false} RunsKeepInv(cfg: Config, s: State, ops: seq<Op>)
    requires Inv(cfg, s)
    ensures Inv(cfg, Run(cfg, s, ops))
  {
    hide Inv, Next;
    if ops != [] {
      RunsKeepInv(cfg, s, ops[..|ops| - 1]);
      StepKeeps(cfg, Run(cfg, s, ops[..|ops| - 1]), ops[|ops| - 1]);
    }
  }

  lemma EmptyIsInv(cfg: Config, s: State)
    requires s.applications == map[]
    ensures Inv(cfg, s)
  {
  }

  // ---- Reverting -----------------------------------------------------------

  lemma HeldTargetsPassDrift(
      cfg: Config, memory: map<string, Entry>, workspace: string, targets: seq<TargetState>)
    requires forall t :: t in targets ==> Held(cfg, memory, workspace, t)
    ensures DriftGuard(cfg, memory, workspace, targets).None?
  {
    if targets != [] {
      var t := targets[0];
      assert Held(cfg, memory, workspace, t);
      var e := memory[t.ref];
      assert e.(status := Stale).(status := Rejected) == e;
      HeldTargetsPassDrift(cfg, memory, workspace, targets[1..]);
    }
  }

  lemma HeldTargetsRestore(
      cfg: Config, memory: map<string, Entry>, workspace: string, targets: seq<TargetState>)
    requires DistinctRefs(targets)
    requires forall t :: t in targets ==> Held(cfg, memory, workspace, t)
    ensures RestoreGuard(memory, workspace, targets).None?
  {
    if targets != [] {
      var t := targets[0];
      assert Held(cfg, memory, workspace, t);
      var next := Flip(memory, [t.ref], Stale);
      forall u | u in targets[1..] ensures Held(cfg, next, workspace, u) {
        var k :| 0 <= k < |targets[1..]| && targets[1..][k] == u;
        assert targets[k + 1] == u && u in targets;
        assert Held(cfg, memory, workspace, u);
      }
      HeldTargetsRestore(cfg, next, workspace, targets[1..]);
    }
  }

  // A verified application can always be reverted; every target then hashes to what was
  // recorded before the change, and no other entry moves.
  lemma VerifiedCanBeReverted(cfg: Config, s: State, id: string)
    requires Inv(cfg, s) && IsVerified(s, id)
    ensures var a := s.applications[id];
            var n := RevertedState(s, id);
            && RevertGuard(cfg, s, id, a.workspace).None?
            && (forall t :: t in a.targets ==>
                 t.ref in n.memory && cfg.hash(n.memory[t.ref]) == t.beforeHash
                 && n.memory[t.ref].status == t.beforeStatus)
            && (forall ref :: ref in s.memory && !Names(s, id, ref) ==>
                 ref in n.memory && n.memory[ref] == s.memory[ref])
  {
    var a := s.applications[id];
    assert ApplicationOk(cfg, s, id);
    HeldTargetsPassDrift(cfg, s.memory, a.workspace, a.targets);
    HeldTargetsRestore(cfg, s.memory, a.workspace, a.targets);
    RefsAreNames(s, id);
    forall t | t in a.targets
      ensures var n := RevertedState(s, id);
              t.ref in n.memory && cfg.hash(n.memory[t.ref]) == t.beforeHash
              && n.memory[t.ref].status == t.beforeStatus
    {
      assert Held(cfg, s.memory, a.workspace, t);
      assert Names(s, id, t.ref);
    }
  }

  // ---- What runs never change ----------------------------------------------

  // Entries keep everything but their status, applications everything but theirs, and an
  // applied proposal stays applied.
  ghost predicate Keeps(s: State, n: State) {
    && (forall id :: id in s.memory ==>
         id in n.memory && n.memory[id].(status := s.memory[id].status) == s.memory[id])
    && (forall id :: id in s.applications ==>
         id in n.applications
         && n.applications[id].(status := s.applications[id].status) == s.applications[id])
    && (forall id :: id in s.proposals && s.proposals[id].status == Applied ==>
         id in n.proposals && n.proposals[id] == s.proposals[id])
  }

  lemma StepKeepsRecords(cfg: Config, s: State, op: Op)
    ensures Keeps(s, Next(cfg, s, op))
  {
    hide TargetRefs, TargetsFor, RefsOfTargets, AllPresent, AllStale, DriftGuard, RestoreGuard;
    if op.Apply? && ApplyGuard(cfg, s, op.id, op.workspace, op.principal).None? {
      ProposalIsThere(cfg, s, op.id, op.workspace, op.principal);
    }
  }

  lemma {:induction false} RunsKeepRecords(cfg: Config, s: State, ops: seq<Op>)
    ensures Keeps(s, Run(cfg, s, ops))
  {
    hide Next;
    if ops != [] {
      RunsKeepRecords(cfg, s, ops[..|ops| - 1]);
      StepKeepsRecords(cfg, Run(cfg, s, ops[..|ops| - 1]), ops[|ops| - 1]);
    }
  }

  // Once applied, a proposal never mutates memory again, whatever happens in between.
  lemma AppliesAtMostOnce(
      cfg: Config, s: State, ops: seq<Op>, id: string, w: string, principal: string, signed: bool)
    requires id in s.proposals && s.proposals[id].status == Applied
    ensures var later := Run(cfg, s, ops);
            Next(cfg, later, Apply(id, w, principal, signed)) == later
  {
    RunsKeepRecords(cfg, s, ops);
  }

  lemma AppliedNamesTargets(cfg: Config, s: State, id: string, w: string, principal: string, ref: string)
    requires ApplyGuard(cfg, s, id, w, principal).None? && ref in TargetRefs(s, id)
    ensures var n := AppliedState(cfg, s, id, w, principal);
            && Names(n, ApplicationIdFor(id).value, ref)
            && n.applications[ApplicationIdFor(id).value].workspace == w
            && ref in s.memory && s.memory[ref].status == Stale
            && ref in n.memory && n.memory[ref] == s.memory[ref].(status := Rejected)
  {
    hide TargetRefs, ApplicationIdFor, PlanGuard;
    var refs := TargetRefs(s, id);
    var targets := TargetsFor(cfg, s.memory, refs);
    var k :| 0 <= k < |refs| && refs[k] == ref;
    assert targets[k] in targets && targets[k].ref == ref;
  }

  lemma NamesPersist(s: State, n: State, id: string, ref: string)
    requires Keeps(s, n) && Names(s, id, ref) && ref in s.memory
    ensures Names(n, id, ref) && n.applications[id].workspace == s.applications[id].workspace
    ensures ref in n.memory
    ensures n.memory[ref].(status := Stale) == s.memory[ref].(status := Stale)
  {
    assert n.applications[id].targets == s.applications[id].targets;
  }

  lemma RevertRestores(cfg: Config, s: State, ops: seq<Op>, id: string, ref: string)
    requires Inv(cfg, s) && Names(s, id, ref) && ref in s.memory
    requires IsVerified(Run(cfg, s, ops), id)
    ensures var after := Next(cfg, Run(cfg, s, ops), Revert(id, s.applications[id].workspace, true));
            ref in after.memory && after.memory[ref] == s.memory[ref].(status := Stale)
  {
    var before := Run(cfg, s, ops);
    RunsKeepInv(cfg, s, ops);
    RunsKeepRecords(cfg, s, ops);
    hide Inv, Run, Keeps, RevertedState, Next, Names, IsVerified;
    NamesPersist(s, before, id, ref);
    NextReverts(cfg, before, id);
    RevertedEntry(before, id, ref);
  }

  lemma NextReverts(cfg: Config, s: State, id: string)
    requires Inv(cfg, s) && IsVerified(s, id)
    ensures Next(cfg, s, Revert(id, s.applications[id].workspace, true)) == RevertedState(s, id)
  {
    VerifiedCanBeReverted(cfg, s, id);
    hide RevertGuard, Inv, RevertedState;
  }

  // Applying, anything in between, then reverting: every target is the very entry it was.
  lemma RevertUndoesApply(
      cfg: Config, s: State, id: string, w: string, principal: string, ops: seq<Op>, ref: string)
    requires Inv(cfg, s) && ApplyGuard(cfg, s, id, w, principal).None?
    requires ref in TargetRefs(s, id)
    requires IsVerified(Run(cfg, AppliedState(cfg, s, id, w, principal), ops), ApplicationIdFor(id).value)
    ensures var before := Run(cfg, AppliedState(cfg, s, id, w, principal), ops);
            var after := Next(cfg, before, Revert(ApplicationIdFor(id).value, w, true));
            ref in s.memory && ref in after.memory && after.memory[ref] == s.memory[ref]
  {
    assert ApplicationIdFor(id).Some?;
    hide Inv, Run, Next, AppliedState, ApplyGuard, TargetRefs, ApplicationIdFor, IsVerified;
    ApplyKeeps(cfg, s, id, w, principal);
    AppliedNamesTargets(cfg, s, id, w, principal, ref);
    RevertRestores(
      cfg, AppliedState(cfg, s, id, w, principal), ops, ApplicationIdFor(id).value, ref);
  }

  lemma RevertedEntry(s: State, id: string, ref: string)
    requires Names(s, id, ref) && ref in s.memory
    ensures ref in RevertedState(s, id).memory
    ensures RevertedState(s, id).memory[ref] == s.memory[ref].(status := Stale)
  {
    RefsAreNames(s, id);
  }
}
