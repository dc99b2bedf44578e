// What applying and reverting a memory cleanup come to, told from the proposal, the entries and
// the applications on record.

module OrgChangeOutcomes {
  import opened Prelude
  import opened OrgChangeApply
  import opened OrgChangeRuns

  // ---- Ids -----------------------------------------------------------------

  ghost predicate HexDigits(s: string) {
    |s| == 32 && forall c :: c in s ==> c in "0123456789abcdef"
  }

  lemma HexDigitsIff(s: string, from: nat)
    requires from + 32 == |s|
    ensures HexDigits(s[from..]) <==> forall k | from <= k < |s| :: IsHex(s[k])
  {
    forall c: char ensures IsHex(c) <==> c in "0123456789abcdef" { HexIff(c); }
    var tail := s[from..];
    if HexDigits(tail) {
      forall k | from <= k < |s| ensures IsHex(s[k]) { assert tail[k - from] in tail; }
    }
  }

  lemma HexIff(c: char)
    ensures IsHex(c) <==> c in "0123456789abcdef"
  {
    var digits := "0123456789abcdef";
    assert digits[0] == '0' && digits[1] == '1' && digits[2] == '2' && digits[3] == '3'
        && digits[4] == '4' && digits[5] == '5' && digits[6] == '6' && digits[7] == '7'
        && digits[8] == '8' && digits[9] == '9' && digits[10] == 'a' && digits[11] == 'b'
        && digits[12] == 'c' && digits[13] == 'd' && digits[14] == 'e' && digits[15] == 'f';
  }

  // A canonical id is a kind, an underscore and 32 hexadecimal digits.
  ghost predicate Canonical(s: string) {
    exists kind, digits: string ::
      && s == kind + "_" + digits && HexDigits(digits)
      && kind != "" && 'a' <= kind[0] <= 'z'
      && forall c :: c in kind ==> 'a' <= c <= 'z' || '0' <= c <= '9'
  }

  lemma CanonicalIff(s: string)
    ensures IsCanonicalId(s) <==> Canonical(s)
  {
    if IsCanonicalId(s) {
      var kind, digits := s[..|s| - 33], s[|s| - 32..];
      HexDigitsIff(s, |s| - 32);
      assert s == kind + "_" + digits;
    }
    if Canonical(s) {
      var kind, digits: string :|
        && s == kind + "_" + digits && HexDigits(digits)
        && kind != "" && 'a' <= kind[0] <= 'z'
        && forall c :: c in kind ==> 'a' <= c <= 'z' || '0' <= c <= '9';
      assert s[|s| - 32..] == digits;
      HexDigitsIff(s, |s| - 32);
      forall k | 0 <= k < |s| - 33 ensures s[k] in kind { assert s[k] == kind[k]; }
      assert s[0] == kind[0];
    }
  }

  // The application of a proposal is named by the digits of the proposal's own id.
  lemma ApplicationIdIff(id: string, digits: string)
    ensures (ApplicationIdFor(id) == Some("application_" + digits) && HexDigits(digits)) <==>
              (id == "orgchg_" + digits && HexDigits(digits))
    ensures ApplicationIdFor(id).Some? <==> exists d :: id == "orgchg_" + d && HexDigits(d)
  {
    if |id| == 39 {
      HexDigitsIff(id, 7);
      if "orgchg_" <= id { assert id == "orgchg_" + id[7..]; }
    }
    if ApplicationIdFor(id) == Some("application_" + digits) {
      var name := "application_" + digits;
      assert name[12..] == digits;
      assert ("application_" + id[7..])[12..] == id[7..];
      assert id == "orgchg_" + id[7..];
    }
    if id == "orgchg_" + digits { assert id[7..] == digits; }
  }

  // ---- Targets -------------------------------------------------------------

  // The entries a patch names.
  ghost function Named(items: seq<PatchItem>): set<string> {
    set item | item in items && item.Ref? :: item.ref
  }

  // Every element is a string naming a canonical id.
  ghost predicate WellFormedPatch(p: Proposal) {
    p.patch.Some? && forall item :: item in p.patch.value ==> item.Ref? && Canonical(item.ref)
  }

  lemma {:induction false} RefsOfHolds(items: seq<PatchItem>)
    ensures forall x :: x in RefsOf(items) <==> x in Named(items)
  {
    if items != [] {
      var n := |items| - 1;
      RefsOfHolds(items[..n]);
      assert items == items[..n] + [items[n]];
    }
  }

  lemma TargetsAreNamed(s: State, id: string)
    requires id in s.proposals
    ensures var p := s.proposals[id];
            && (ResolveTargets(p).Some? <==> WellFormedPatch(p))
            && (WellFormedPatch(p) ==>
                 var refs := TargetRefs(s, id);
                 && (forall x :: x in refs <==> x in Named(p.patch.value))
                 && |refs| == |Named(p.patch.value)|
                 && (forall i, j | 0 <= i < j < |refs| :: refs[i] != refs[j]))
  {
    var p := s.proposals[id];
    if p.patch.Some? {
      RefsOfHolds(p.patch.value);
      forall x ensures IsCanonicalId(x) <==> Canonical(x) { CanonicalIff(x); }
      hide IsCanonicalId, Canonical, RefsOf, Dedupe;
      if WellFormedPatch(p) {
        forall x | x in RefsOf(p.patch.value) ensures Canonical(x) {
          assert Ref(x) in p.patch.value;
        }
        assert NotAString !in p.patch.value;
        DistinctCount(TargetRefs(s, id), Named(p.patch.value));
      } else if ResolveTargets(p).Some? {
        forall item | item in p.patch.value ensures item.Ref? && Canonical(item.ref) {
          assert item == NotAString || item.ref in Named(p.patch.value);
        }
      }
    }
  }

  lemma DistinctCount(refs: seq<string>, s: set<string>)
    requires forall i, j | 0 <= i < j < |refs| :: refs[i] != refs[j]
    requires forall x :: x in refs <==> x in s
    ensures |refs| == |s|
  {
    if refs == [] {
      assert s == {};
    } else {
      var n := |refs| - 1;
      assert refs == refs[..n] + [refs[n]];
      assert refs[n] in s;
      DistinctCount(refs[..n], s - {refs[n]});
    }
  }

  // ---- Applying ------------------------------------------------------------

  ghost predicate InWorkspace(s: State, workspace: string, ref: string) {
    ref in s.memory && s.memory[ref].workspace == workspace
  }

  lemma NamedIsEmptyIff(p: Proposal)
    requires WellFormedPatch(p)
    ensures p.patch.value == [] <==> |Named(p.patch.value)| == 0
  {
    if p.patch.value != [] { assert p.patch.value[0].ref in Named(p.patch.value); }
  }

  lemma EntriesStop(s: State, workspace: string, refs: seq<string>, named: set<string>)
    requires forall x :: x in refs <==> x in named
    ensures AllPresent(s.memory, workspace, refs) <==>
              forall ref :: ref in named ==> InWorkspace(s, workspace, ref)
    ensures AllPresent(s.memory, workspace, refs) ==>
              (AllStale(s.memory, refs) <==> forall ref :: ref in named ==> s.memory[ref].status == Stale)
  {
  }

  // Which reason stops a proposal, the first that applies; None when it may be applied.
  lemma ApplyStopsFor(cfg: Config, s: State, id: string, workspace: string, principal: string)
    requires id in s.proposals && s.proposals[id].workspace == workspace
    ensures var p := s.proposals[id];
            ApplyGuard(cfg, s, id, workspace, principal) ==
              if p.status != Approved then Some(NotApproved)
              else if p.changeType != "memory_cleanup" then Some(NoApplier)
              else if workspace in s.paused then Some(Paused)
              else if p.evidence == 0 then Some(NoEvidence)
              else if p.proposedBy == principal then Some(SelfApplied)
              else if !WellFormedPatch(p) then Some(BadPatch)
              else if p.patch.value == [] then Some(NoTargets)
              else if |Named(p.patch.value)| > cfg.cap then Some(BlastRadius)
              else if exists ref :: ref in Named(p.patch.value) && !InWorkspace(s, workspace, ref) then
                Some(EntryNotFound)
              else if exists ref :: ref in Named(p.patch.value) && s.memory[ref].status != Stale then
                Some(StatusConflict)
              else if !exists digits :: id == "orgchg_" + digits && HexDigits(digits) then
                Some(BadProposalId)
              else if exists digits :: id == "orgchg_" + digits && "application_" + digits in s.applications
              then Some(ApplicationExists)
              else None
  {
    var p := s.proposals[id];
    TargetsAreNamed(s, id);
    ApplicationIdIff(id, "");
    if WellFormedPatch(p) {
      NamedIsEmptyIff(p);
      EntriesStop(s, workspace, TargetRefs(s, id), Named(p.patch.value));
    }
    hide Named, HexDigits, ApplicationIdFor, TargetRefs, ResolveTargets, WellFormedPatch, AllPresent,
         AllStale, InWorkspace;
  }

  // An applied proposal of the workspace is answered by its application, and never applied.
  lemma ReplayIff(cfg: Config, s: State, id: string, workspace: string, principal: string)
    ensures IsReplay(s, id, workspace) <==>
              id in s.proposals && s.proposals[id].workspace == workspace && s.proposals[id].status == Applied
    ensures IsReplay(s, id, workspace) ==> ApplyGuard(cfg, s, id, workspace, principal) == Some(NotApproved)
  {
  }

  lemma UnknownIsNotApplied(cfg: Config, s: State, id: string, workspace: string, principal: string)
    requires id in s.proposals ==> s.proposals[id].workspace != workspace
    ensures ApplyGuard(cfg, s, id, workspace, principal) ==
              Some(if id in s.proposals then OtherWorkspace else ProposalNotFound)
  {
  }

  // What the record of an applied target says: the entry was stale and was rejected, with
  // its hash before and after.
  ghost predicate Records(cfg: Config, before: State, after: State, t: TargetState) {
    && t.ref in before.memory && t.ref in after.memory
    && t.beforeStatus == Stale && t.afterStatus == Rejected
    && t.beforeHash == cfg.hash(before.memory[t.ref])
    && t.afterHash == cfg.hash(after.memory[t.ref])
  }

  // What applying leaves: the named entries rejected, the proposal applied, one application
  // more, and everything else as it was.
  lemma AppliedLeaves(cfg: Config, s: State, id: string, workspace: string, principal: string, digits: string)
    requires ApplyGuard(cfg, s, id, workspace, principal) == None
    requires id == "orgchg_" + digits && HexDigits(digits)
    ensures id in s.proposals && WellFormedPatch(s.proposals[id])
    ensures var n := AppliedState(cfg, s, id, workspace, principal);
            var named := Named(s.proposals[id].patch.value);
            var name := "application_" + digits;
            && n.memory.Keys == s.memory.Keys && named <= s.memory.Keys
            && (forall ref :: ref in s.memory ==>
                 n.memory[ref] == if ref in named then s.memory[ref].(status := Rejected) else s.memory[ref])
            && n.proposals == s.proposals[id := s.proposals[id].(status := Applied)]
            && n.paused == s.paused
            && name !in s.applications && name in n.applications
            && n.applications == s.applications[name := n.applications[name]]
  {
    assert id in s.proposals && s.proposals[id].workspace == workspace;
    ApplyStopsFor(cfg, s, id, workspace, principal);
    TargetsAreNamed(s, id);
    ApplicationIdIff(id, digits);
    var named := Named(s.proposals[id].patch.value);
    hide Named, HexDigits, ApplicationIdFor, TargetRefs, ResolveTargets, WellFormedPatch, ApplyGuard, TargetsFor;
    assert forall ref :: ref in named ==> InWorkspace(s, workspace, ref);
  }

  // The new application is verified and records each named entry once.
  lemma AppliedRecords(cfg: Config, s: State, id: string, workspace: string, principal: string, digits: string)
    requires ApplyGuard(cfg, s, id, workspace, principal) == None
    requires id == "orgchg_" + digits && HexDigits(digits)
    ensures id in s.proposals && s.proposals[id].patch.Some?
    ensures "application_" + digits in AppliedState(cfg, s, id, workspace, principal).applications
    ensures var n := AppliedState(cfg, s, id, workspace, principal);
            var a := n.applications["application_" + digits];
            && a.workspace == workspace && a.proposal == id && a.changeType == "memory_cleanup"
            && a.appliedBy == principal && a.status == Verified
            && (forall t :: t in a.targets ==> Records(cfg, s, n, t))
            && (forall ref :: ref in Named(s.proposals[id].patch.value) <==>
                 exists t :: t in a.targets && t.ref == ref)
            && forall i, j :: 0 <= i < j < |a.targets| ==> a.targets[i].ref != a.targets[j].ref
  {
    assert id in s.proposals && s.proposals[id].workspace == workspace;
    assert s.proposals[id].changeType == "memory_cleanup";
    TargetsAreNamed(s, id);
    ApplicationIdIff(id, digits);
    ProposalStale(cfg, s, id, workspace, principal);
    var n, refs := AppliedState(cfg, s, id, workspace, principal), TargetRefs(s, id);
    hide Named, HexDigits, ApplicationIdFor, TargetRefs, ResolveTargets, WellFormedPatch, ApplyGuard;
    RecordsEach(cfg, s, n, refs);
  }

  lemma ProposalStale(cfg: Config, s: State, id: string, workspace: string, principal: string)
    requires ApplyGuard(cfg, s, id, workspace, principal) == None
    ensures id in s.proposals && ResolveTargets(s.proposals[id]).Some?
    ensures forall ref :: ref in TargetRefs(s, id) ==> ref in s.memory && s.memory[ref].status == Stale
  {
    hide TargetRefs, ResolveTargets, ApplicationIdFor;
  }

  lemma RecordsEach(cfg: Config, s: State, n: State, refs: seq<string>)
    requires forall ref :: ref in refs ==> ref in s.memory && s.memory[ref].status == Stale
    requires forall i, j | 0 <= i < j < |refs| :: refs[i] != refs[j]
    requires n.memory == Flip(s.memory, refs, Rejected)
    ensures var targets := TargetsFor(cfg, s.memory, refs);
            && (forall t :: t in targets ==> Records(cfg, s, n, t))
            && (forall ref :: ref in refs <==> exists t :: t in targets && t.ref == ref)
            && forall i, j :: 0 <= i < j < |targets| ==> targets[i].ref != targets[j].ref
  {
    var targets := TargetsFor(cfg, s.memory, refs);
    forall t | t in targets ensures Records(cfg, s, n, t) && t.ref in refs {
      var k :| 0 <= k < |refs| && targets[k] == t;
      assert refs[k] in refs;
    }
    forall ref | ref in refs ensures exists t :: t in targets && t.ref == ref {
      var k :| 0 <= k < |refs| && refs[k] == ref;
      assert targets[k] in targets && targets[k].ref == ref;
    }
  }

  // ---- Reverting -----------------------------------------------------------

  // Reverting compares every target with what was recorded before it touches any: the first
  // that is gone or has changed decides.
  ghost predicate Drifted(cfg: Config, s: State, workspace: string, t: TargetState) {
    !InWorkspace(s, workspace, t.ref) || cfg.hash(s.memory[t.ref]) != t.afterHash
  }

  lemma {:induction false} DriftIsFirst(cfg: Config, s: State, workspace: string, targets: seq<TargetState>)
    ensures match DriftGuard(cfg, s.memory, workspace, targets)
            case None => forall t :: t in targets ==> !Drifted(cfg, s, workspace, t)
            case Some(error) =>
              exists k :: 0 <= k < |targets| && Drifted(cfg, s, workspace, targets[k])
                && (forall j :: 0 <= j < k ==> !Drifted(cfg, s, workspace, targets[j]))
                && error == if InWorkspace(s, workspace, targets[k].ref) then RevertConflict else EntryNotFound
  {
    if targets != [] {
      var rest := targets[1..];
      DriftIsFirst(cfg, s, workspace, rest);
      assert targets == [targets[0]] + rest;
      if !Drifted(cfg, s, workspace, targets[0]) {
        if DriftGuard(cfg, s.memory, workspace, rest).Some? {
          var k :| 0 <= k < |rest| && Drifted(cfg, s, workspace, rest[k])
                && (forall j :: 0 <= j < k ==> !Drifted(cfg, s, workspace, rest[j]))
                && DriftGuard(cfg, s.memory, workspace, rest).value ==
                     if InWorkspace(s, workspace, rest[k].ref) then RevertConflict else EntryNotFound;
          assert targets[k + 1] == rest[k];
          forall j | 0 <= j < k + 1 ensures !Drifted(cfg, s, workspace, targets[j]) {
            assert j > 0 ==> targets[j] == rest[j - 1];
          }
        }
      }
    }
  }

  // The entry is still as applying left it, and was stale before.
  ghost predicate Restorable(memory: map<string, Entry>, workspace: string, t: TargetState) {
    IsRejected(memory, workspace, t) && t.beforeStatus == Stale
  }

  ghost predicate IsRejected(memory: map<string, Entry>, workspace: string, t: TargetState) {
    t.ref in memory && memory[t.ref].workspace == workspace && memory[t.ref].status == Rejected
  }

  // Target k is the first that cannot be restored.
  ghost predicate StuckAt(
      memory: map<string, Entry>, workspace: string, targets: seq<TargetState>, k: int, error: ApplyError)
  {
    && 0 <= k < |targets| && !Restorable(memory, workspace, targets[k])
    && (forall j :: 0 <= j < k ==> Restorable(memory, workspace, targets[j]))
    && error == if IsRejected(memory, workspace, targets[k]) then VerificationFailed else StatusConflict
  }

  // Every target comes back only as a rejected entry that was stale; the first that does not
  // fit decides.
  lemma {:induction false} RestoreIsFirst(memory: map<string, Entry>, workspace: string, targets: seq<TargetState>)
    requires DistinctRefs(targets)
    ensures match RestoreGuard(memory, workspace, targets)
            case None => forall t :: t in targets ==> Restorable(memory, workspace, t)
            case Some(error) => exists k :: StuckAt(memory, workspace, targets, k, error)
  {
    if targets != [] {
      var t, rest := targets[0], targets[1..];
      assert targets == [t] + rest;
      var next := Flip(memory, [t.ref], Stale);
      OthersKeep(memory, workspace, targets);
      if Restorable(memory, workspace, t) {
        RestoreIsFirst(next, workspace, rest);
        var guard := RestoreGuard(next, workspace, rest);
        assert RestoreGuard(memory, workspace, targets) == guard;
        hide RestoreGuard, Flip, Restorable, IsRejected;
        if guard.Some? {
          var k :| StuckAt(next, workspace, rest, k, guard.value);
          assert Restorable(memory, workspace, targets[0]);
          StuckLater(memory, next, workspace, targets, k, guard.value);
          assert StuckAt(memory, workspace, targets, k + 1, RestoreGuard(memory, workspace, targets).value);
        }
      } else {
        assert StuckAt(memory, workspace, targets, 0, RestoreGuard(memory, workspace, targets).value);
      }
    }
  }

  lemma OthersKeep(memory: map<string, Entry>, workspace: string, targets: seq<TargetState>)
    requires targets != [] && DistinctRefs(targets)
    ensures var next := Flip(memory, [targets[0].ref], Stale);
            forall u :: u in targets[1..] ==>
              && Restorable(next, workspace, u) == Restorable(memory, workspace, u)
              && IsRejected(next, workspace, u) == IsRejected(memory, workspace, u)
  {
    forall u | u in targets[1..] ensures u.ref != targets[0].ref {
      var i :| 1 <= i < |targets| && targets[i] == u;
    }
  }

  lemma StuckLater(
      memory: map<string, Entry>, next: map<string, Entry>, workspace: string,
      targets: seq<TargetState>, k: int, error: ApplyError)
    requires targets != [] && Restorable(memory, workspace, targets[0])
    requires forall u :: u in targets[1..] ==>
               && Restorable(next, workspace, u) == Restorable(memory, workspace, u)
               && IsRejected(next, workspace, u) == IsRejected(memory, workspace, u)
    requires StuckAt(next, workspace, targets[1..], k, error)
    ensures StuckAt(memory, workspace, targets, k + 1, error)
  {
    hide Restorable, IsRejected;
    var rest := targets[1..];
    assert targets[k + 1] == rest[k] && rest[k] in rest;
    forall j | 0 <= j < k + 1 ensures Restorable(memory, workspace, targets[j]) {
      if j > 0 { assert targets[j] == rest[j - 1] && rest[j - 1] in rest; }
    }
  }

  // On tables that runs leave: a verified application is reverted, and every other one is
  // refused; the targets become stale again and the application is marked, nothing more.
  lemma RevertDecides(cfg: Config, s: State, id: string, workspace: string, signed: bool)
    requires Inv(cfg, s)
    ensures RevertGuard(cfg, s, id, workspace) ==
              if id !in s.applications || s.applications[id].workspace != workspace then Some(ApplicationNotFound)
              else if s.applications[id].status != Verified then Some(NotVerified)
              else None
    ensures var n := Next(cfg, s, Revert(id, workspace, signed));
            if signed && id in s.applications && s.applications[id].workspace == workspace
               && s.applications[id].status == Verified
            then
              && n.memory.Keys == s.memory.Keys
              && (forall ref :: ref in s.memory ==>
                   n.memory[ref] == if exists t :: t in s.applications[id].targets && t.ref == ref
                                    then s.memory[ref].(status := Stale) else s.memory[ref])
              && n.applications == s.applications[id := s.applications[id].(status := Reverted)]
              && n.proposals == s.proposals && n.paused == s.paused
            else n == s
  {
    if id in s.applications && s.applications[id].workspace == workspace {
      assert ApplicationOk(cfg, s, id);
      if s.applications[id].status == Verified {
        VerifiedCanBeReverted(cfg, s, id);
        RefsAreNames(s, id);
      }
    }
    hide Inv, TargetsGuard, RefsOfTargets, ApplicationOk;
  }

  // ---- Everything else -----------------------------------------------------

  // Entries and proposals are inserted once, a proposal moves along its lifecycle only, and a
  // pause names one workspace.
  lemma OthersSay(
      cfg: Config, s: State, id: string, entry: Entry, p: Proposal, status: ProposalStatus, on: bool)
    ensures Next(cfg, s, SaveEntry(id, entry)) ==
              State(if id in s.memory then s.memory else s.memory[id := entry],
                    s.proposals, s.applications, s.paused)
    ensures Next(cfg, s, Propose(id, p)) ==
              State(s.memory,
                    if id in s.proposals || p.status in {Applied, Acknowledged, Withdrawn} then s.proposals
                    else s.proposals[id := p],
                    s.applications, s.paused)
    ensures Next(cfg, s, Decide(id, status)) ==
              State(s.memory,
                    if id in s.proposals
                       && (s.proposals[id].status, status) in
                            {(Open, Approved), (Open, Refused), (Approved, Applied),
                             (Approved, Acknowledged), (Acknowledged, Withdrawn)}
                    then s.proposals[id := s.proposals[id].(status := status)] else s.proposals,
                    s.applications, s.paused)
    ensures var n := Next(cfg, s, SetPaused(id, on));
            && n == State(s.memory, s.proposals, s.applications, n.paused)
            && forall w :: w in n.paused <==> if w == id then on else w in s.paused
  {
  }
}
