// Where a recorded "blocked" or "failed" does not tell whether the provider ran: runs that
// show it, and the exact conditions under which it does.

module GatewayLimits {
  import opened GatewayDecision
  import opened GatewayGuarantees
  import opened GatewayProtocol
  import opened GatewayTables
  import opened Prelude
  import opened RunStates

  // ---- A result does not close a call by itself ----------------------------

  // A thread that found no result and can still enter the provider.
  ghost predicate PastCheck(s: State, t: nat, callId: string) {
    && t in s.threads && s.threads[t].e.call.id == callId
    && (|| s.threads[t].pc.Started?
        || (s.threads[t].pc.ResultChecked? && EffectOf(s.threads[t].e.call) !in s.db.effects))
  }

  ghost predicate EntersBy(cfg: nat -> Config, s: State, steps: seq<Step>, callId: string) {
    After(cfg, s, steps).Some? && Entered(After(cfg, s, steps).value.entered, callId)
  }

  // The call was never entered and no thread can enter it.
  ghost predicate Closed(s: State, callId: string) {
    callId in s.db.results && !Entered(s.entered, callId) && forall t :: !PastCheck(s, t, callId)
  }

  // The thread a step moves, if it moves one.
  function Mover(step: Step): Option<nat> {
    match step
    case CheckRun(t) => Some(t)
    case CheckResult(t) => Some(t)
    case EnsureEffect(t) => Some(t)
    case Enter(t) => Some(t)
    case Settle(t, _, _) => Some(t)
    case Cleanup(t) => Some(t)
    case JoinReturn(t) => Some(t)
    case FailRead(t) => Some(t)
    case FailWrite(t) => Some(t)
    case _ => None
  }

  // Where a moved thread arrives: past the check only from a check that found no result.
  ghost predicate MovesTo(s: State, n: State, step: Step, t: nat) {
    && t in s.threads && t in n.threads
    && n.threads == s.threads[t := s.threads[t].(pc := n.threads[t].pc)]
    && (n.threads[t].pc.ResultChecked? ==> step.CheckResult? && s.threads[t].e.call.id !in s.db.results)
    && (n.threads[t].pc.Started? ==>
         step.EnsureEffect? && s.threads[t].pc.ResultChecked?
         && EffectOf(s.threads[t].e.call) !in s.db.effects)
    && (s.threads[t].pc.Started? ==> step.Enter?)
    && (step.Enter? ==>
         s.threads[t].pc.Started? && n.entered == s.entered + [Entry(t, s.threads[t].e, s.threads[t].clear)])
    && (!step.Enter? ==> n.entered == s.entered)
    && (!step.EnsureEffect? ==> n.db.effects == s.db.effects)
    && (step.EnsureEffect? && n.db.effects != s.db.effects ==>
         n.threads[t].pc.Started? && n.db.effects == s.db.effects + {EffectOf(s.threads[t].e.call)})
  }

  lemma ThreadMoves(cfg: nat -> Config, s: State, step: Step)
    requires Next(cfg, s, step).Some? && Mover(step).Some?
    ensures MovesTo(s, Next(cfg, s, step).value, step, Mover(step).value)
  {
    if step.Settle? || step.FailWrite? {
      RecordingMoves(cfg, s, step);
    } else if step.EnsureEffect? || step.CheckResult? {
      CheckingMoves(cfg, s, step);
    } else {
      hide RecordStep, EnsureEffectStep, CheckResultStep;
    }
  }

  lemma CheckingMoves(cfg: nat -> Config, s: State, step: Step)
    requires Next(cfg, s, step).Some? && (step.EnsureEffect? || step.CheckResult?)
    ensures MovesTo(s, Next(cfg, s, step).value, step, step.t)
  {
    hide RecordStep, FailReadStep, CleanupStep, CheckRunStep;
  }

  lemma RecordingMoves(cfg: nat -> Config, s: State, step: Step)
    requires Next(cfg, s, step).Some? && (step.Settle? || step.FailWrite?)
    ensures MovesTo(s, Next(cfg, s, step).value, step, step.t)
  {
    hide EnsureEffectStep, CheckResultStep, FailReadStep, CleanupStep, CheckRunStep;
  }

  // Steps of the surroundings enter nothing, start nothing and leave threads where they were.
  lemma OthersStay(cfg: nat -> Config, s: State, step: Step)
    requires Inv(s) && Next(cfg, s, step).Some? && Mover(step).None?
    ensures var n := Next(cfg, s, step).value;
            && n.entered == s.entered && n.db.effects == s.db.effects
            && (forall t :: t in n.threads && !n.threads[t].pc.Ready? ==>
                 t in s.threads && n.threads[t] == s.threads[t])
            && (!step.Crash? ==>
                 forall t :: t in s.threads ==> t in n.threads && n.threads[t] == s.threads[t])
  {
    if step.Invoke? {
      InvokeStays(cfg(step.registry), s, step.process, step.registry, step.call);
    } else {
      hide Inv, OnlyGrows;
    }
  }

  lemma InvokeStays(cfg: Config, s: State, p: nat, g: nat, call: Call)
    requires Inv(s)
    ensures var n := OpenStep(cfg, s, p, g, call);
            && n.entered == s.entered && n.db.effects == s.db.effects
            && (forall t :: t in n.threads && !n.threads[t].pc.Ready? ==>
                 t in s.threads && n.threads[t] == s.threads[t])
            && (forall t :: t in s.threads ==> t in n.threads && n.threads[t] == s.threads[t])
  {
    InvIsConsistent(s);
    NextIsNew(s);
    hide Inv, Consistent, Extends, Licensed, InvokeTx;
    InvokeIsSound(cfg, s.db, call);
  }

  lemma NextIsNew(s: State)
    requires Inv(s)
    ensures s.next !in s.threads
  {
    assert ThreadOk(s, s.next);
  }

  lemma StepKeepsClosed(cfg: nat -> Config, s: State, step: Step, callId: string)
    requires Inv(s) && Closed(s, callId) && Next(cfg, s, step).Some?
    ensures Closed(Next(cfg, s, step).value, callId)
  {
    var n := Next(cfg, s, step).value;
    StepExtends(cfg, s, step);
    ResultsStay(s.db, n.db);
    hide Extends;
    if Mover(step).None? {
      OthersStay(cfg, s, step);
      hide Inv, Next, Entered;
      forall t ensures !PastCheck(n, t, callId) { assert !PastCheck(s, t, callId); }
    } else {
      ThreadMoves(cfg, s, step);
      hide Inv, Next;
      MoveKeepsClosed(s, n, step, Mover(step).value, callId);
    }
  }

  lemma MoveKeepsClosed(s: State, n: State, step: Step, t: nat, callId: string)
    requires MovesTo(s, n, step, t) && Closed(s, callId) && callId in n.db.results
    ensures Closed(n, callId)
  {
    hide Entered;
    assert !PastCheck(s, t, callId);
    EntryOfOther(s.entered, Entry(t, s.threads[t].e, s.threads[t].clear), callId);
    forall u ensures !PastCheck(n, u, callId) { assert !PastCheck(s, u, callId); }
  }

  lemma EntryOfOther(entered: seq<Entry>, x: Entry, callId: string)
    ensures x.e.call.id != callId ==> (Entered(entered + [x], callId) <==> Entered(entered, callId))
  {
    if Entered(entered, callId) {
      var y :| y in entered && y.e.call.id == callId;
      assert y in entered + [x];
    }
  }

  lemma {:induction false} RunKeepsClosed(
      cfg: nat -> Config, s: State, steps: seq<Step>, callId: string)
    requires Inv(s) && Closed(s, callId) && After(cfg, s, steps).Some?
    ensures Closed(After(cfg, s, steps).value, callId)
  {
    hide Inv, Next, Closed;
    if steps != [] {
      var shorter := steps[..|steps| - 1];
      RunKeepsClosed(cfg, s, shorter, callId);
      RunKeeps(cfg, s, shorter);
      StepKeepsClosed(cfg, After(cfg, s, shorter).value, steps[|steps| - 1], callId);
    }
  }

  // Over every interleaving: once a call has a result, its provider has run or may still run
  // exactly when it was entered or some thread is past the check.
  lemma EntersAfterResultIff(cfg: nat -> Config, s: State, callId: string)
    requires Reachable(cfg, s) && callId in s.db.results
    ensures (exists steps :: EntersBy(cfg, s, steps, callId)) <==>
              Entered(s.entered, callId) || exists t :: PastCheck(s, t, callId)
  {
    ReachableIsInv(cfg, s);
    hide Inv, Next, Entered, PastCheck;
    if Entered(s.entered, callId) {
      assert EntersBy(cfg, s, [], callId);
    }
    if t :| PastCheck(s, t, callId) {
      PastCheckEnters(cfg, s, t, callId);
    }
    if !Entered(s.entered, callId) && forall t :: !PastCheck(s, t, callId) {
      forall steps ensures !EntersBy(cfg, s, steps, callId) {
        if After(cfg, s, steps).Some? { RunKeepsClosed(cfg, s, steps, callId); }
      }
    }
  }

  lemma PastCheckEnters(cfg: nat -> Config, s: State, t: nat, callId: string)
    requires PastCheck(s, t, callId)
    ensures exists steps :: EntersBy(cfg, s, steps, callId)
  {
    if s.threads[t].pc.Started? {
      StartedEnters(cfg, s, t);
      assert EntersBy(cfg, s, [Enter(t)], callId);
    } else {
      var n := EnsureEffectStep(s, t);
      StartedEnters(cfg, n, t);
      RunTwo(cfg, s, EnsureEffect(t), Enter(t));
      assert EntersBy(cfg, s, [EnsureEffect(t), Enter(t)], callId);
    }
  }

  lemma StartedEnters(cfg: nat -> Config, s: State, t: nat)
    requires t in s.threads && s.threads[t].pc.Started?
    ensures After(cfg, s, [Enter(t)]) == Next(cfg, s, Enter(t)) == Some(EnterStep(s, t))
    ensures Entered(EnterStep(s, t).entered, s.threads[t].e.call.id)
  {
    var n := EnterStep(s, t);
    assert Entry(t, s.threads[t].e, s.threads[t].clear) in n.entered;
    assert [Enter(t)][..0] == [];
    assert After(cfg, s, []) == Some(s);
  }

  // ---- What the durable effect tells ---------------------------------------

  ghost predicate AboutToEnter(s: State, callId: string) {
    exists t :: t in s.threads && s.threads[t].pc.Started? && s.threads[t].e.call.id == callId
  }

  ghost predicate EffectStarted(s: State, k: EffectKey) {
    k in s.db.effects ==> Entered(s.entered, k.call) || AboutToEnter(s, k.call)
  }

  lemma EffectStartedKept(cfg: nat -> Config, s: State, step: Step, k: EffectKey)
    requires Inv(s) && Next(cfg, s, step).Some? && !step.Crash? && EffectStarted(s, k)
    ensures EffectStarted(Next(cfg, s, step).value, k)
  {
    var n := Next(cfg, s, step).value;
    if Mover(step).None? {
      OthersStay(cfg, s, step);
      hide Inv, Next;
    } else {
      ThreadMoves(cfg, s, step);
      hide Inv, Next;
      MoveKeepsStarted(s, n, step, Mover(step).value, k);
    }
  }

  lemma MoveKeepsStarted(s: State, n: State, step: Step, t: nat, k: EffectKey)
    requires MovesTo(s, n, step, t) && EffectStarted(s, k)
    ensures EffectStarted(n, k)
  {
    EntriesStay(s.entered, n.entered, k.call);
    if step.Enter? {
      assert n.entered[|s.entered|] in n.entered;
    }
    if AboutToEnter(s, k.call) {
      var u :| u in s.threads && s.threads[u].pc.Started? && s.threads[u].e.call.id == k.call;
      assert u != t ==> n.threads[u] == s.threads[u];
    }
  }

  lemma EntriesStay(before: seq<Entry>, after: seq<Entry>, callId: string)
    requires before <= after
    ensures Entered(before, callId) ==> Entered(after, callId)
  {
    if Entered(before, callId) {
      var x :| x in before && x.e.call.id == callId;
      assert x in after;
    }
  }

  lemma {:induction false} EffectsAreStarted(
      cfg: nat -> Config, start: State, steps: seq<Step>, k: EffectKey)
    requires Initial(start) && After(cfg, start, steps).Some?
    requires forall step: Step :: step in steps ==> !step.Crash?
    ensures EffectStarted(After(cfg, start, steps).value, k)
  {
    hide Inv, Next, EffectStarted;
    if steps == [] {
      NoEffectYet(start, k);
    } else {
      var shorter := steps[..|steps| - 1];
      EffectsAreStarted(cfg, start, shorter, k);
      InitialIsInv(start);
      RunKeeps(cfg, start, shorter);
      EffectStartedKept(cfg, After(cfg, start, shorter).value, steps[|steps| - 1], k);
    }
  }

  lemma NoEffectYet(start: State, k: EffectKey)
    requires Initial(start)
    ensures EffectStarted(start, k)
  {
  }

  // Any number of processes, crashes included: what has no effect on record was not entered.
  lemma EnteredHasEffect(s: State, call: Call)
    requires Inv(s) && call.id in s.db.calls && s.db.calls[call.id] == call
    requires Entered(s.entered, call.id) || AboutToEnter(s, call.id)
    ensures EffectOf(call) in s.db.effects
  {
    if Entered(s.entered, call.id) {
      var x :| x in s.entered && x.e.call.id == call.id;
      assert EntryOk(s, x);
    } else {
      var t :| t in s.threads && s.threads[t].pc.Started? && s.threads[t].e.call.id == call.id;
      assert ThreadOk(s, t);
    }
  }

  ghost predicate ReachableUncrashed(cfg: nat -> Config, s: State) {
    exists start, steps: seq<Step> :: Initial(start) && After(cfg, start, steps) == Some(s)
      && forall step: Step :: step in steps ==> !step.Crash?
  }

  // Any number of processes that do not crash: the effect is on record exactly when the
  // provider was entered or its thread is about to enter it.
  lemma EffectIffStarted(cfg: nat -> Config, s: State, callId: string)
    requires ReachableUncrashed(cfg, s) && callId in s.db.calls
    ensures EffectOf(s.db.calls[callId]) in s.db.effects <==>
              Entered(s.entered, callId) || AboutToEnter(s, callId)
  {
    var start, steps :| Initial(start) && After(cfg, start, steps) == Some(s)
      && forall step: Step :: step in steps ==> !step.Crash?;
    InitialIsInv(start);
    RunKeeps(cfg, start, steps);
    assert CallIndexed(s.db, callId);
    hide Next, Entered, AboutToEnter;
    EffectsAreStarted(cfg, start, steps, EffectOf(s.db.calls[callId]));
    if Entered(s.entered, callId) || AboutToEnter(s, callId) {
      EnteredHasEffect(s, s.db.calls[callId]);
    }
  }

  // ---- One process that does not crash -------------------------------------

  ghost predicate ReachableAlone(cfg: nat -> Config, p: nat, s: State) {
    exists start, steps: seq<Step> :: Initial(start) && After(cfg, start, steps) == Some(s)
      && forall step :: step in steps ==> OneProcess(step, p)
  }

  lemma AloneIsInv(cfg: nat -> Config, p: nat, s: State)
    requires ReachableAlone(cfg, p, s)
    ensures Inv(s) && Alone(s, p) && ReachableUncrashed(cfg, s)
  {
    var start, steps :| Initial(start) && After(cfg, start, steps) == Some(s)
      && forall step :: step in steps ==> OneProcess(step, p);
    OneProcessNeverFailsARetry(cfg, start, steps, p);
  }

  lemma AloneReaches(cfg: nat -> Config, p: nat, s: State, step: Step, n: State)
    requires ReachableAlone(cfg, p, s) && OneProcess(step, p) && Next(cfg, s, step) == Some(n)
    ensures ReachableAlone(cfg, p, n)
  {
    var start, steps :| Initial(start) && After(cfg, start, steps) == Some(s)
      && forall step :: step in steps ==> OneProcess(step, p);
    hide Next, Initial, OneProcess;
    RunMore(cfg, start, steps, step);
    assert After(cfg, start, steps + [step]) == Some(n);
  }

  lemma RunMore(cfg: nat -> Config, start: State, steps: seq<Step>, step: Step)
    requires After(cfg, start, steps).Some?
    ensures After(cfg, start, steps + [step]) == Next(cfg, After(cfg, start, steps).value, step)
  {
    hide Next;
    var more := steps + [step];
    assert more[..|more| - 1] == steps;
  }

  // Between invocations the effect is on record exactly when the provider was entered.
  lemma EffectIffEntered(cfg: nat -> Config, p: nat, s: State, callId: string)
    requires ReachableAlone(cfg, p, s) && p !in s.busy && callId in s.db.calls
    ensures EffectOf(s.db.calls[callId]) in s.db.effects <==> Entered(s.entered, callId)
  {
    AloneIsInv(cfg, p, s);
    EffectIffStarted(cfg, s, callId);
    if AboutToEnter(s, callId) {
      var t :| t in s.threads && s.threads[t].pc.Started? && s.threads[t].e.call.id == callId;
      LoopHolderIsBusy(s, p, t);
    }
  }

  // A stored result means no thread is past the check, so whether the provider ran is settled.
  lemma ResultSettlesEntry(s: State, p: nat, callId: string)
    requires Inv(s) && Alone(s, p) && callId in s.db.results && !Entered(s.entered, callId)
    ensures Closed(s, callId) && !AboutToEnter(s, callId)
  {
    forall t ensures !PastCheck(s, t, callId) { assert AloneThread(s, p, t); }
    forall t | t in s.threads && s.threads[t].pc.Started? ensures s.threads[t].e.call.id != callId {
      assert AloneThread(s, p, t);
    }
  }

  // A call with a result was entered exactly when its effect is on record, and nothing later
  // changes that, even steps of other processes.
  lemma ResultRanIff(cfg: nat -> Config, p: nat, s: State, callId: string, later: seq<Step>)
    requires ReachableAlone(cfg, p, s) && callId in s.db.results && After(cfg, s, later).Some?
    ensures callId in s.db.calls
    ensures Entered(After(cfg, s, later).value.entered, callId) <==>
              EffectOf(s.db.calls[callId]) in s.db.effects
  {
    AloneIsInv(cfg, p, s);
    assert DecisionBacked(s.db, callId);
    EffectIffStarted(cfg, s, callId);
    RecordsAreFinal(cfg, s, later);
    hide Next, Inv, Alone, Entered, Extends;
    if Entered(s.entered, callId) {
      EntriesStay(s.entered, After(cfg, s, later).value.entered, callId);
    } else {
      ResultSettlesEntry(s, p, callId);
      RunKeepsClosed(cfg, s, later, callId);
    }
  }

  // A replay that records "blocked": the provider ran exactly when the effect was on record
  // before the replay, and otherwise it never will.
  lemma BlockedRanIff(
      cfg: nat -> Config, p: nat, g: nat, s: State, call: Call, b: State, later: seq<Step>)
    requires ReachableAlone(cfg, p, s) && call.id !in s.db.results
    requires Next(cfg, s, Invoke(p, g, call)) == Some(b)
    requires call.id in b.db.results && b.db.results[call.id].status == Blocked
    requires After(cfg, b, later).Some?
    ensures var f := After(cfg, b, later).value;
            && call.id in f.db.results && f.db.results[call.id].status == Blocked
            && (Entered(f.entered, call.id) <==> EffectOf(call) in s.db.effects)
  {
    AloneIsInv(cfg, p, s);
    AloneReaches(cfg, p, s, Invoke(p, g, call), b);
    AloneIsInv(cfg, p, b);
    ReplayStores(cfg, s, p, g, call, b);
    hide Next, Inv, Alone, ReachableAlone, ReachableUncrashed, Entered, Extends;
    RecordsAreFinal(cfg, b, later);
    ResultsStay(b.db, After(cfg, b, later).value.db);
    ResultRanIff(cfg, p, b, call.id, later);
  }

  lemma ReplayStores(cfg: nat -> Config, s: State, p: nat, g: nat, call: Call, b: State)
    requires Inv(s) && call.id !in s.db.results && Next(cfg, s, Invoke(p, g, call)) == Some(b)
    requires call.id in b.db.results
    ensures call.id in b.db.calls && b.db.calls[call.id] == call && b.db.effects == s.db.effects
  {
    InvIsConsistent(s);
    hide Inv, Consistent, InvokeTx, Extends, Licensed;
    InvokeIsSound(cfg(g), s.db, call);
  }

  // ---- Steps that record over a running provider ---------------------------

  // A grant suspended while its provider runs: replaying the call records "blocked" over the
  // running execution, whose own outcome is then refused.
  lemma SuspensionBlocksOverRunningProvider(
      cfg: nat -> Config, s: State, t: nat, p: nat, g: nat, status: CallStatus, output: string)
    requires Inv(s) && t in s.threads && s.threads[t].pc.Executing? && p !in s.busy
    requires s.threads[t].process !in s.busy
    requires var e := s.threads[t].e;
             && e.call.id !in s.db.results && GrantOf(e.call) in s.db.facts.suspended
             && cfg(g).acceptable(e.call, e.capability)
    ensures var call := s.threads[t].e.call;
            var after := After(cfg, s, [Invoke(p, g, call), Settle(t, status, output)]);
            && after.Some? && Entered(after.value.entered, call.id)
            && call.id in after.value.db.results
            && after.value.db.results[call.id] == CallResult(Blocked, GrantSuspended, "")
            && after.value.threads[t].pc == Settled(Throws)
  {
    var e := s.threads[t].e;
    ReplayIsBlocked(cfg, s, t, p, g);
    ExecutingWasEntered(s, t);
    SettleIsRefused(cfg, Blocking(s, e.call.id), t, status, output);
    hide Inv, Next, Entered;
    RunTwo(cfg, s, Invoke(p, g, e.call), Settle(t, status, output));
  }

  lemma SettleIsRefused(cfg: nat -> Config, s: State, t: nat, status: CallStatus, output: string)
    requires t in s.threads && s.threads[t].pc.Executing? && s.threads[t].process !in s.busy
    requires s.threads[t].e.call.id in s.db.results
    ensures Next(cfg, s, Settle(t, status, output)) == Some(Move(s, t, Settled(Throws)))
  {
  }

  function Blocking(s: State, callId: string): State {
    s.(db := s.db.(results := s.db.results[callId := CallResult(Blocked, GrantSuspended, "")]))
  }

  lemma RunTwo(cfg: nat -> Config, s: State, first: Step, second: Step)
    ensures After(cfg, s, [first, second]) ==
      (var n := Next(cfg, s, first); if n.None? then None else Next(cfg, n.value, second))
  {
    hide Next;
    assert [first, second][..1] == [first];
    assert After(cfg, s, [first][..0]) == Some(s);
    assert After(cfg, s, [first]) == Next(cfg, s, first);
  }

  // Replaying what some thread was sent to execute.
  lemma ReplayIsBlocked(cfg: nat -> Config, s: State, t: nat, p: nat, g: nat)
    requires Inv(s) && t in s.threads && p !in s.busy
    requires var e := s.threads[t].e;
             && e.call.id !in s.db.results && GrantOf(e.call) in s.db.facts.suspended
             && cfg(g).acceptable(e.call, e.capability)
    ensures Next(cfg, s, Invoke(p, g, s.threads[t].e.call)) == Some(Blocking(s, s.threads[t].e.call.id))
  {
    assert ThreadOk(s, t);
    hide Inv, Consistent, Licensed, InvokeTx;
    LicensedReplayIsBlocked(cfg(g), s, t);
  }

  lemma LicensedReplayIsBlocked(cfg: Config, s: State, t: nat)
    requires t in s.threads && Licensed(s.db, s.threads[t].e) && Consistent(s.db)
    requires var e := s.threads[t].e;
             && e.call.id !in s.db.results && GrantOf(e.call) in s.db.facts.suspended
             && cfg.acceptable(e.call, e.capability)
    ensures var r := InvokeTx(cfg, s.db, s.threads[t].e.call);
            r.Answered? && r.db == Blocking(s, s.threads[t].e.call.id).db
  {
    var e := s.threads[t].e;
    assert CallIndexed(s.db, e.call.id);
    var found := FindForTarget(s.db, e.call.workspace, e.call.id);
    if found.Some? {
      assert ApprovalBacked(s.db, found.value);
      assert ApprovalsApart(s.db, found.value, e.approvalId.value);
    }
  }

  lemma ExecutingWasEntered(s: State, t: nat)
    requires Inv(s) && t in s.threads && s.threads[t].pc.Executing?
    ensures Entered(s.entered, s.threads[t].e.call.id)
    ensures EffectOf(s.threads[t].e.call) in s.db.effects
  {
    assert ThreadOk(s, t);
    assert EntryOk(s, Entry(t, s.threads[t].e, s.threads[t].clear));
  }
}
