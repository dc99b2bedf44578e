// What the gateway's protocol guarantees over every interleaving, and what one process that
// does not crash adds.

module GatewayGuarantees {
  import opened GatewayDecision
  import opened GatewayProtocol
  import opened GatewayTables
  import opened Prelude
  import opened RunStates

  // ---- What every interleaving guarantees ----------------------------------

  // The provider is entered at most once per call and per idempotency key.
  lemma EnteredAtMostOnce(cfg: nat -> Config, s: State, i: nat, j: nat)
    requires Reachable(cfg, s) && i < j < |s.entered|
    ensures s.entered[i].e.call.id != s.entered[j].e.call.id
    ensures KeyOf(s.entered[i].e.call) != KeyOf(s.entered[j].e.call)
  {
    ReachableIsInv(cfg, s);
    var a, b := s.entered[i], s.entered[j];
    assert EntryOk(s, a) && EntryOk(s, b);
    assert CallIndexed(s.db, a.e.call.id) && CallIndexed(s.db, b.e.call.id);
  }

  // Whenever it is entered, the recorded decision allows the call or an approved approval
  // does, the task envelope covers it, and no suspension was active when that was decided.
  lemma EntryIsLicensed(cfg: nat -> Config, s: State, x: Entry)
    requires Reachable(cfg, s) && x in s.entered
    ensures x.clear && Licensed(s.db, x.e)
  {
    ReachableIsInv(cfg, s);
    assert EntryOk(s, x);
  }

  ghost predicate Refused(db: Db, callId: string) {
    && callId in db.calls && callId in db.decisions
    && (|| db.decisions[callId].outcome == Outcome.Block
        || exists a :: a in db.approvals && db.approvals[a].status == Rejected
             && Targets(db.approvals[a], db.calls[callId].workspace, callId))
  }

  // A call with a recorded block or a rejected approval was not and will not be executed.
  lemma RefusedIsNeverEntered(cfg: nat -> Config, s: State, callId: string)
    requires Reachable(cfg, s) && Refused(s.db, callId)
    ensures !Entered(s.entered, callId)
  {
    ReachableIsInv(cfg, s);
    forall x | x in s.entered ensures x.e.call.id != callId {
      assert EntryOk(s, x);
      if s.db.decisions[callId].outcome != Outcome.Block {
        var a :| a in s.db.approvals && s.db.approvals[a].status == Rejected
          && Targets(s.db.approvals[a], s.db.calls[callId].workspace, callId);
        assert ApprovalBacked(s.db, a);
        assert x.e.approvalId.Some? ==> ApprovalsApart(s.db, a, x.e.approvalId.value);
      }
    }
  }

  lemma SucceededWasEntered(cfg: nat -> Config, s: State, callId: string)
    requires Reachable(cfg, s) && callId in s.db.results && s.db.results[callId].status == Succeeded
    ensures EnteredOnce(s.entered, callId)
  {
    ReachableIsInv(cfg, s);
    assert ResultOk(s, callId);
    EntryIsUnique(s.entered, callId);
  }

  lemma EntryIsUnique(entered: seq<Entry>, callId: string)
    requires EntriesApart(entered) && Entered(entered, callId)
    ensures EnteredOnce(entered, callId)
  {
    var x :| x in entered && x.e.call.id == callId;
    var k :| 0 <= k < |entered| && entered[k] == x;
  }

  ghost predicate EnteredOnce(entered: seq<Entry>, callId: string) {
    exists k :: 0 <= k < |entered| && entered[k].e.call.id == callId
      && forall j :: 0 <= j < |entered| && entered[j].e.call.id == callId ==> j == k
  }

  // Every invocation of a call that resolves, as executor, joiner or retry, resolves to the
  // one stored result.
  lemma EndingsAgree(cfg: nat -> Config, s: State, t: nat)
    requires Reachable(cfg, s) && t in s.threads && s.threads[t].pc.Ended?
    ensures var ending := s.threads[t].pc.ending;
            ending.Resolves? ==>
              && s.threads[t].e.call.id in s.db.results
              && s.db.results[s.threads[t].e.call.id] == ending.result
  {
    ReachableIsInv(cfg, s);
    assert ThreadOk(s, t);
  }

  // ---- Nothing recorded is ever changed ------------------------------------

  lemma StepExtends(cfg: nat -> Config, s: State, step: Step)
    requires Inv(s) && Next(cfg, s, step).Some?
    ensures Extends(s.db, Next(cfg, s, step).value.db)
    ensures s.entered <= Next(cfg, s, step).value.entered
  {
    assert Consistent(s.db) by { InvIsConsistent(s); }
    hide Inv, Consistent, Extends, OpenStep, RecordStep, Move, OnlyGrows;
    hide CheckRunStep, CheckResultStep, EnterStep, CleanupStep, FailReadStep, CrashStep;
    hide EnsureEffectStep;
    ExtendsItself(s.db);
    match step
    case Invoke(p, g, call) => OpenStepExtends(cfg(g), s, p, g, call);
    case EnsureEffect(t) => EnsureEffectExtends(s, t);
    case Settle(t, status, output) =>
      RecordStepExtends(s, t, CallResult(status, ProviderAnswered, output), x => Settled(x));
    case FailWrite(t) =>
      RecordStepExtends(s, t, FailureFor(s.threads[t].pc.reason), x => Ended(x));
    case Resolve(_, _) => OutsideExtends(cfg, s, step);
    case RequestOther(_, _) => OutsideExtends(cfg, s, step);
    case Outside(_, _, _) => OutsideExtends(cfg, s, step);
    case _ => MemoryStepKeepsDb(cfg, s, step);
  }

  lemma OutsideExtends(cfg: nat -> Config, s: State, step: Step)
    requires Consistent(s.db) && Next(cfg, s, step).Some?
    requires step.Resolve? || step.RequestOther? || step.Outside?
    ensures Extends(s.db, Next(cfg, s, step).value.db)
    ensures Next(cfg, s, step).value.entered == s.entered
  {
    hide Consistent, Extends;
    match step
    case Resolve(a, verdict) => ResolveKeeps(s.db, a, verdict);
    case RequestOther(a, row) => RequestOtherKeeps(s.db, a, row);
    case Outside(facts, runs, capabilities) => OutsideKeeps(s.db, facts, runs, capabilities);
  }

  // Steps that only read the database.
  lemma MemoryStepKeepsDb(cfg: nat -> Config, s: State, step: Step)
    requires Next(cfg, s, step).Some?
    requires || step.CheckRun? || step.CheckResult? || step.Enter? || step.Cleanup?
             || step.JoinReturn? || step.FailRead? || step.Crash?
    ensures Next(cfg, s, step).value.db == s.db
    ensures s.entered <= Next(cfg, s, step).value.entered
  {
  }

  lemma EnsureEffectExtends(s: State, t: nat)
    requires t in s.threads
    ensures Extends(s.db, EnsureEffectStep(s, t).db)
    ensures EnsureEffectStep(s, t).entered == s.entered
  {
  }

  lemma RecordStepExtends(s: State, t: nat, result: CallResult, done: Ending -> Pc)
    requires t in s.threads
    ensures Extends(s.db, RecordStep(s, t, result, done).db)
    ensures RecordStep(s, t, result, done).entered == s.entered
  {
  }

  lemma OpenStepExtends(cfg: Config, s: State, p: nat, g: nat, call: Call)
    requires Consistent(s.db)
    ensures Extends(s.db, OpenStep(cfg, s, p, g, call).db)
    ensures OpenStep(cfg, s, p, g, call).entered == s.entered
  {
    hide Consistent, InvokeTx, Extends;
    ExtendsItself(s.db);
    InvokeIsSound(cfg, s.db, call);
  }

  lemma {:induction false} RecordsAreFinal(cfg: nat -> Config, s: State, steps: seq<Step>)
    requires Inv(s) && After(cfg, s, steps).Some?
    ensures Extends(s.db, After(cfg, s, steps).value.db)
    ensures s.entered <= After(cfg, s, steps).value.entered
  {
    hide Inv, Next, Extends;
    if steps == [] {
      ExtendsItself(s.db);
    } else {
      var before := After(cfg, s, steps[..|steps| - 1]).value;
      RecordsAreFinal(cfg, s, steps[..|steps| - 1]);
      RunKeeps(cfg, s, steps[..|steps| - 1]);
      StepExtends(cfg, before, steps[|steps| - 1]);
      ExtendsIsTransitive(s.db, before.db, After(cfg, s, steps).value.db);
    }
  }

  lemma ExtendsItself(db: Db)
    ensures Extends(db, db)
  {
  }

  // ---- One process that does not crash -------------------------------------

  ghost predicate AloneThread(s: State, p: nat, t: nat) {
    t in s.threads ==>
      && s.threads[t].process == p
      && (s.threads[t].pc.ResultChecked? || s.threads[t].pc.Started? ==>
           s.threads[t].e.call.id !in s.db.results)
      && s.threads[t].pc != FailReading(AlreadyStarted)
      && s.threads[t].pc != FailWriting(AlreadyStarted)
  }

  // An effect without a result is in flight, or about to be.
  ghost predicate EffectFlies(s: State, p: nat, k: EffectKey) {
    k in s.db.effects ==>
      || k.call in s.db.results
      || Flight(p, k.call) in s.inflight
      || (&& p in s.busy && s.busy[p] in s.threads && s.threads[s.busy[p]].pc.Started?
          && s.threads[s.busy[p]].e.call.id == k.call)
  }

  ghost predicate NotAlreadyStarted(s: State, id: string) {
    id in s.db.results ==>
      s.db.results[id].status != Unsuccessful || s.db.results[id].reason != AlreadyStarted
  }

  ghost predicate Alone(s: State, p: nat) {
    && (forall t :: AloneThread(s, p, t))
    && (forall k :: EffectFlies(s, p, k))
    && (forall id :: NotAlreadyStarted(s, id))
  }

  predicate OneProcess(step: Step, p: nat) {
    !step.Crash? && (step.Invoke? ==> step.process == p)
  }

  // So a retry that finds the effect always finds the flight, and joins it.
  lemma RetryJoins(s: State, p: nat, t: nat)
    requires Inv(s) && Alone(s, p) && t in s.threads && s.threads[t].pc.ResultChecked?
    requires EffectOf(s.threads[t].e.call) in s.db.effects
    ensures Flight(p, s.threads[t].e.call.id) in s.inflight
    ensures EnsureEffectStep(s, t).threads[t].pc ==
              Joined(s.inflight[Flight(p, s.threads[t].e.call.id)])
  {
    assert AloneThread(s, p, t) && ThreadOk(s, t);
    assert EffectFlies(s, p, EffectOf(s.threads[t].e.call));
  }

  lemma LoopHolderIsBusy(s: State, p: nat, t: nat)
    requires Inv(s) && Alone(s, p) && t in s.threads && HoldsLoop(s.threads[t].pc)
    ensures p in s.busy && s.busy[p] == t
  {
    assert ThreadOk(s, t) && AloneThread(s, p, t);
  }

  // New results while nothing holds the loop.
  lemma AloneDb(s: State, p: nat, after: Db)
    requires Inv(s) && Alone(s, p) && Extends(s.db, after) && after.effects == s.db.effects
    requires p !in s.busy || after.results == s.db.results
    requires forall id :: NotAlreadyStarted(s.(db := after), id)
    ensures Alone(s.(db := after), p)
  {
    hide Extends, Consistent;
    var n := s.(db := after);
    forall t ensures AloneThread(n, p, t) {
      assert AloneThread(s, p, t) && ThreadOk(s, t);
    }
    ResultsStay(s.db, after);
    forall k ensures EffectFlies(n, p, k) { assert EffectFlies(s, p, k); }
  }

  lemma ResultsStay(before: Db, after: Db)
    requires Extends(before, after)
    ensures forall id :: id in before.results ==>
      id in after.results && after.results[id] == before.results[id]
  {
  }

  lemma AloneMove(s: State, p: nat, t: nat, pc: Pc)
    requires Inv(s) && Alone(s, p) && t in s.threads
    requires var old_ := s.threads[t].pc; !old_.Started? && !old_.Executing? && !old_.Settled?
    requires !pc.Started? && pc != FailReading(AlreadyStarted) && pc != FailWriting(AlreadyStarted)
    requires pc.ResultChecked? ==> s.threads[t].e.call.id !in s.db.results
    ensures Alone(Move(s, t, pc), p)
  {
    hide Consistent, Licensed, Entered;
    var n := Move(s, t, pc);
    assert ThreadOk(s, t) && AloneThread(s, p, t);
    forall u ensures AloneThread(n, p, u) { assert AloneThread(s, p, u); }
    forall k ensures EffectFlies(n, p, k) { assert EffectFlies(s, p, k); }
    forall id ensures NotAlreadyStarted(n, id) { assert NotAlreadyStarted(s, id); }
  }

  lemma AloneEnsureEffect(s: State, p: nat, t: nat)
    requires Inv(s) && Alone(s, p) && t in s.threads && s.threads[t].pc.ResultChecked?
    ensures Alone(EnsureEffectStep(s, t), p)
  {
    hide Consistent, Licensed, Entered;
    var th := s.threads[t];
    assert AloneThread(s, p, t);
    LoopHolderIsBusy(s, p, t);
    if EffectOf(th.e.call) in s.db.effects {
      RetryJoins(s, p, t);
      AloneMove(s, p, t, Joined(s.inflight[Flight(p, th.e.call.id)]));
    } else {
      var n := EnsureEffectStep(s, t);
      forall u ensures AloneThread(n, p, u) { assert AloneThread(s, p, u); }
      forall k ensures EffectFlies(n, p, k) { assert EffectFlies(s, p, k); }
      forall id ensures NotAlreadyStarted(n, id) { assert NotAlreadyStarted(s, id); }
    }
  }

  lemma AloneEnter(s: State, p: nat, t: nat)
    requires Inv(s) && Alone(s, p) && t in s.threads && s.threads[t].pc.Started?
    ensures Alone(EnterStep(s, t), p)
  {
    hide Consistent, Licensed, Entered;
    var n := EnterStep(s, t);
    assert AloneThread(s, p, t);
    LoopHolderIsBusy(s, p, t);
    forall u ensures AloneThread(n, p, u) { assert AloneThread(s, p, u); }
    forall k ensures EffectFlies(n, p, k) { assert EffectFlies(s, p, k); }
    forall id ensures NotAlreadyStarted(n, id) { assert NotAlreadyStarted(s, id); }
  }

  lemma AloneSettle(s: State, p: nat, t: nat, answer: CallResult)
    requires Inv(s) && Alone(s, p) && t in s.threads && s.threads[t].pc.Executing?
    requires p !in s.busy && answer.reason == ProviderAnswered
    ensures Alone(RecordStep(s, t, answer, x => Settled(x)), p)
  {
    hide Consistent, Licensed, Entered;
    var n := RecordStep(s, t, answer, x => Settled(x));
    assert AloneThread(s, p, t);
    forall u ensures AloneThread(n, p, u) { assert AloneThread(s, p, u) && ThreadOk(s, u); }
    forall k ensures EffectFlies(n, p, k) { assert EffectFlies(s, p, k); }
    forall id ensures NotAlreadyStarted(n, id) { assert NotAlreadyStarted(s, id); }
  }

  lemma AloneFailWrite(s: State, p: nat, t: nat, failure: CallResult)
    requires Inv(s) && Alone(s, p) && t in s.threads && s.threads[t].pc.FailWriting?
    requires failure.reason == s.threads[t].pc.reason
    ensures Alone(RecordStep(s, t, failure, x => Ended(x)), p)
  {
    hide Consistent, Licensed, Entered;
    var n := RecordStep(s, t, failure, x => Ended(x));
    assert AloneThread(s, p, t);
    LoopHolderIsBusy(s, p, t);
    forall u ensures AloneThread(n, p, u) { assert AloneThread(s, p, u) && ThreadOk(s, u); }
    forall k ensures EffectFlies(n, p, k) { assert EffectFlies(s, p, k); }
    forall id ensures NotAlreadyStarted(n, id) { assert NotAlreadyStarted(s, id); }
  }

  lemma AloneCleanup(s: State, p: nat, t: nat)
    requires Inv(s) && Alone(s, p) && t in s.threads && s.threads[t].pc.Settled?
    ensures Alone(CleanupStep(s, t), p)
  {
    hide Consistent, Licensed, Entered;
    var n := CleanupStep(s, t);
    assert AloneThread(s, p, t) && ThreadOk(s, t);
    forall u ensures AloneThread(n, p, u) { assert AloneThread(s, p, u); }
    forall k ensures EffectFlies(n, p, k) { assert EffectFlies(s, p, k); }
    forall id ensures NotAlreadyStarted(n, id) { assert NotAlreadyStarted(s, id); }
  }

  lemma AloneOpen(cfg: Config, s: State, p: nat, g: nat, call: Call)
    requires Inv(s) && Alone(s, p) && p !in s.busy
    ensures Alone(OpenStep(cfg, s, p, g, call), p)
  {
    hide Consistent, InvokeTx, Licensed, Extends, Entered;
    InvokeIsSound(cfg, s.db, call);
    var r := InvokeTx(cfg, s.db, call);
    if !r.Thrown? {
      ResultsStay(s.db, r.db);
      forall id ensures NotAlreadyStarted(s.(db := r.db), id) { assert NotAlreadyStarted(s, id); }
      AloneDb(s, p, r.db);
      if r.Execute? {
        var m := s.(db := r.db);
        var n := OpenStep(cfg, s, p, g, call);
        assert ThreadOk(s, s.next);
        forall u ensures AloneThread(n, p, u) { assert AloneThread(m, p, u); }
        forall k ensures EffectFlies(n, p, k) { assert EffectFlies(m, p, k); }
        forall id ensures NotAlreadyStarted(n, id) { assert NotAlreadyStarted(m, id); }
      }
    }
  }

  lemma AloneKept(cfg: nat -> Config, s: State, p: nat, step: Step)
    requires Inv(s) && Alone(s, p) && OneProcess(step, p) && Next(cfg, s, step).Some?
    ensures Alone(Next(cfg, s, step).value, p)
  {
    hide Inv, Alone, OpenStep, RecordStep, Move, EnterStep, CleanupStep;
    hide EnsureEffectStep;
    match step
    case Invoke(_, g, call) => AloneOpen(cfg(g), s, p, g, call);
    case CheckRun(t) =>
      AloneMove(s, p, t, if RunIsExecutable(s.db, s.threads[t].e.call) then RunChecked else Ended(Throws));
    case CheckResult(t) =>
      var call := s.threads[t].e.call;
      AloneMove(s, p, t,
                if call.id in s.db.results then Ended(Resolves(s.db.results[call.id]))
                else if call.provider !in cfg(s.threads[t].registry).providers then FailReading(NoProvider)
                else ResultChecked);
    case EnsureEffect(t) => AloneEnsureEffect(s, p, t);
    case Enter(t) => AloneEnter(s, p, t);
    case Settle(t, status, output) =>
      ProcessIsAlone(s, p, t);
      AloneSettle(s, p, t, CallResult(status, ProviderAnswered, output));
    case Cleanup(t) => AloneCleanup(s, p, t);
    case JoinReturn(t) => AloneMove(s, p, t, Ended(s.threads[s.threads[t].pc.executor].pc.ending));
    case FailRead(t) =>
      ProcessIsAlone(s, p, t);
      var id := s.threads[t].e.call.id;
      AloneMove(s, p, t,
                if id in s.db.results then Ended(Resolves(s.db.results[id]))
                else FailWriting(s.threads[t].pc.reason));
    case FailWrite(t) => AloneFailWrite(s, p, t, FailureFor(s.threads[t].pc.reason));
    case _ => AloneKeptOutside(cfg, s, p, step);
  }

  lemma AloneKeptOutside(cfg: nat -> Config, s: State, p: nat, step: Step)
    requires Inv(s) && Alone(s, p) && Next(cfg, s, step).Some?
    requires step.Resolve? || step.RequestOther? || step.Outside?
    ensures Alone(Next(cfg, s, step).value, p)
  {
    assert Consistent(s.db) by { InvIsConsistent(s); }
    NoneAlreadyStarted(s, p);
    hide Inv, Alone, Consistent, Extends;
    match step
    case Resolve(a, verdict) =>
      ResolveKeeps(s.db, a, verdict);
      AloneDb(s, p, s.db.(approvals := s.db.approvals[a := s.db.approvals[a].(status := verdict)]));
    case RequestOther(a, row) =>
      RequestOtherKeeps(s.db, a, row);
      AloneDb(s, p, s.db.(approvals := s.db.approvals[a := row]));
    case Outside(facts, runs, capabilities) =>
      OutsideKeeps(s.db, facts, runs, capabilities);
      AloneDb(s, p, s.db.(facts := facts, runs := runs, capabilities := capabilities));
  }

  lemma NoneAlreadyStarted(s: State, p: nat)
    requires Alone(s, p)
    ensures forall after: Db | after.results == s.db.results ::
      forall id :: NotAlreadyStarted(s.(db := after), id)
  {
    forall after: Db | after.results == s.db.results
      ensures forall id :: NotAlreadyStarted(s.(db := after), id)
    {
      forall id ensures NotAlreadyStarted(s.(db := after), id) { assert NotAlreadyStarted(s, id); }
    }
  }

  lemma ProcessIsAlone(s: State, p: nat, t: nat)
    requires Alone(s, p) && t in s.threads
    ensures s.threads[t].process == p
    ensures s.threads[t].pc != FailReading(AlreadyStarted)
  {
    assert AloneThread(s, p, t);
  }

  // In one process that does not crash, "already started without a result" is never
  // recorded, and every effect without a result is in flight for retries to join.
  lemma {:induction false} OneProcessNeverFailsARetry(
      cfg: nat -> Config, start: State, steps: seq<Step>, p: nat)
    requires Initial(start) && After(cfg, start, steps).Some?
    requires forall step :: step in steps ==> OneProcess(step, p)
    ensures Inv(After(cfg, start, steps).value) && Alone(After(cfg, start, steps).value, p)
  {
    hide Next, OneProcess;
    if steps == [] {
      InitialIsInv(start);
    } else {
      var shorter := steps[..|steps| - 1];
      OneProcessNeverFailsARetry(cfg, start, shorter, p);
      hide Inv, Alone;
      StepKeeps(cfg, After(cfg, start, shorter).value, steps[|steps| - 1]);
      AloneKept(cfg, After(cfg, start, shorter).value, p, steps[|steps| - 1]);
    }
  }
}
