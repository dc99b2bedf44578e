// Where results come from: what each step of an invocation leaves behind, an invocation from
// its opening to its end, and the one provider answer behind every answered result.

module GatewayAnswers {
  import opened GatewayDecision
  import opened GatewayGuarantees
  import opened GatewayLimits
  import opened GatewayOutcomes
  import opened GatewayProgress
  import opened GatewayProtocol
  import opened GatewayReasons
  import opened GatewayRetries
  import opened GatewayTables
  import opened Prelude
  import opened RunStates

  // ---- The steps of one invocation -----------------------------------------

  // Thread t stands at pc; the event loop of its process is free exactly when `free`.
  function Placed(s: State, t: nat, pc: Pc, free: bool): State
    requires t in s.threads
  {
    s.(threads := s.threads[t := s.threads[t].(pc := pc)],
       busy := if free then s.busy - {s.threads[t].process} else s.busy)
  }

  // Only a running run of the call's workspace lets it go on; otherwise the invocation throws.
  lemma RunIsChecked(cfg: nat -> Config, s: State, t: nat)
    requires t in s.threads && s.threads[t].pc == Ready
    ensures var call := s.threads[t].e.call;
            Next(cfg, s, CheckRun(t)) == Some(
              if call.run in s.db.runs && s.db.runs[call.run] == Run(call.workspace, Running)
              then Placed(s, t, RunChecked, false) else Placed(s, t, Ended(Throws), true))
  {
  }

  // A stored result ends it, a missing provider is to be recorded.
  lemma ResultIsChecked(cfg: nat -> Config, s: State, t: nat)
    requires t in s.threads && s.threads[t].pc == RunChecked
    ensures var call := s.threads[t].e.call;
            Next(cfg, s, CheckResult(t)) == Some(
              if call.id in s.db.results
              then Placed(s, t, Ended(Resolves(s.db.results[call.id])), true)
              else if call.provider !in cfg(s.threads[t].registry).providers
              then Placed(s, t, FailReading(NoProvider), false)
              else Placed(s, t, ResultChecked, false))
  {
  }

  // The first to insert the effect starts; whoever finds it joins its process's flight or is
  // to record that the call was already started.
  lemma EffectIsEnsured(cfg: nat -> Config, s: State, t: nat)
    requires t in s.threads && s.threads[t].pc == ResultChecked
    ensures var call := s.threads[t].e.call;
            var effect := EffectKey(call.run, call.capability, call.id);
            var flight := Flight(s.threads[t].process, call.id);
            Next(cfg, s, EnsureEffect(t)) == Some(
              if effect !in s.db.effects
              then Placed(s, t, Started, false).(db := s.db.(effects := s.db.effects + {effect}))
              else if flight in s.inflight then Placed(s, t, Joined(s.inflight[flight]), true)
              else Placed(s, t, FailReading(AlreadyStarted), false))
  {
  }

  lemma ProviderIsEntered(cfg: nat -> Config, s: State, t: nat)
    requires t in s.threads && s.threads[t].pc == Started
    ensures var th := s.threads[t];
            Next(cfg, s, Enter(t)) == Some(
              Placed(s, t, Executing, true).(
                entered := s.entered + [Entry(t, th.e, th.clear)],
                inflight := s.inflight[Flight(th.process, th.e.call.id) := t]))
  {
  }

  // The provider's outcome is stored as it is given, and nothing else changes; over another
  // result it is refused.
  lemma OutcomeIsStored(cfg: nat -> Config, s: State, t: nat, status: CallStatus, output: string)
    requires t in s.threads && s.threads[t].pc == Executing && s.threads[t].process !in s.busy
    ensures var id := s.threads[t].e.call.id;
            var result := CallResult(status, ProviderAnswered, output);
            Next(cfg, s, Settle(t, status, output)) == Some(
              if id in s.db.results then Placed(s, t, Settled(Throws), false)
              else Placed(s, t, Settled(Resolves(result)), false).(
                     db := s.db.(results := s.db.results[id := result])))
  {
  }

  lemma FlightIsCleared(cfg: nat -> Config, s: State, t: nat, ending: Ending)
    requires t in s.threads && s.threads[t].pc == Settled(ending) && s.threads[t].process !in s.busy
    ensures Next(cfg, s, Cleanup(t)) == Some(
              Placed(s, t, Ended(ending), false).(
                inflight := s.inflight - {Flight(s.threads[t].process, s.threads[t].e.call.id)}))
  {
  }

  // A joiner returns what its executor does, once that is settled.
  lemma JoinerReturns(cfg: nat -> Config, s: State, t: nat, x: nat, ending: Ending)
    requires t in s.threads && s.threads[t].pc == Joined(x) && s.threads[t].process !in s.busy
    requires x in s.threads && (s.threads[x].pc == Settled(ending) || s.threads[x].pc == Ended(ending))
    ensures Next(cfg, s, JoinReturn(t)) == Some(Placed(s, t, Ended(ending), false))
  {
  }

  // A failing invocation reads before it writes, and throws when a result came in between.
  lemma FailureReads(cfg: nat -> Config, s: State, t: nat, reason: Reason)
    requires t in s.threads && s.threads[t].pc == FailReading(reason)
    ensures var id := s.threads[t].e.call.id;
            Next(cfg, s, FailRead(t)) == Some(
              if id in s.db.results then Placed(s, t, Ended(Resolves(s.db.results[id])), true)
              else Placed(s, t, FailWriting(reason), false))
  {
  }

  lemma FailureIsWritten(cfg: nat -> Config, s: State, t: nat, reason: Reason)
    requires t in s.threads && s.threads[t].pc == FailWriting(reason)
    ensures var id := s.threads[t].e.call.id;
            var failure := CallResult(Unsuccessful, reason, "");
            Next(cfg, s, FailWrite(t)) == Some(
              if id in s.db.results then Placed(s, t, Ended(Throws), true)
              else Placed(s, t, Ended(Resolves(failure)), true).(
                     db := s.db.(results := s.db.results[id := failure])))
  {
  }

  // An opening transaction that executes takes the loop with a new thread; one that answers
  // or throws leaves none.
  lemma InvocationOpens(cfg: nat -> Config, s: State, p: nat, g: nat, call: Call)
    requires p !in s.busy
    ensures var clear := Grant(call.workspace, call.requestedBy, call.capability) !in s.db.facts.suspended;
            Next(cfg, s, Invoke(p, g, call)) == Some(
              match InvokeTx(cfg(g), s.db, call)
              case Thrown(_) => s
              case Answered(after, _) => s.(db := after)
              case Execute(after, e) =>
                s.(db := after, threads := s.threads[s.next := Thread(p, g, e, clear, Ready)],
                   next := s.next + 1, busy := s.busy[p := s.next]))
  {
    hide InvokeTx;
  }

  // A pending approval takes the verdict, once.
  lemma ApprovalIsResolved(cfg: nat -> Config, s: State, a: string, verdict: ApprovalStatus)
    ensures Next(cfg, s, Resolve(a, verdict)) ==
              if a in s.db.approvals && s.db.approvals[a].status == Pending
              then Some(s.(db := s.db.(approvals := s.db.approvals[a :=
                     s.db.approvals[a].(status := verdict)])))
              else None
  {
  }

  // A crash drops its process's threads, loop and flights, and nothing that is stored.
  lemma CrashDropsMemory(cfg: nat -> Config, s: State, p: nat)
    ensures var n := Next(cfg, s, Crash(p));
            && n.Some? && n.value.db == s.db && n.value.entered == s.entered && n.value.next == s.next
            && (forall t :: t in n.value.threads <==> t in s.threads && s.threads[t].process != p)
            && (forall t :: t in n.value.threads ==> n.value.threads[t] == s.threads[t])
            && (forall q :: q in n.value.busy <==> q in s.busy && q != p)
            && (forall q :: q in n.value.busy ==> n.value.busy[q] == s.busy[q])
            && (forall f :: f in n.value.inflight <==> f in s.inflight && f.process != p)
            && (forall f :: f in n.value.inflight ==> n.value.inflight[f] == s.inflight[f])
  {
  }

  // ---- An invocation from its opening to its end ---------------------------

  // From the opening to the provider.
  lemma EntersFromReady(cfg: nat -> Config, s: State, t: nat)
    requires t in s.threads && s.threads[t].pc == Ready && s.threads[t].e.call.id !in s.db.results
    requires var call := s.threads[t].e.call;
             && call.run in s.db.runs && s.db.runs[call.run] == Run(call.workspace, Running)
             && call.provider in cfg(s.threads[t].registry).providers
             && EffectKey(call.run, call.capability, call.id) !in s.db.effects
    ensures var th := s.threads[t];
            var call := th.e.call;
            var effect := EffectKey(call.run, call.capability, call.id);
            After(cfg, s, [CheckRun(t), CheckResult(t), EnsureEffect(t), Enter(t)]) == Some(
              s.(threads := s.threads[t := th.(pc := Executing)],
                 busy := s.busy - {th.process},
                 db := s.db.(effects := s.db.effects + {effect}),
                 entered := s.entered + [Entry(t, th.e, th.clear)],
                 inflight := s.inflight[Flight(th.process, call.id) := t]))
  {
    hide Next;
    var th := s.threads[t];
    RunIsChecked(cfg, s, t);
    var s2 := s.(threads := s.threads[t := th.(pc := RunChecked)]);
    ResultIsChecked(cfg, s2, t);
    var s3 := s.(threads := s.threads[t := th.(pc := ResultChecked)]);
    assert s2.threads[t := th.(pc := ResultChecked)] == s3.threads;
    EffectIsEnsured(cfg, s3, t);
    var s4 := s.(threads := s.threads[t := th.(pc := Started)],
                 db := s.db.(effects := s.db.effects + {EffectKey(th.e.call.run, th.e.call.capability, th.e.call.id)}));
    assert s3.threads[t := th.(pc := Started)] == s4.threads;
    ProviderIsEntered(cfg, s4, t);
    assert s4.threads[t := th.(pc := Executing)] == s.threads[t := th.(pc := Executing)];
    RunFour(cfg, s, CheckRun(t), CheckResult(t), EnsureEffect(t), Enter(t));
  }

  // From the provider's answer to the end.
  lemma EndsFromExecuting(cfg: nat -> Config, s: State, t: nat, status: CallStatus, output: string)
    requires t in s.threads && s.threads[t].pc == Executing && s.threads[t].process !in s.busy
    requires s.threads[t].e.call.id !in s.db.results
    ensures var th := s.threads[t];
            var result := CallResult(status, ProviderAnswered, output);
            After(cfg, s, [Settle(t, status, output), Cleanup(t)]) == Some(
              s.(threads := s.threads[t := th.(pc := Ended(Resolves(result)))],
                 db := s.db.(results := s.db.results[th.e.call.id := result]),
                 inflight := s.inflight - {Flight(th.process, th.e.call.id)}))
  {
    var th := s.threads[t];
    var result := CallResult(status, ProviderAnswered, output);
    OutcomeIsStored(cfg, s, t, status, output);
    var m := Placed(s, t, Settled(Resolves(result)), false).(
               db := s.db.(results := s.db.results[th.e.call.id := result]));
    FlightIsCleared(cfg, m, t, Resolves(result));
    hide Next;
    RunTwo(cfg, s, Settle(t, status, output), Cleanup(t));
    assert m.threads[t := th.(pc := Ended(Resolves(result)))] ==
           s.threads[t := th.(pc := Ended(Resolves(result)))];
  }

  lemma RunFour(cfg: nat -> Config, s: State, a: Step, b: Step, c: Step, d: Step)
    ensures After(cfg, s, [a, b, c, d]) ==
              Then(cfg, Then(cfg, Then(cfg, Next(cfg, s, a), b), c), d)
  {
    hide Next;
    assert [a, b, c, d][..3] == [a, b, c];
    assert [a, b, c][..2] == [a, b];
    RunTwo(cfg, s, a, b);
    assert After(cfg, s, [a, b, c]) == Then(cfg, After(cfg, s, [a, b]), c);
  }

  ghost function Then(cfg: nat -> Config, s: Option<State>, step: Step): Option<State> {
    if s.None? then None else Next(cfg, s.value, step)
  }

  // What the opening transaction leaves of the runs, the effects and the call's result.
  lemma OpensToRun(cfg: nat -> Config, s: State, g: nat, call: Call)
    requires Inv(s) && InvokeTx(cfg(g), s.db, call).Execute?
    ensures var r := InvokeTx(cfg(g), s.db, call);
            && r.executable.call == call && r.db.runs == s.db.runs && r.db.effects == s.db.effects
            && call.id !in r.db.results
  {
    InvIsConsistent(s);
    hide Inv;
    InvokeIsSound(cfg(g), s.db, call);
    ExecutingKeepsRuns(cfg(g), s.db, call);
    hide Consistent, InvokeTx, Extends, Licensed;
  }

  lemma ExecutingKeepsRuns(cfg: Config, db: Db, call: Call)
    requires InvokeTx(cfg, db, call).Execute?
    ensures InvokeTx(cfg, db, call).db.runs == db.runs
  {
    hide Continue;
    var recorded := RecordCall(db, call).value;
    ContinuingKeepsRuns(cfg, recorded, call, db.capabilities[CapabilityOf(call)]);
  }

  lemma ContinuingKeepsRuns(cfg: Config, db: Db, call: Call, capability: Capability)
    requires Continue(cfg, db, call, capability).Execute?
    ensures Continue(cfg, db, call, capability).db.runs == db.runs
  {
    hide DecideCall, FindForTarget, RequestApproval, RecordResult;
  }

  // Whenever the opening transaction executes, the run is running, the registry offers the
  // provider and nobody started the call before, the provider is entered once, its outcome
  // becomes the call's result, and the invocation resolves to it.
  lemma InvocationRunsThrough(
      cfg: nat -> Config, s: State, p: nat, g: nat, call: Call, status: CallStatus, output: string)
    requires Inv(s) && p !in s.busy && InvokeTx(cfg(g), s.db, call).Execute?
    requires call.run in s.db.runs && s.db.runs[call.run] == Run(call.workspace, Running)
    requires call.provider in cfg(g).providers
    requires EffectKey(call.run, call.capability, call.id) !in s.db.effects
    ensures var t := s.next;
            var result := CallResult(status, ProviderAnswered, output);
            var end := After(cfg, s, [Invoke(p, g, call)]
                              + [CheckRun(t), CheckResult(t), EnsureEffect(t), Enter(t)]
                              + [Settle(t, status, output), Cleanup(t)]);
            && end.Some? && var n := end.value;
            && t in n.threads && n.threads[t].pc == Ended(Resolves(result))
            && call.id in n.db.results && n.db.results[call.id] == result
            && n.db.effects == s.db.effects + {EffectKey(call.run, call.capability, call.id)}
            && |n.entered| == |s.entered| + 1 && s.entered <= n.entered
            && n.entered[|s.entered|].e.call == call
            && p !in n.busy && Flight(p, call.id) !in n.inflight
  {
    var t := s.next;
    OpensToRun(cfg, s, g, call);
    InvocationOpens(cfg, s, p, g, call);
    hide Inv, InvokeTx, Next;
    var m := Next(cfg, s, Invoke(p, g, call)).value;
    EntersFromReady(cfg, m, t);
    var n := After(cfg, m, [CheckRun(t), CheckResult(t), EnsureEffect(t), Enter(t)]).value;
    EndsFromExecuting(cfg, n, t, status, output);
    assert After(cfg, s, [Invoke(p, g, call)]) == Some(m) by { RunOne(cfg, s, Invoke(p, g, call)); }
    hide After;
    AfterBoth(cfg, s, [Invoke(p, g, call)], [CheckRun(t), CheckResult(t), EnsureEffect(t), Enter(t)]);
    AfterBoth(cfg, s, [Invoke(p, g, call)] + [CheckRun(t), CheckResult(t), EnsureEffect(t), Enter(t)],
              [Settle(t, status, output), Cleanup(t)]);
  }

  lemma RunOne(cfg: nat -> Config, s: State, step: Step)
    ensures After(cfg, s, [step]) == Next(cfg, s, step)
  {
    hide Next;
    assert [step][..0] == [];
    assert After(cfg, s, []) == Some(s);
  }

  // ---- Behind every answered result there is one provider answer -----------

  ghost predicate Unanswered(db: Db) {
    forall id :: id in db.decisions ==> db.decisions[id].reason != ProviderAnswered
  }

  lemma DecisionIsNoAnswer(facts: Facts, providers: map<string, bool>, call: Call, capability: Capability)
    ensures DecideCall(facts, providers, call, capability).reason != ProviderAnswered
  {
    BlockGivesFirstReason(facts, providers, call, capability);
    if DecideCall(facts, providers, call, capability).outcome != Outcome.Block {
      DialGates(facts, providers, call, capability);
    }
  }

  ghost predicate StoresNoAnswer(before: Db, after: Db) {
    && Unanswered(after)
    && forall id :: id in after.results && id !in before.results ==>
         after.results[id].status == Blocked && after.results[id].reason != ProviderAnswered
  }

  lemma ApprovalStoresNoAnswer(cfg: Config, db: Db, call: Call, a: string)
    requires OnRecord(cfg, db, call) && call.id !in db.results && Unanswered(db)
    requires a in db.approvals && db.approvals[a].workspace == call.workspace
    requires db.approvals[a].target == CallTarget(call.id)
    ensures !InvokeTx(cfg, db, call).Thrown? && StoresNoAnswer(db, InvokeTx(cfg, db, call).db)
  {
    ApprovalDecides(cfg, db, call, a);
    hide InvokeTx, OnRecord;
  }

  lemma DecisionStoresNoAnswer(cfg: Config, db: Db, call: Call)
    requires OnRecord(cfg, db, call) && call.id !in db.results && Unanswered(db)
    requires call.id in db.decisions
    requires forall a :: a in db.approvals ==>
      !(db.approvals[a].workspace == call.workspace && db.approvals[a].target == CallTarget(call.id))
    ensures !InvokeTx(cfg, db, call).Thrown? && StoresNoAnswer(db, InvokeTx(cfg, db, call).db)
  {
    DecisionDecides(cfg, db, call);
    hide InvokeTx, OnRecord;
  }

  // What a fresh decision leaves of the decisions and the results.
  lemma FreshTables(cfg: Config, db: Db, call: Call)
    requires OnRecord(cfg, db, call) && call.id !in db.results && call.id !in db.decisions
    requires !InvokeTx(cfg, db, call).Thrown?
    ensures var after := InvokeTx(cfg, db, call).db;
            call.id in after.decisions && after.decisions == db.decisions[call.id := after.decisions[call.id]]
            && after.decisions[call.id].reason != ProviderAnswered
            && (|| after.results == db.results
                || after.results ==
                     db.results[call.id := CallResult(Blocked, after.decisions[call.id].reason, "")])
  {
    DecisionIsNoAnswer(db.facts, cfg.providers, call, CapabilityFor(db, call));
    FreshDecides(cfg, db, call);
    hide InvokeTx, OnRecord, DecideCall;
  }

  lemma FreshStoresNoAnswer(cfg: Config, db: Db, call: Call)
    requires OnRecord(cfg, db, call) && call.id !in db.results && Unanswered(db)
    requires call.id !in db.decisions && !InvokeTx(cfg, db, call).Thrown?
    ensures StoresNoAnswer(db, InvokeTx(cfg, db, call).db)
  {
    hide InvokeTx, OnRecord;
    FreshTables(cfg, db, call);
  }

  lemma RecordedStoresNoAnswer(cfg: Config, db: Db, call: Call)
    requires OnRecord(cfg, db, call) && Unanswered(db) && !InvokeTx(cfg, db, call).Thrown?
    ensures StoresNoAnswer(db, InvokeTx(cfg, db, call).db)
  {
    hide InvokeTx;
    if call.id in db.results {
      FinishedAnswers(cfg, db, call);
    } else if a :| a in db.approvals && db.approvals[a].workspace == call.workspace
                   && db.approvals[a].target == CallTarget(call.id) {
      ApprovalStoresNoAnswer(cfg, db, call, a);
    } else if call.id in db.decisions {
      DecisionStoresNoAnswer(cfg, db, call);
    } else {
      FreshStoresNoAnswer(cfg, db, call);
    }
    hide OnRecord;
  }

  lemma OpeningStoresNoAnswer(cfg: Config, db: Db, call: Call)
    requires Consistent(db) && Unanswered(db) && !InvokeTx(cfg, db, call).Thrown?
    ensures StoresNoAnswer(db, InvokeTx(cfg, db, call).db)
  {
    hide InvokeTx;
    if call.id in db.calls && db.calls[call.id] == call {
      if OnRecord(cfg, db, call) {
        RecordedStoresNoAnswer(cfg, db, call);
      } else {
        RecordedIsRefusedIff(cfg, db, call);
      }
    } else {
      NewCallIsRecordedFirst(cfg, db, call);
      hide Consistent, OnRecord;
      NewCallIsOnRecord(cfg, db, call);
      var recorded := db.(calls := db.calls[call.id := call],
                          callKeys := db.callKeys[CallKey(call.workspace, call.key) := call.id]);
      RecordedStoresNoAnswer(cfg, recorded, call);
    }
  }

  // Failures are recorded for their own two reasons only.
  ghost predicate OwnFailures(s: State) {
    forall t :: t in s.threads && (s.threads[t].pc.FailReading? || s.threads[t].pc.FailWriting?) ==>
      s.threads[t].pc.reason == NoProvider || s.threads[t].pc.reason == AlreadyStarted
  }

  lemma MoveKeepsOwnFailures(cfg: nat -> Config, s: State, step: Step)
    requires OwnFailures(s) && Next(cfg, s, step).Some? && Mover(step).Some?
    ensures OwnFailures(Next(cfg, s, step).value)
  {
    ThreadMoves(cfg, s, step);
    ThreadComesFrom(cfg, s, step);
    hide Next;
  }

  lemma MoveDecidesNothing(cfg: nat -> Config, s: State, step: Step)
    requires Next(cfg, s, step).Some? && Mover(step).Some?
    ensures Next(cfg, s, step).value.db.decisions == s.db.decisions
    ensures !step.Settle? && !step.FailWrite? ==> Next(cfg, s, step).value.db.results == s.db.results
  {
    match step
    case Settle(_, _, _) => RecordingDecidesNothing(cfg, s, step); hide Next;
    case FailWrite(_) => RecordingDecidesNothing(cfg, s, step); hide Next;
    case EnsureEffect(_) => hide RecordStep;
    case _ => MemoryStepKeepsDb(cfg, s, step); hide Next;
  }

  lemma RecordingDecidesNothing(cfg: nat -> Config, s: State, step: Step)
    requires Next(cfg, s, step).Some? && (step.Settle? || step.FailWrite?)
    ensures Next(cfg, s, step).value.db.decisions == s.db.decisions
  {
    hide EnterStep, CleanupStep, FailReadStep, CheckRunStep, CheckResultStep, EnsureEffectStep;
  }

  ghost predicate NoFalseAnswers(s: State) {
    Unanswered(s.db) && OwnFailures(s)
  }

  lemma OthersKeepNoFalseAnswers(cfg: nat -> Config, s: State, step: Step)
    requires Inv(s) && NoFalseAnswers(s) && Next(cfg, s, step).Some? && Mover(step).None?
    ensures NoFalseAnswers(Next(cfg, s, step).value)
    ensures StoresNoAnswer(s.db, Next(cfg, s, step).value.db)
  {
    OthersStay(cfg, s, step);
    if step.Invoke? {
      InvIsConsistent(s);
      hide Inv, InvokeTx;
      InvocationOpens(cfg, s, step.process, step.registry, step.call);
      if !InvokeTx(cfg(step.registry), s.db, step.call).Thrown? {
        OpeningStoresNoAnswer(cfg(step.registry), s.db, step.call);
      }
      hide Next, Consistent;
    } else {
      hide Inv, OnlyGrows;
    }
  }

  lemma {:induction false} RunsHaveNoFalseAnswers(cfg: nat -> Config, start: State, steps: seq<Step>)
    requires Initial(start) && After(cfg, start, steps).Some?
    ensures Inv(After(cfg, start, steps).value) && NoFalseAnswers(After(cfg, start, steps).value)
  {
    hide Inv, Next, NoFalseAnswers;
    if steps == [] {
      InitialIsInv(start);
      NoAnswersYet(start);
    } else {
      var shorter, step := steps[..|steps| - 1], steps[|steps| - 1];
      var s := After(cfg, start, shorter).value;
      RunsHaveNoFalseAnswers(cfg, start, shorter);
      StepKeeps(cfg, s, step);
      if Mover(step).None? {
        OthersKeepNoFalseAnswers(cfg, s, step);
      } else {
        MoveKeepsNoFalseAnswers(cfg, s, step);
      }
    }
  }

  lemma NoAnswersYet(start: State)
    requires Initial(start)
    ensures NoFalseAnswers(start)
  {
  }

  lemma MoveKeepsNoFalseAnswers(cfg: nat -> Config, s: State, step: Step)
    requires NoFalseAnswers(s) && Next(cfg, s, step).Some? && Mover(step).Some?
    ensures NoFalseAnswers(Next(cfg, s, step).value)
  {
    MoveKeepsOwnFailures(cfg, s, step);
    MoveDecidesNothing(cfg, s, step);
    hide Next, OwnFailures;
  }

  // Step k of the run is the answer of the thread that entered the call's provider.
  ghost predicate AnsweredAt(
      cfg: nat -> Config, start: State, steps: seq<Step>, k: int, id: string, result: CallResult)
  {
    && 0 <= k < |steps| && steps[k].Settle? && After(cfg, start, steps[..k]).Some?
    && result == CallResult(steps[k].status, ProviderAnswered, steps[k].output)
    && var s, t := After(cfg, start, steps[..k]).value, steps[k].t;
       && t in s.threads && s.threads[t].pc.Executing? && s.threads[t].e.call.id == id
       && Entry(t, s.threads[t].e, s.threads[t].clear) in s.entered
  }

  // A result that claims to be the provider's, or that it answered ok.
  predicate FromProvider(r: CallResult) {
    r.reason == ProviderAnswered || r.status == Succeeded
  }

  lemma MoveStoresAnswer(cfg: nat -> Config, s: State, step: Step, id: string)
    requires Inv(s) && NoFalseAnswers(s) && Next(cfg, s, step).Some? && Mover(step).Some?
    requires id in Next(cfg, s, step).value.db.results && id !in s.db.results
    requires FromProvider(Next(cfg, s, step).value.db.results[id])
    ensures step.Settle? && step.t in s.threads && s.threads[step.t].pc.Executing?
    ensures s.threads[step.t].e.call.id == id
    ensures Next(cfg, s, step).value.db.results[id] == CallResult(step.status, ProviderAnswered, step.output)
    ensures Entry(step.t, s.threads[step.t].e, s.threads[step.t].clear) in s.entered
  {
    MoveDecidesNothing(cfg, s, step);
    Guards(cfg, s, step);
    if step.Settle? {
      OutcomeIsStored(cfg, s, step.t, step.status, step.output);
      assert ThreadOk(s, step.t);
    } else if step.FailWrite? {
      FailureIsWritten(cfg, s, step.t, s.threads[step.t].pc.reason);
      hide Inv, Next;
      assert false;
    }
    hide Inv, Next;
  }

  lemma Guards(cfg: nat -> Config, s: State, step: Step)
    requires Next(cfg, s, step).Some?
    ensures step.Settle? ==>
      && step.t in s.threads && s.threads[step.t].pc.Executing?
      && s.threads[step.t].process !in s.busy
    ensures step.FailWrite? ==> step.t in s.threads && s.threads[step.t].pc.FailWriting?
  {
    hide RecordStep;
  }

  // Over whole runs: a result said to be the provider's, and every ok, is the outcome given by
  // the one thread that entered the provider for the call, at the step that stored it.
  lemma {:induction false} AnswersComeFromProviders(
      cfg: nat -> Config, start: State, steps: seq<Step>, id: string)
    requires Initial(start) && After(cfg, start, steps).Some?
    requires id in After(cfg, start, steps).value.db.results
    requires FromProvider(After(cfg, start, steps).value.db.results[id])
    ensures exists k ::
      AnsweredAt(cfg, start, steps, k, id, After(cfg, start, steps).value.db.results[id])
  {
    hide Inv, Next, NoFalseAnswers, Extends;
    if steps == [] {
      assert false;
    }
    var n := |steps| - 1;
    var shorter, step := steps[..n], steps[n];
    var s := After(cfg, start, shorter).value;
    RunsHaveNoFalseAnswers(cfg, start, shorter);
    StepExtends(cfg, s, step);
    ResultsStay(s.db, After(cfg, start, steps).value.db);
    if id in s.db.results {
      AnswersComeFromProviders(cfg, start, shorter, id);
      var k :| AnsweredAt(cfg, start, shorter, k, id, s.db.results[id]);
      assert shorter[..k] == steps[..k];
      assert AnsweredAt(cfg, start, steps, k, id, s.db.results[id]);
    } else if Mover(step).None? {
      OthersKeepNoFalseAnswers(cfg, s, step);
      assert false;
    } else {
      MoveStoresAnswer(cfg, s, step, id);
      assert AnsweredAt(cfg, start, steps, n, id, After(cfg, start, steps).value.db.results[id]);
    }
  }
}
