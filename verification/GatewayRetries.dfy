// Retries of a call whose provider has started: when one records a failure over the running
// execution, and when a recorded failure to start does tell that the provider never ran.

module GatewayRetries {
  import opened GatewayDecision
  import opened GatewayGuarantees
  import opened GatewayLimits
  import opened GatewayProtocol
  import opened GatewayTables
  import opened Prelude
  import opened RunStates

  // ---- A retry over a started provider -------------------------------------

  // Thread t is about to enter or runs the provider; u invokes the same call again and is
  // about to look for a result and for the provider.
  ghost predicate RetriesOver(s: State, t: nat, u: nat) {
    && t in s.threads && (s.threads[t].pc.Started? || s.threads[t].pc.Executing?)
    && u in s.threads && s.threads[u].pc.RunChecked?
    && s.threads[u].e.call.id == s.threads[t].e.call.id
    && s.threads[t].e.call.id !in s.db.results
  }

  // After `steps`, u writes its failure while t is still where it was.
  ghost predicate StoresOver(
      cfg: nat -> Config, s: State, steps: seq<Step>, t: nat, u: nat, reason: Reason)
    requires t in s.threads
  {
    var id := s.threads[t].e.call.id;
    && After(cfg, s, steps).Some? && After(cfg, s, steps + [FailWrite(u)]).Some?
    && var n, f := After(cfg, s, steps).value, After(cfg, s, steps + [FailWrite(u)]).value;
       && id !in n.db.results && id in f.db.results && f.db.results[id] == FailureFor(reason)
       && t in f.threads && f.threads[t] == s.threads[t]
  }

  predicate Offers(cfg: Config, call: Call) {
    call.provider in cfg.providers
  }

  // What a retry in the provider's process, through a registry that offers the provider, can
  // become: it waits, joins and ends, but never fails.
  ghost predicate SafeRetry(cfg: nat -> Config, s: State, t: nat, u: nat, p: nat) {
    && u < s.next
    && (u in s.threads ==>
         var x := s.threads[u];
         && x.process == p && Offers(cfg(x.registry), x.e.call)
         && (|| x.pc.Joined? || x.pc.Ended?
             || (&& (x.pc.RunChecked? || x.pc.ResultChecked?)
                 && t in s.threads && s.threads[t].process == p && s.threads[t].pc.Executing?
                 && s.threads[t].e.call.id == x.e.call.id)))
  }

  // A step of the retry itself.
  lemma RetryMovesSafely(cfg: nat -> Config, s: State, step: Step, t: nat, u: nat, p: nat)
    requires Inv(s) && SafeRetry(cfg, s, t, u, p)
    requires Next(cfg, s, step).Some? && Mover(step) == Some(u)
    ensures SafeRetry(cfg, Next(cfg, s, step).value, t, u, p)
  {
    hide EnterStep, RecordStep, CleanupStep, FailReadStep, CheckRunStep;
    if s.threads[u].pc.ResultChecked? {
      JoinsItsFlight(cfg, s, t, u);
    }
    hide Inv;
  }

  // While the retry holds the event loop, the executor does not move.
  lemma ExecutorWaits(cfg: nat -> Config, s: State, step: Step, t: nat, u: nat, p: nat)
    requires Inv(s) && SafeRetry(cfg, s, t, u, p) && u in s.threads
    requires s.threads[u].pc.RunChecked? || s.threads[u].pc.ResultChecked?
    requires Mover(step) == Some(t)
    ensures Next(cfg, s, step) == None
  {
    assert ThreadOk(s, u);
    hide Inv;
  }

  lemma SafeRetryKept(cfg: nat -> Config, s: State, step: Step, t: nat, u: nat, p: nat)
    requires Inv(s) && SafeRetry(cfg, s, t, u, p) && Next(cfg, s, step).Some?
    ensures SafeRetry(cfg, Next(cfg, s, step).value, t, u, p)
  {
    if Mover(step) == Some(u) {
      RetryMovesSafely(cfg, s, step, t, u, p);
    } else if Mover(step).Some? {
      ThreadMoves(cfg, s, step);
      NextNumberGrows(cfg, s, step);
      if u in s.threads && Mover(step) == Some(t)
         && (s.threads[u].pc.RunChecked? || s.threads[u].pc.ResultChecked?) {
        ExecutorWaits(cfg, s, step, t, u, p);
      }
      hide Inv, Next;
    } else {
      OthersStaySafe(cfg, s, step, t, u, p);
    }
  }

  lemma NextNumberGrows(cfg: nat -> Config, s: State, step: Step)
    requires Next(cfg, s, step).Some?
    ensures s.next <= Next(cfg, s, step).value.next
  {
  }

  // A crash of the process takes both threads, any other leaves both.
  lemma OthersStaySafe(cfg: nat -> Config, s: State, step: Step, t: nat, u: nat, p: nat)
    requires Inv(s) && SafeRetry(cfg, s, t, u, p)
    requires Next(cfg, s, step).Some? && Mover(step).None?
    ensures SafeRetry(cfg, Next(cfg, s, step).value, t, u, p)
  {
    NextNumberGrows(cfg, s, step);
    if step.Crash? {
      hide Inv;
    } else {
      OthersStay(cfg, s, step);
      OnlyNextIsNew(cfg, s, step);
      hide Inv, Next;
    }
  }

  lemma OnlyNextIsNew(cfg: nat -> Config, s: State, step: Step)
    requires Next(cfg, s, step).Some? && Mover(step).None?
    ensures Next(cfg, s, step).value.threads.Keys <= s.threads.Keys + {s.next}
  {
    hide InvokeTx, OnlyGrows;
  }

  lemma {:induction false} SafeRetryNeverFails(
      cfg: nat -> Config, s: State, steps: seq<Step>, t: nat, u: nat, p: nat)
    requires Inv(s) && SafeRetry(cfg, s, t, u, p) && After(cfg, s, steps).Some?
    ensures Inv(After(cfg, s, steps).value) && SafeRetry(cfg, After(cfg, s, steps).value, t, u, p)
  {
    hide Inv, Next, SafeRetry;
    if steps != [] {
      var shorter := steps[..|steps| - 1];
      SafeRetryNeverFails(cfg, s, shorter, t, u, p);
      StepKeeps(cfg, After(cfg, s, shorter).value, steps[|steps| - 1]);
      SafeRetryKept(cfg, After(cfg, s, shorter).value, steps[|steps| - 1], t, u, p);
    }
  }

  lemma JoinsItsFlight(cfg: nat -> Config, s: State, t: nat, u: nat)
    requires Inv(s) && t in s.threads && s.threads[t].pc.Executing?
    requires u in s.threads && s.threads[u].pc.ResultChecked?
    requires s.threads[u].e.call.id == s.threads[t].e.call.id
    requires s.threads[u].process == s.threads[t].process
    ensures Next(cfg, s, EnsureEffect(u)) == Some(Move(s, u, Joined(t)))
  {
    SameEffect(s, t, u);
    ExecutingWasEntered(s, t);
    assert ThreadOk(s, t);
    hide Inv;
  }

  lemma SameEntry(entered: seq<Entry>, x: Entry, y: Entry)
    requires EntriesApart(entered) && x in entered && y in entered && x.e.call.id == y.e.call.id
    ensures x == y
  {
    var i :| 0 <= i < |entered| && entered[i] == x;
    var j :| 0 <= j < |entered| && entered[j] == y;
  }

  // No flight of the call is in another process than the one that started it.
  lemma NoFlightElsewhere(s: State, t: nat, u: nat)
    requires Inv(s) && t in s.threads && (s.threads[t].pc.Started? || s.threads[t].pc.Executing?)
    requires u in s.threads && s.threads[u].process != s.threads[t].process
    requires s.threads[u].e.call.id == s.threads[t].e.call.id
    ensures EffectOf(s.threads[u].e.call) in s.db.effects
    ensures Flight(s.threads[u].process, s.threads[u].e.call.id) !in s.inflight
  {
    SameEffect(s, t, u);
    var f := Flight(s.threads[u].process, s.threads[t].e.call.id);
    assert ThreadOk(s, t) && FlightOk(s, f);
    if s.threads[t].pc.Started? {
      FlightsAreEntered(s);
    } else {
      ExecutingWasEntered(s, t);
      var x := Entry(t, s.threads[t].e, s.threads[t].clear);
      if f in s.inflight {
        var v := s.inflight[f];
        assert ThreadOk(s, v);
        SameEntry(s.entered, x, Entry(v, s.threads[v].e, s.threads[v].clear));
      }
    }
  }

  // A thread of the same process as one that is about to enter is not in the loop.
  lemma StartedIsElsewhere(s: State, t: nat, u: nat)
    requires Inv(s) && RetriesOver(s, t, u) && s.threads[t].pc.Started?
    ensures s.threads[u].process != s.threads[t].process
  {
    assert ThreadOk(s, t) && ThreadOk(s, u);
  }

  // The failing ways of a retry: no provider in its registry, or no flight in its process.
  lemma WithoutProviderStores(cfg: nat -> Config, s: State, t: nat, u: nat)
    requires RetriesOver(s, t, u) && !Offers(cfg(s.threads[u].registry), s.threads[u].e.call)
    ensures StoresOver(cfg, s, [CheckResult(u), FailRead(u)], t, u, NoProvider)
  {
    var n := Move(s, u, FailReading(NoProvider));
    assert Next(cfg, s, CheckResult(u)) == Some(n);
    RunTwo(cfg, s, CheckResult(u), FailRead(u));
    FailureIsStored(cfg, s, [CheckResult(u), FailRead(u)], n, t, u);
  }

  lemma WithoutFlightStores(cfg: nat -> Config, s: State, t: nat, u: nat)
    requires Inv(s) && RetriesOver(s, t, u) && Offers(cfg(s.threads[u].registry), s.threads[u].e.call)
    requires s.threads[u].process != s.threads[t].process
    ensures StoresOver(cfg, s, [CheckResult(u), EnsureEffect(u), FailRead(u)], t, u, AlreadyStarted)
  {
    NoFlightElsewhere(s, t, u);
    FindsNoFlight(cfg, s, u);
    hide Inv, Next, StoresOver;
    RunTwo(cfg, s, CheckResult(u), EnsureEffect(u));
    RunMore(cfg, s, [CheckResult(u), EnsureEffect(u)], FailRead(u));
    assert [CheckResult(u), EnsureEffect(u)] + [FailRead(u)] ==
           [CheckResult(u), EnsureEffect(u), FailRead(u)];
    FailureIsStored(
      cfg, s, [CheckResult(u), EnsureEffect(u), FailRead(u)],
      Move(Move(s, u, ResultChecked), u, FailReading(AlreadyStarted)), t, u);
  }

  lemma FindsNoFlight(cfg: nat -> Config, s: State, u: nat)
    requires u in s.threads && s.threads[u].pc.RunChecked? && s.threads[u].e.call.id !in s.db.results
    requires Offers(cfg(s.threads[u].registry), s.threads[u].e.call)
    requires EffectOf(s.threads[u].e.call) in s.db.effects
    requires Flight(s.threads[u].process, s.threads[u].e.call.id) !in s.inflight
    ensures var m := Move(s, u, ResultChecked);
            && Next(cfg, s, CheckResult(u)) == Some(m)
            && Next(cfg, m, EnsureEffect(u)) == Some(Move(m, u, FailReading(AlreadyStarted)))
  {
  }

  // From the failing read on, nothing but the write is left.
  lemma FailureIsStored(
      cfg: nat -> Config, s: State, steps: seq<Step>, n: State, t: nat, u: nat)
    requires RetriesOver(s, t, u) && u in n.threads && n.threads[u].pc.FailReading?
    requires n.threads[u].e == s.threads[u].e && n.db == s.db
    requires t in n.threads && n.threads[t] == s.threads[t]
    requires After(cfg, s, steps) == Next(cfg, n, FailRead(u))
    ensures StoresOver(cfg, s, steps, t, u, n.threads[u].pc.reason)
  {
    var m := Move(n, u, FailWriting(n.threads[u].pc.reason));
    assert Next(cfg, n, FailRead(u)) == Some(m);
    RunMore(cfg, s, steps, FailWrite(u));
    FailWriteStores(cfg, m, u);
    hide Next, After;
  }

  lemma FailWriteStores(cfg: nat -> Config, s: State, u: nat)
    requires u in s.threads && s.threads[u].pc.FailWriting? && s.threads[u].e.call.id !in s.db.results
    ensures var f := Next(cfg, s, FailWrite(u));
            && f.Some? && s.threads[u].e.call.id in f.value.db.results
            && f.value.db.results[s.threads[u].e.call.id] == FailureFor(s.threads[u].pc.reason)
            && f.value.threads == s.threads[u := f.value.threads[u]]
  {
  }

  // A retry over a started provider can store a failure exactly when its registry does not
  // offer the provider or its process is another one; otherwise, whatever goes on around it,
  // it never fails.
  lemma RetryFailsIff(cfg: nat -> Config, s: State, t: nat, u: nat)
    requires Inv(s) && RetriesOver(s, t, u)
    ensures (exists steps, reason :: StoresOver(cfg, s, steps, t, u, reason)) <==>
              || !Offers(cfg(s.threads[u].registry), s.threads[u].e.call)
              || s.threads[u].process != s.threads[t].process
    ensures Offers(cfg(s.threads[u].registry), s.threads[u].e.call)
              && s.threads[u].process == s.threads[t].process ==>
            forall steps | After(cfg, s, steps).Some? ::
              !FailsIn(After(cfg, s, steps).value, u)
  {
    var p := s.threads[t].process;
    if !Offers(cfg(s.threads[u].registry), s.threads[u].e.call) {
      WithoutProviderStores(cfg, s, t, u);
      hide StoresOver;
    } else if s.threads[u].process != p {
      WithoutFlightStores(cfg, s, t, u);
      hide StoresOver;
    } else {
      if s.threads[t].pc.Started? { StartedIsElsewhere(s, t, u); }
      assert SafeRetry(cfg, s, t, u, p) by { assert ThreadOk(s, u); }
      hide Inv, Next, StoresOver;
      forall steps | After(cfg, s, steps).Some?
        ensures !FailsIn(After(cfg, s, steps).value, u)
      {
        SafeRetryNeverFails(cfg, s, steps, t, u, p);
      }
      forall steps, reason ensures !StoresOver(cfg, s, steps, t, u, reason) {
        if StoresOver(cfg, s, steps, t, u, reason) { StoringIsFailing(cfg, s, steps, t, u, reason); }
      }
    }
  }

  ghost predicate FailsIn(s: State, u: nat) {
    u in s.threads && (s.threads[u].pc.FailReading? || s.threads[u].pc.FailWriting?)
  }

  lemma StoringIsFailing(
      cfg: nat -> Config, s: State, steps: seq<Step>, t: nat, u: nat, reason: Reason)
    requires t in s.threads && StoresOver(cfg, s, steps, t, u, reason)
    ensures After(cfg, s, steps).Some? && FailsIn(After(cfg, s, steps).value, u)
  {
    RunMore(cfg, s, steps, FailWrite(u));
    OnlyFailingWrites(cfg, After(cfg, s, steps).value, u);
    hide After, Next;
  }

  lemma OnlyFailingWrites(cfg: nat -> Config, s: State, u: nat)
    ensures Next(cfg, s, FailWrite(u)).Some? ==> FailsIn(s, u)
  {
  }

  // ---- What a recorded failure to start tells ------------------------------

  // Whoever is past the check has its provider, whoever fails for want of one has not.
  ghost predicate ThreadOffers(cfg: nat -> Config, s: State, t: nat) {
    t in s.threads ==>
      var th := s.threads[t];
      && (th.pc.ResultChecked? || th.pc.Started? || th.pc.Executing? ==>
           Offers(cfg(th.registry), th.e.call))
      && (th.pc == FailReading(NoProvider) || th.pc == FailWriting(NoProvider) ==>
           !Offers(cfg(th.registry), th.e.call))
  }

  ghost predicate EntryOffered(cfg: nat -> Config, s: State, x: Entry) {
    x in s.entered ==> exists g :: Offers(cfg(g), x.e.call)
  }

  ghost predicate FailsForProvider(s: State, id: string) {
    && id in s.db.results && s.db.results[id].status == Unsuccessful
    && s.db.results[id].reason == NoProvider
  }

  ghost predicate FailureEarned(cfg: nat -> Config, s: State, id: string) {
    FailsForProvider(s, id) ==>
      id in s.db.calls && exists g :: !Offers(cfg(g), s.db.calls[id])
  }

  ghost predicate Offered(cfg: nat -> Config, s: State) {
    && (forall t :: ThreadOffers(cfg, s, t))
    && (forall x :: EntryOffered(cfg, s, x))
    && (forall id :: FailureEarned(cfg, s, id))
  }

  // Where a moved thread comes from.
  ghost predicate ComesFrom(cfg: nat -> Config, before: Thread, after: Pc) {
    var offers := Offers(cfg(before.registry), before.e.call);
    match after
    case ResultChecked => offers
    case Started => before.pc.ResultChecked?
    case Executing => before.pc.Started?
    case FailReading(reason) => (reason == NoProvider && !offers) || reason == AlreadyStarted
    case FailWriting(reason) => before.pc == FailReading(reason)
    case _ => true
  }

  lemma ThreadComesFrom(cfg: nat -> Config, s: State, step: Step)
    requires Next(cfg, s, step).Some? && Mover(step).Some?
    ensures var t, n := Mover(step).value, Next(cfg, s, step).value;
            t in s.threads && t in n.threads && ComesFrom(cfg, s.threads[t], n.threads[t].pc)
  {
    if step.Settle? || step.FailWrite? {
      RecordingMoves(cfg, s, step);
      RecordingEnds(cfg, s, step);
      hide Next;
    } else if step.CheckResult? || step.EnsureEffect? {
      hide RecordStep, EnterStep, CleanupStep, FailReadStep, CheckRunStep;
    } else {
      hide RecordStep, CheckResultStep, EnsureEffectStep;
    }
  }

  lemma RecordingEnds(cfg: nat -> Config, s: State, step: Step)
    requires Next(cfg, s, step).Some? && (step.Settle? || step.FailWrite?)
    ensures step.t in s.threads && step.t in Next(cfg, s, step).value.threads
    ensures var pc := Next(cfg, s, step).value.threads[step.t].pc; pc.Settled? || pc.Ended?
  {
    hide EnterStep, CleanupStep, FailReadStep, CheckRunStep, CheckResultStep, EnsureEffectStep;
  }

  // What a thread's step stores is its own failure, or its provider's answer.
  lemma ThreadStores(cfg: nat -> Config, s: State, step: Step)
    requires Next(cfg, s, step).Some? && Mover(step).Some?
    ensures var t, n := Mover(step).value, Next(cfg, s, step).value;
            && t in s.threads && n.db.calls == s.db.calls
            && forall id :: FailsForProvider(n, id) && !FailsForProvider(s, id) ==>
                 id == s.threads[t].e.call.id && s.threads[t].pc == FailWriting(NoProvider)
  {
    if step.Settle? || step.FailWrite? {
      hide EnterStep, CleanupStep, FailReadStep, CheckRunStep, CheckResultStep, EnsureEffectStep;
    } else {
      hide RecordStep;
    }
  }

  lemma MoveKeepsThreads(cfg: nat -> Config, s: State, n: State, step: Step, t: nat)
    requires MovesTo(s, n, step, t) && ComesFrom(cfg, s.threads[t], n.threads[t].pc)
    requires forall u :: ThreadOffers(cfg, s, u)
    ensures forall u :: ThreadOffers(cfg, n, u)
  {
    hide Offers;
    assert ThreadOffers(cfg, s, t);
    forall u ensures ThreadOffers(cfg, n, u) { assert ThreadOffers(cfg, s, u); }
  }

  lemma MoveKeepsEntries(cfg: nat -> Config, s: State, n: State, step: Step, t: nat)
    requires MovesTo(s, n, step, t) && ThreadOffers(cfg, s, t)
    requires forall x :: EntryOffered(cfg, s, x)
    ensures forall x :: EntryOffered(cfg, n, x)
  {
    hide Offers;
    forall x ensures EntryOffered(cfg, n, x) { assert EntryOffered(cfg, s, x); }
  }

  lemma MoveKeepsFailures(cfg: nat -> Config, s: State, n: State, t: nat)
    requires t in s.threads && ThreadOffers(cfg, s, t) && n.db.calls == s.db.calls
    requires var call := s.threads[t].e.call; call.id in s.db.calls && s.db.calls[call.id] == call
    requires forall id :: FailsForProvider(n, id) && !FailsForProvider(s, id) ==>
      id == s.threads[t].e.call.id && s.threads[t].pc == FailWriting(NoProvider)
    requires forall id :: FailureEarned(cfg, s, id)
    ensures forall id :: FailureEarned(cfg, n, id)
  {
    hide Offers, FailsForProvider;
    forall id ensures FailureEarned(cfg, n, id) { assert FailureEarned(cfg, s, id); }
  }

  lemma ThreadIsRecorded(s: State, t: nat)
    requires Inv(s) && t in s.threads
    ensures var call := s.threads[t].e.call; call.id in s.db.calls && s.db.calls[call.id] == call
  {
    assert ThreadOk(s, t);
  }

  lemma MoveKeepsOffered(cfg: nat -> Config, s: State, step: Step)
    requires Inv(s) && Offered(cfg, s) && Next(cfg, s, step).Some? && Mover(step).Some?
    ensures Offered(cfg, Next(cfg, s, step).value)
  {
    var t, n := Mover(step).value, Next(cfg, s, step).value;
    ThreadMoves(cfg, s, step);
    ThreadComesFrom(cfg, s, step);
    ThreadStores(cfg, s, step);
    hide MovesTo, ComesFrom, FailsForProvider, Next;
    ThreadIsRecorded(s, t);
    hide Inv, ThreadOffers, EntryOffered, FailureEarned;
    MoveKeepsThreads(cfg, s, n, step, t);
    MoveKeepsEntries(cfg, s, n, step, t);
    MoveKeepsFailures(cfg, s, n, t);
  }

  // The opening transaction stores only blocks, the surroundings nothing.
  lemma OthersStoreNoFailure(cfg: nat -> Config, s: State, step: Step)
    requires Inv(s) && Next(cfg, s, step).Some? && Mover(step).None?
    ensures forall id :: FailsForProvider(Next(cfg, s, step).value, id) ==> FailsForProvider(s, id)
  {
    if step.Invoke? {
      InvIsConsistent(s);
      InvokeIsSound(cfg(step.registry), s.db, step.call);
      hide Inv, Consistent, Extends, Licensed, InvokeTx;
      if !InvokeTx(cfg(step.registry), s.db, step.call).Thrown? {
        ResultsStay(s.db, InvokeTx(cfg(step.registry), s.db, step.call).db);
      }
    } else {
      hide Inv, OnlyGrows;
    }
  }

  lemma OthersKeepOffered(cfg: nat -> Config, s: State, step: Step)
    requires Inv(s) && Offered(cfg, s) && Next(cfg, s, step).Some? && Mover(step).None?
    ensures Offered(cfg, Next(cfg, s, step).value)
  {
    var n := Next(cfg, s, step).value;
    OthersStay(cfg, s, step);
    OthersStoreNoFailure(cfg, s, step);
    StepExtends(cfg, s, step);
    CallsStay(s.db, n.db);
    hide Inv, Next, Extends, FailsForProvider, Offered;
    QuietKeepsOffered(cfg, s, n);
  }

  lemma QuietKeepsOffered(cfg: nat -> Config, s: State, n: State)
    requires Offered(cfg, s) && n.entered == s.entered
    requires forall t :: t in n.threads && !n.threads[t].pc.Ready? ==>
      t in s.threads && n.threads[t] == s.threads[t]
    requires forall id :: FailsForProvider(n, id) ==> FailsForProvider(s, id)
    requires forall id :: id in s.db.calls ==> id in n.db.calls && n.db.calls[id] == s.db.calls[id]
    ensures Offered(cfg, n)
  {
    hide FailsForProvider, Offers;
    forall u ensures ThreadOffers(cfg, n, u) { assert ThreadOffers(cfg, s, u); }
    forall x ensures EntryOffered(cfg, n, x) { assert EntryOffered(cfg, s, x); }
    forall id ensures FailureEarned(cfg, n, id) { assert FailureEarned(cfg, s, id); }
  }

  lemma CallsStay(before: Db, after: Db)
    requires Extends(before, after)
    ensures forall id :: id in before.calls ==> id in after.calls && after.calls[id] == before.calls[id]
  {
  }

  lemma {:induction false} RunsStayOffered(cfg: nat -> Config, start: State, steps: seq<Step>)
    requires Initial(start) && After(cfg, start, steps).Some?
    ensures Offered(cfg, After(cfg, start, steps).value)
  {
    hide Inv, Next, Offered;
    if steps == [] {
      NothingOfferedYet(cfg, start);
    } else {
      var shorter := steps[..|steps| - 1];
      RunsStayOffered(cfg, start, shorter);
      InitialIsInv(start);
      RunKeeps(cfg, start, shorter);
      if Mover(steps[|steps| - 1]).Some? {
        MoveKeepsOffered(cfg, After(cfg, start, shorter).value, steps[|steps| - 1]);
      } else {
        OthersKeepOffered(cfg, After(cfg, start, shorter).value, steps[|steps| - 1]);
      }
    }
  }

  lemma NothingOfferedYet(cfg: nat -> Config, start: State)
    requires Initial(start)
    ensures Offered(cfg, start)
  {
  }

  lemma ReachableIsOffered(cfg: nat -> Config, s: State)
    requires Reachable(cfg, s)
    ensures Offered(cfg, s)
  {
    var start, steps :| Initial(start) && After(cfg, start, steps) == Some(s);
    RunsStayOffered(cfg, start, steps);
  }

  ghost predicate RegistriesAgree(cfg: nat -> Config, call: Call) {
    forall g, h :: Offers(cfg(g), call) <==> Offers(cfg(h), call)
  }

  // Over every interleaving: "not available" under registries that agree on the provider
  // means that it was not entered.
  lemma UnavailableWasNotEntered(cfg: nat -> Config, s: State, id: string)
    requires Reachable(cfg, s) && FailsForProvider(s, id)
    requires id in s.db.calls ==> RegistriesAgree(cfg, s.db.calls[id])
    ensures !Entered(s.entered, id)
  {
    ReachableIsOffered(cfg, s);
    ReachableIsInv(cfg, s);
    assert FailureEarned(cfg, s, id);
    forall x | x in s.entered ensures x.e.call.id != id {
      assert EntryOffered(cfg, s, x) && EntryOk(s, x);
    }
  }

  // In one process whose registries agree on the provider, a recorded failure to start means
  // that the provider never ran, and it never will.
  lemma FailureMeansNeverEntered(
      cfg: nat -> Config, p: nat, s: State, id: string, later: seq<Step>)
    requires ReachableAlone(cfg, p, s) && After(cfg, s, later).Some?
    requires id in s.db.results && s.db.results[id].status == Unsuccessful
    requires s.db.results[id].reason == NoProvider || s.db.results[id].reason == AlreadyStarted
    requires id in s.db.calls ==> RegistriesAgree(cfg, s.db.calls[id])
    ensures !Entered(After(cfg, s, later).value.entered, id)
  {
    AloneIsInv(cfg, p, s);
    assert NotAlreadyStarted(s, id);
    AloneIsReachable(cfg, p, s);
    hide Inv, Next, Alone, ReachableAlone, Entered, RegistriesAgree;
    UnavailableWasNotEntered(cfg, s, id);
    ResultSettlesEntry(s, p, id);
    RunKeepsClosed(cfg, s, later, id);
  }

  lemma AloneIsReachable(cfg: nat -> Config, p: nat, s: State)
    requires ReachableAlone(cfg, p, s)
    ensures Reachable(cfg, s)
  {
  }
}
