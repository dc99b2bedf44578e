// Runs from an empty gateway in which a recorded "blocked" or "failed" goes with a provider
// that runs, or that runs only later.

module GatewayRaces {
  import opened GatewayDecision
  import opened GatewayGuarantees
  import opened GatewayLimits
  import opened GatewayProtocol
  import opened GatewayRetries
  import opened GatewayTables
  import opened Prelude
  import opened RunStates

  const SOLE_GRANT := Grant("workspace", "role", "capability")

  function SoleCall(): Call {
    Call("call", "workspace", "run", "capability", "provider", map[], "role", None, "task", None,
         false, Low, "key")
  }

  function SoleCapability(): Capability {
    Capability("workspace", "capability", ["provider"], false, Low, false, None, Enabled, [])
  }

  function SoleFacts(suspended: set<Grant>): Facts {
    Facts(map["task" := Task("workspace", "run", "role", ["capability"], map[])], map[],
          map["role" := {"capability"}], map["workspace" := Bounded], suspended)
  }

  // Registry 0 offers the one provider, the others offer none; all accept the call.
  ghost function Registries(): nat -> Config {
    (g: nat) => Config(
      if g == 0 then map["provider" := false] else map[], (id: string) => id,
      (c: Call, k: Capability) => true)
  }

  function EmptyDb(): Db {
    Db(SoleFacts({}), map["run" := Run("workspace", Running)],
       map[CapabilityOf(SoleCall()) := SoleCapability()],
       map[], map[], map[], map[], map[], {})
  }

  // The call allowed and not started, under these suspensions.
  function AllowedDb(suspended: set<Grant>): Db {
    EmptyDb().(facts := SoleFacts(suspended), calls := map["call" := SoleCall()],
               callKeys := map[KeyOf(SoleCall()) := "call"],
               decisions := map["call" := Decision(Allow, Granted)])
  }

  function SoleExecutable(): Executable {
    Executable(SoleCall(), SoleCapability(), Decision(Allow, Granted), None)
  }

  function Standing(db: Db, pc: Pc): State {
    State(db, map[0 := Thread(0, 0, SoleExecutable(), true, pc)], 1,
          if HoldsLoop(pc) then map[0 := 0] else map[], map[], [])
  }

  // Its provider runs in process 0.
  function RunningIn0(suspended: set<Grant>): State {
    var db := AllowedDb(suspended);
    Standing(db.(effects := {EffectOf(SoleCall())}), Executing).(
      inflight := map[Flight(0, "call") := 0], entered := [Entry(0, SoleExecutable(), true)])
  }

  lemma Reaches(cfg: nat -> Config, s: State, step: Step, n: State)
    requires Reachable(cfg, s) && Next(cfg, s, step) == Some(n)
    ensures Reachable(cfg, n)
  {
    hide Next, Initial;
    var start, steps :| Initial(start) && After(cfg, start, steps) == Some(s);
    RunMore(cfg, start, steps, step);
    assert After(cfg, start, steps + [step]) == Some(n);
  }

  lemma FirstInvocationExecutes()
    ensures InvokeTx(Registries()(0), EmptyDb(), SoleCall()) ==
              Execute(AllowedDb({}), SoleExecutable())
  {
    var db := EmptyDb();
    var recorded := RecordCall(db, SoleCall()).value;
    assert FindForTarget(recorded, "workspace", "call").None?;
    assert DecideCall(recorded.facts, Registries()(0).providers, SoleCall(), SoleCapability()) ==
           Decision(Allow, Granted);
  }

  lemma OpenedIsReachable()
    ensures ReachableAlone(Registries(), 0, Standing(AllowedDb({}), Ready))
  {
    var s0 := State(EmptyDb(), map[], 0, map[], map[], []);
    assert After(Registries(), s0, []) == Some(s0);
    assert Initial(s0);
    FirstInvocationExecutes();
    hide InvokeTx, Initial;
    AloneReaches(Registries(), 0, s0, Invoke(0, 0, SoleCall()), Standing(AllowedDb({}), Ready));
  }

  lemma CheckedIsReachable()
    ensures ReachableAlone(Registries(), 0, Standing(AllowedDb({}), ResultChecked))
  {
    OpenedIsReachable();
    ChecksPass();
    hide Next, ReachableAlone;
    AloneReaches(Registries(), 0, Standing(AllowedDb({}), Ready), CheckRun(0),
                 Standing(AllowedDb({}), RunChecked));
    AloneReaches(Registries(), 0, Standing(AllowedDb({}), RunChecked), CheckResult(0),
                 Standing(AllowedDb({}), ResultChecked));
  }

  lemma ChecksPass()
    ensures Next(Registries(), Standing(AllowedDb({}), Ready), CheckRun(0)) ==
              Some(Standing(AllowedDb({}), RunChecked))
    ensures Next(Registries(), Standing(AllowedDb({}), RunChecked), CheckResult(0)) ==
              Some(Standing(AllowedDb({}), ResultChecked))
  {
    StandingMoves(AllowedDb({}), Ready, RunChecked);
    StandingMoves(AllowedDb({}), RunChecked, ResultChecked);
    hide Move;
  }

  lemma StandingMoves(db: Db, from: Pc, to: Pc)
    requires HoldsLoop(from)
    ensures Move(Standing(db, from), 0, to) == Standing(db, to)
  {
    var s, n := Move(Standing(db, from), 0, to), Standing(db, to);
    assert s.threads == n.threads && s.busy == n.busy;
  }

  // Suspending the grant, whatever else goes on.
  function Suspend(): Step {
    Outside(SoleFacts({SOLE_GRANT}), EmptyDb().runs, EmptyDb().capabilities)
  }

  function StartedIn0(suspended: set<Grant>): State {
    Standing(StartOnce(AllowedDb(suspended), SoleCall()).0, Started)
  }

  lemma StartedIsReachable()
    ensures ReachableAlone(Registries(), 0, StartedIn0({}))
  {
    CheckedIsReachable();
    StartsAndEnters({});
    hide Next, ReachableAlone;
    AloneReaches(Registries(), 0, Standing(AllowedDb({}), ResultChecked), EnsureEffect(0), StartedIn0({}));
  }

  lemma RunningIsReachable()
    ensures ReachableAlone(Registries(), 0, RunningIn0({}))
    ensures ReachableAlone(Registries(), 0, RunningIn0({SOLE_GRANT}))
  {
    StartedIsReachable();
    StartsAndEnters({});
    SuspensionHappens();
    hide Next, ReachableAlone;
    AloneReaches(Registries(), 0, StartedIn0({}), Enter(0), RunningIn0({}));
    AloneReaches(Registries(), 0, RunningIn0({}), Suspend(), RunningIn0({SOLE_GRANT}));
  }

  lemma StartsAndEnters(suspended: set<Grant>)
    ensures Next(Registries(), Standing(AllowedDb(suspended), ResultChecked), EnsureEffect(0)) ==
              Some(StartedIn0(suspended))
    ensures Next(Registries(), StartedIn0(suspended), Enter(0)) == Some(RunningIn0(suspended))
  {
    var db := StartOnce(AllowedDb(suspended), SoleCall()).0;
    StandingMoves(db, ResultChecked, Started);
    StandingMoves(db, Started, Executing);
    EntersByMove(Standing(db, Started), 0);
    hide Move;
    assert RunningIn0(suspended).db.effects == db.effects;
    assert Standing(db, Started).inflight[Flight(0, "call") := 0] == RunningIn0(suspended).inflight;
    assert EnterStep(Standing(db, Started), 0) == RunningIn0(suspended);
  }

  lemma EntersByMove(s: State, t: nat)
    requires t in s.threads
    ensures var th := s.threads[t];
            EnterStep(s, t) == Move(s, t, Executing).(
              entered := s.entered + [Entry(t, th.e, th.clear)],
              inflight := s.inflight[Flight(th.process, th.e.call.id) := t])
  {
  }

  lemma SuspensionHappens()
    ensures Next(Registries(), RunningIn0({}), Suspend()) == Some(RunningIn0({SOLE_GRANT}))
    ensures Next(Registries(), Standing(AllowedDb({}), ResultChecked), Suspend()) ==
              Some(Standing(AllowedDb({SOLE_GRANT}), ResultChecked))
  {
  }

  ghost predicate BlockedIn(s: State, callId: string) {
    callId in s.db.results && s.db.results[callId].status == Blocked
  }

  // A replay on a suspended grant, in the one process of the run or in another.
  lemma BlockingIsReached(cfg: nat -> Config, s: State, t: nat, p: nat, g: nat)
    requires ReachableAlone(cfg, 0, s) && t in s.threads && p !in s.busy
    requires var e := s.threads[t].e;
             && e.call.id !in s.db.results && GrantOf(e.call) in s.db.facts.suspended
             && cfg(g).acceptable(e.call, e.capability)
    ensures var id := s.threads[t].e.call.id;
            && BlockedIn(Blocking(s, id), id) && Reachable(cfg, Blocking(s, id))
            && (p == 0 ==> ReachableAlone(cfg, 0, Blocking(s, id)))
  {
    AloneIsInv(cfg, 0, s);
    ReplayIsBlocked(cfg, s, t, p, g);
    hide Inv, Next, Reachable, ReachableAlone;
    InvokingReaches(cfg, s, p, g, s.threads[t].e.call, Blocking(s, s.threads[t].e.call.id));
  }

  lemma InvokingReaches(cfg: nat -> Config, s: State, p: nat, g: nat, call: Call, n: State)
    requires ReachableAlone(cfg, 0, s) && Next(cfg, s, Invoke(p, g, call)) == Some(n)
    ensures Reachable(cfg, n) && (p == 0 ==> ReachableAlone(cfg, 0, n))
  {
    AloneIsReachable(cfg, 0, s);
    hide Next, Reachable, ReachableAlone;
    Reaches(cfg, s, Invoke(p, g, call), n);
    if p == 0 {
      AloneReaches(cfg, 0, s, Invoke(p, g, call), n);
    }
  }

  // One process: the call's result is "blocked" while its provider runs.
  lemma BlockedWhileRunning()
    ensures var s := Blocking(RunningIn0({SOLE_GRANT}), "call");
            && ReachableAlone(Registries(), 0, s) && BlockedIn(s, "call")
            && Entered(s.entered, "call") && s.threads[0].pc.Executing?
  {
    var s := RunningIn0({SOLE_GRANT});
    RunningIsReachable();
    hide ReachableAlone, Reachable;
    assert s.entered[0] in s.entered;
    BlockingIsReached(Registries(), s, 0, 0, 0);
  }

  lemma SuspendedIsReachable()
    ensures ReachableAlone(Registries(), 0, Standing(AllowedDb({SOLE_GRANT}), ResultChecked))
  {
    CheckedIsReachable();
    SuspensionHappens();
    hide Next, ReachableAlone;
    AloneReaches(Registries(), 0, Standing(AllowedDb({}), ResultChecked), Suspend(),
                 Standing(AllowedDb({SOLE_GRANT}), ResultChecked));
  }

  // Two processes: "blocked" is recorded before the provider is entered, and it still is.
  lemma BlockedBeforeEntry()
    ensures var s := Blocking(Standing(AllowedDb({SOLE_GRANT}), ResultChecked), "call");
            && Reachable(Registries(), s) && BlockedIn(s, "call") && !Entered(s.entered, "call")
            && exists steps :: EntersBy(Registries(), s, steps, "call")
  {
    var s := Standing(AllowedDb({SOLE_GRANT}), ResultChecked);
    SuspendedIsReachable();
    hide ReachableAlone, Reachable;
    BlockingIsReached(Registries(), s, 0, 1, 0);
    assert PastCheck(Blocking(s, "call"), 0, "call");
    PastCheckEnters(Registries(), Blocking(s, "call"), 0, "call");
  }

  // Over a call that process 0 started, process p invokes it again through registry g.
  function Retrying(base: State, p: nat, g: nat, pc: Pc): State {
    base.(threads := base.threads[1 := Thread(p, g, SoleExecutable(), true, pc)], next := 2,
          busy := base.busy[p := 1])
  }

  ghost predicate SoleStart(base: State) {
    && ReachableAlone(Registries(), 0, base) && base.db == RunningIn0({}).db
    && base.next == 1 && base.threads.Keys == {0} && base.threads[0].process == 0
    && base.threads[0].e == SoleExecutable()
    && (base.threads[0].pc.Started? || base.threads[0].pc.Executing?)
  }

  lemma RetryExecutes(g: nat)
    ensures InvokeTx(Registries()(g), RunningIn0({}).db, SoleCall()) ==
              Execute(RunningIn0({}).db, SoleExecutable())
  {
    assert FindForTarget(RunningIn0({}).db, "workspace", "call").None?;
  }

  lemma RetryOpens(base: State, p: nat, g: nat)
    requires SoleStart(base) && p !in base.busy
    ensures Next(Registries(), base, Invoke(p, g, SoleCall())) == Some(Retrying(base, p, g, Ready))
  {
    RetryExecutes(g);
    hide InvokeTx, ReachableAlone;
  }

  lemma RetryChecksRun(base: State, p: nat, g: nat)
    requires SoleStart(base)
    ensures Next(Registries(), Retrying(base, p, g, Ready), CheckRun(1)) ==
              Some(Retrying(base, p, g, RunChecked))
  {
    hide ReachableAlone;
    var s := Retrying(base, p, g, Ready);
    assert Move(s, 1, RunChecked).threads == Retrying(base, p, g, RunChecked).threads;
  }

  lemma RetryIsReachable(base: State, p: nat, g: nat)
    requires SoleStart(base) && p !in base.busy
    ensures Reachable(Registries(), Retrying(base, p, g, RunChecked))
    ensures p == 0 ==> ReachableAlone(Registries(), 0, Retrying(base, p, g, RunChecked))
  {
    RetryOpens(base, p, g);
    RetryChecksRun(base, p, g);
    assert ReachableAlone(Registries(), 0, base);
    hide Next, Reachable, ReachableAlone, Retrying, Registries, SoleStart;
    InvokingReaches(Registries(), base, p, g, SoleCall(), Retrying(base, p, g, Ready));
    Reaches(Registries(), Retrying(base, p, g, Ready), CheckRun(1), Retrying(base, p, g, RunChecked));
    if p == 0 {
      AloneReaches(
        Registries(), 0, Retrying(base, p, g, Ready), CheckRun(1), Retrying(base, p, g, RunChecked));
    }
  }

  lemma RetriesOverStart(base: State, p: nat, g: nat)
    requires SoleStart(base)
    ensures RetriesOver(Retrying(base, p, g, RunChecked), 0, 1)
  {
    hide ReachableAlone;
  }

  lemma {:induction false} ReachesRun(cfg: nat -> Config, s: State, steps: seq<Step>)
    requires Reachable(cfg, s) && After(cfg, s, steps).Some?
    ensures Reachable(cfg, After(cfg, s, steps).value)
  {
    hide Next, Reachable;
    if steps != [] {
      var shorter := steps[..|steps| - 1];
      ReachesRun(cfg, s, shorter);
      Reaches(cfg, After(cfg, s, shorter).value, steps[|steps| - 1], After(cfg, s, steps).value);
    }
  }

  lemma {:induction false} AloneReachesRun(cfg: nat -> Config, p: nat, s: State, steps: seq<Step>)
    requires ReachableAlone(cfg, p, s) && After(cfg, s, steps).Some?
    requires forall step :: step in steps ==> OneProcess(step, p)
    ensures ReachableAlone(cfg, p, After(cfg, s, steps).value)
  {
    hide Next, ReachableAlone, OneProcess;
    if steps != [] {
      var shorter := steps[..|steps| - 1];
      AloneReachesRun(cfg, p, s, shorter);
      AloneReaches(cfg, p, After(cfg, s, shorter).value, steps[|steps| - 1], After(cfg, s, steps).value);
    }
  }

  // The call's result is a failure, and its provider is at `pc` all the same.
  ghost predicate FailedOver(s: State, reason: Reason, pc: Pc) {
    && "call" in s.db.results && s.db.results["call"] == FailureFor(reason)
    && 0 in s.threads && s.threads[0].e.call.id == "call" && s.threads[0].pc == pc
  }

  lemma OnlyFirstOffers(g: nat)
    ensures Offers(Registries()(g), SoleCall()) <==> g == 0
  {
  }

  lemma SoleStarts()
    ensures SoleStart(RunningIn0({})) && RunningIn0({}).busy == map[]
    ensures SoleStart(StartedIn0({})) && StartedIn0({}).busy == map[0 := 0]
  {
    RunningIsReachable();
    StartedIsReachable();
    hide ReachableAlone, Registries;
  }

  lemma FailsElsewhere(base: State)
    requires SoleStart(base) && 1 !in base.busy
    ensures exists s: State ::
      Reachable(Registries(), s) && FailedOver(s, AlreadyStarted, base.threads[0].pc)
  {
    var s := Retrying(base, 1, 0, RunChecked);
    var steps := [CheckResult(1), EnsureEffect(1), FailRead(1)];
    RetryIsReachable(base, 1, 0);
    RetriesOverStart(base, 1, 0);
    ReachableIsInv(Registries(), s);
    OnlyFirstOffers(0);
    hide Inv, Reachable, ReachableAlone, Registries, Next;
    WithoutFlightStores(Registries(), s, 0, 1);
    ReachesRun(Registries(), s, steps + [FailWrite(1)]);
    hide After;
    assert FailedOver(
        After(Registries(), s, steps + [FailWrite(1)]).value, AlreadyStarted, base.threads[0].pc);
  }

  // Two processes: a failure to start is recorded while the provider runs, or before it is
  // entered.
  lemma FailedWhileRunning()
    ensures exists s: State :: Reachable(Registries(), s) && FailedOver(s, AlreadyStarted, Executing)
    ensures exists s: State :: Reachable(Registries(), s) && FailedOver(s, AlreadyStarted, Started)
  {
    SoleStarts();
    hide SoleStart, Reachable, FailedOver;
    FailsElsewhere(RunningIn0({}));
    FailsElsewhere(StartedIn0({}));
  }

  lemma FailsBeside(base: State)
    requires SoleStart(base) && 0 !in base.busy
    ensures exists s: State ::
      ReachableAlone(Registries(), 0, s) && FailedOver(s, NoProvider, base.threads[0].pc)
  {
    var s := Retrying(base, 0, 1, RunChecked);
    var steps := [CheckResult(1), FailRead(1)];
    RetryIsReachable(base, 0, 1);
    RetriesOverStart(base, 0, 1);
    OnlyFirstOffers(1);
    assert forall step :: step in steps + [FailWrite(1)] ==> OneProcess(step, 0);
    hide ReachableAlone, Reachable, Registries, Next, OneProcess;
    WithoutProviderStores(Registries(), s, 0, 1);
    AloneReachesRun(Registries(), 0, s, steps + [FailWrite(1)]);
    hide After;
    assert FailedOver(
        After(Registries(), s, steps + [FailWrite(1)]).value, NoProvider, base.threads[0].pc);
  }

  // One process with two registries: "not available" is recorded while the provider runs.
  lemma FailedBySibling()
    ensures exists s: State ::
      ReachableAlone(Registries(), 0, s) && FailedOver(s, NoProvider, Executing)
  {
    SoleStarts();
    hide SoleStart, ReachableAlone, FailedOver;
    FailsBeside(RunningIn0({}));
  }

  // A crash between the effect and the entry leaves an effect whose call was not entered.
  lemma CrashLeavesEffect()
    ensures exists s: State :: Reachable(Registries(), s) && s.threads == map[]
              && EffectOf(SoleCall()) in s.db.effects && !Entered(s.entered, "call")
  {
    StartedIsReachable();
    CrashHappens();
    AloneIsReachable(Registries(), 0, StartedIn0({}));
    hide Next, Reachable, ReachableAlone, Registries;
    Reaches(Registries(), StartedIn0({}), Crash(0), CrashStep(StartedIn0({}), 0));
    assert CrashStep(StartedIn0({}), 0).threads == map[];
  }

  lemma CrashHappens()
    ensures Next(Registries(), StartedIn0({}), Crash(0)) == Some(CrashStep(StartedIn0({}), 0))
  {
  }
}
