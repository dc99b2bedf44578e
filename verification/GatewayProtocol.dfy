// The gateway as a concurrent protocol: any number of processes over one database, each an
// event loop whose invocations interleave at every await and between every two database
// transactions, with approvals, suspensions and crashes in between.

module GatewayProtocol {
  import opened GatewayDecision
  import opened GatewayTables
  import opened Prelude
  import opened RunStates

  datatype Ending = Resolves(result: CallResult) | Throws

  // Where an invocation stands once its opening transaction said "execute". Up to Started and
  // in the failure path it holds its event loop; from Executing on it awaits.
  datatype Pc =
    | Ready
    | RunChecked
    | ResultChecked
    | Started
    | Executing
    | Settled(ending: Ending)
    | Joined(executor: nat)
    | FailReading(reason: Reason)
    | FailWriting(reason: Reason)
    | Ended(ending: Ending)

  // A process may hold several registries, each with its own providers, over one event loop and
  // one table of flights. `clear`: no suspension was active on the grant when the opening transaction committed.
  datatype Thread = Thread(process: nat, registry: nat, e: Executable, clear: bool, pc: Pc)

  // One entry into a provider's execute.
  datatype Entry = Entry(thread: nat, e: Executable, clear: bool)

  datatype Flight = Flight(process: nat, call: string)

  datatype State = State(
    db: Db,
    threads: map<nat, Thread>,
    next: nat,
    busy: map<nat, nat>,
    inflight: map<Flight, nat>,
    entered: seq<Entry>)

  datatype Step =
    | Invoke(process: nat, registry: nat, call: Call)
    | CheckRun(t: nat)
    | CheckResult(t: nat)
    | EnsureEffect(t: nat)
    | Enter(t: nat)
    | Settle(t: nat, status: CallStatus, output: string)
    | Cleanup(t: nat)
    | JoinReturn(t: nat)
    | FailRead(t: nat)
    | FailWrite(t: nat)
    | Crash(process: nat)
    | Resolve(approval: string, verdict: ApprovalStatus)
    | RequestOther(approval: string, row: Approval)
    | Outside(facts: Facts, runs: map<string, Run>, capabilities: map<CapabilityKey, Capability>)

  predicate HoldsLoop(pc: Pc) {
    pc.Ready? || pc.RunChecked? || pc.ResultChecked? || pc.Started?
    || pc.FailReading? || pc.FailWriting?
  }

  // ---- Steps ---------------------------------------------------------------

  // The thread moves on and keeps its event loop exactly while it holds it.
  function Move(s: State, t: nat, pc: Pc): State
    requires t in s.threads
  {
    var th := s.threads[t];
    s.(threads := s.threads[t := th.(pc := pc)],
       busy := if HoldsLoop(th.pc) && !HoldsLoop(pc) then s.busy - {th.process} else s.busy)
  }

  ghost function OpenStep(cfg: Config, s: State, p: nat, g: nat, call: Call): State {
    match InvokeTx(cfg, s.db, call)
    case Thrown(_) => s
    case Answered(after, _) => s.(db := after)
    case Execute(after, e) =>
      s.(db := after,
         threads := s.threads[s.next := Thread(p, g, e, GrantOf(call) !in s.db.facts.suspended, Ready)],
         next := s.next + 1,
         busy := s.busy[p := s.next])
  }

  function CheckRunStep(s: State, t: nat): State
    requires t in s.threads
  {
    if RunIsExecutable(s.db, s.threads[t].e.call) then Move(s, t, RunChecked)
    else Move(s, t, Ended(Throws))
  }

  function CheckResultStep(cfg: Config, s: State, t: nat): State
    requires t in s.threads
  {
    var call := s.threads[t].e.call;
    var existing := StoredResult(s.db, call);
    if existing.Some? then Move(s, t, Ended(Resolves(existing.value)))
    else if call.provider !in cfg.providers then Move(s, t, FailReading(NoProvider))
    else Move(s, t, ResultChecked)
  }

  // The transaction that inserts the durable effect, and the in-memory lookup after it.
  function EnsureEffectStep(s: State, t: nat): State
    requires t in s.threads
  {
    var th := s.threads[t];
    var flight := Flight(th.process, th.e.call.id);
    var (after, created) := StartOnce(s.db, th.e.call);
    if created then Move(s.(db := after), t, Started)
    else if flight in s.inflight then Move(s, t, Joined(s.inflight[flight]))
    else Move(s, t, FailReading(AlreadyStarted))
  }

  function EnterStep(s: State, t: nat): State
    requires t in s.threads
  {
    var th := s.threads[t];
    Move(s.(entered := s.entered + [Entry(t, th.e, th.clear)],
            inflight := s.inflight[Flight(th.process, th.e.call.id) := t]),
         t, Executing)
  }

  function RecordStep(s: State, t: nat, result: CallResult, done: Ending -> Pc): State
    requires t in s.threads
  {
    match RecordResult(s.db, s.threads[t].e.call.id, result)
    case Ok(after) => Move(s.(db := after), t, done(Resolves(result)))
    case Err(_) => Move(s, t, done(Throws))
  }

  function CleanupStep(s: State, t: nat): State
    requires t in s.threads && s.threads[t].pc.Settled?
  {
    var th := s.threads[t];
    Move(s.(inflight := s.inflight - {Flight(th.process, th.e.call.id)}), t, Ended(th.pc.ending))
  }

  function FailReadStep(s: State, t: nat): State
    requires t in s.threads && s.threads[t].pc.FailReading?
  {
    var th := s.threads[t];
    var existing := StoredResult(s.db, th.e.call);
    if existing.Some? then Move(s, t, Ended(Resolves(existing.value)))
    else Move(s, t, FailWriting(th.pc.reason))
  }

  function CrashStep(s: State, p: nat): State {
    s.(threads := map t | t in s.threads && s.threads[t].process != p :: s.threads[t],
       busy := s.busy - {p},
       inflight := map f | f in s.inflight && f.process != p :: s.inflight[f])
  }

  // `cfg` tells what each registry brings. None when the step is not enabled. A process runs
  // another invocation only while no invocation of its holds the event loop.
  ghost function Next(cfg: nat -> Config, s: State, step: Step): Option<State> {
    match step
    case Invoke(p, g, call) =>
      if p in s.busy then None else Some(OpenStep(cfg(g), s, p, g, call))
    case CheckRun(t) =>
      if t in s.threads && s.threads[t].pc.Ready? then Some(CheckRunStep(s, t)) else None
    case CheckResult(t) =>
      if t in s.threads && s.threads[t].pc.RunChecked?
      then Some(CheckResultStep(cfg(s.threads[t].registry), s, t)) else None
    case EnsureEffect(t) =>
      if t in s.threads && s.threads[t].pc.ResultChecked? then Some(EnsureEffectStep(s, t)) else None
    case Enter(t) =>
      if t in s.threads && s.threads[t].pc.Started? then Some(EnterStep(s, t)) else None
    case Settle(t, status, output) =>
      if t in s.threads && s.threads[t].pc.Executing? && s.threads[t].process !in s.busy
      then Some(RecordStep(s, t, CallResult(status, ProviderAnswered, output), x => Settled(x)))
      else None
    case Cleanup(t) =>
      if t in s.threads && s.threads[t].pc.Settled? && s.threads[t].process !in s.busy
      then Some(CleanupStep(s, t)) else None
    case JoinReturn(t) =>
      if t in s.threads && s.threads[t].pc.Joined? && s.threads[t].process !in s.busy
         && s.threads[t].pc.executor in s.threads
      then
        (var x := s.threads[s.threads[t].pc.executor].pc;
         if x.Settled? || x.Ended? then Some(Move(s, t, Ended(x.ending))) else None)
      else None
    case FailRead(t) =>
      if t in s.threads && s.threads[t].pc.FailReading? then Some(FailReadStep(s, t)) else None
    case FailWrite(t) =>
      if t in s.threads && s.threads[t].pc.FailWriting?
      then Some(RecordStep(s, t, FailureFor(s.threads[t].pc.reason), x => Ended(x)))
      else None
    case Crash(p) => Some(CrashStep(s, p))
    case Resolve(a, verdict) =>
      if a in s.db.approvals && s.db.approvals[a].status == Pending
      then Some(s.(db := s.db.(approvals := s.db.approvals[a := s.db.approvals[a].(status := verdict)])))
      else None
    case RequestOther(a, row) =>
      if a !in s.db.approvals && row.target == OtherTarget
      then Some(s.(db := s.db.(approvals := s.db.approvals[a := row]))) else None
    case Outside(facts, runs, capabilities) =>
      if OnlyGrows(s.db, facts, capabilities)
      then Some(s.(db := s.db.(facts := facts, runs := runs, capabilities := capabilities))) else None
  }

  // Task envelopes and capabilities are insert-only; everything else others may change.
  ghost predicate OnlyGrows(
      db: Db, facts: Facts, capabilities: map<CapabilityKey, Capability>)
  {
    && (forall k :: k in db.facts.tasks ==> k in facts.tasks && facts.tasks[k] == db.facts.tasks[k])
    && (forall k :: k in db.capabilities ==>
         k in capabilities && capabilities[k] == db.capabilities[k])
  }

  ghost function After(cfg: nat -> Config, s: State, steps: seq<Step>): Option<State> {
    if steps == [] then Some(s)
    else
      var before := After(cfg, s, steps[..|steps| - 1]);
      if before.None? then None else Next(cfg, before.value, steps[|steps| - 1])
  }

  ghost predicate Initial(s: State) {
    && s.db.calls == map[] && s.db.callKeys == map[] && s.db.decisions == map[]
    && s.db.results == map[] && s.db.effects == {}
    && (forall a :: a in s.db.approvals ==> s.db.approvals[a].target == OtherTarget)
    && s.threads == map[] && s.busy == map[] && s.inflight == map[] && s.entered == []
  }

  // ---- The invariant -------------------------------------------------------

  ghost predicate Entered(entered: seq<Entry>, callId: string) {
    exists x :: x in entered && x.e.call.id == callId
  }

  ghost predicate EndingOk(s: State, e: Executable, ending: Ending) {
    ending.Resolves? ==>
      e.call.id in s.db.results && s.db.results[e.call.id] == ending.result
  }

  ghost predicate PcOk(s: State, t: nat)
    requires t in s.threads
  {
    var th := s.threads[t];
    var id := th.e.call.id;
    var flight := Flight(th.process, id);
    match th.pc
    case Started => EffectOf(th.e.call) in s.db.effects && !Entered(s.entered, id)
    case Executing =>
      && Entry(t, th.e, th.clear) in s.entered
      && flight in s.inflight && s.inflight[flight] == t
    case Settled(ending) =>
      && Entry(t, th.e, th.clear) in s.entered
      && id in s.db.results && EndingOk(s, th.e, ending)
      && flight in s.inflight && s.inflight[flight] == t
    case Joined(x) =>
      && x in s.threads && s.threads[x].process == th.process && s.threads[x].e.call.id == id
      && (s.threads[x].pc.Executing? || s.threads[x].pc.Settled? || s.threads[x].pc.Ended?)
    case Ended(ending) => EndingOk(s, th.e, ending)
    case _ => true
  }

  ghost predicate ThreadOk(s: State, t: nat) {
    t in s.threads ==>
      && t < s.next && s.threads[t].clear && Licensed(s.db, s.threads[t].e)
      && (HoldsLoop(s.threads[t].pc) ==>
           s.threads[t].process in s.busy && s.busy[s.threads[t].process] == t)
      && PcOk(s, t)
  }

  ghost predicate StartedApart(s: State, t: nat, u: nat) {
    t in s.threads && u in s.threads && t != u && s.threads[t].pc.Started? && s.threads[u].pc.Started?
    ==> s.threads[t].e.call.id != s.threads[u].e.call.id
  }

  ghost predicate EntryOk(s: State, x: Entry) {
    x in s.entered ==>
      x.thread < s.next && x.clear && Licensed(s.db, x.e) && EffectOf(x.e.call) in s.db.effects
  }

  ghost predicate EntriesApart(entered: seq<Entry>) {
    forall i, j | 0 <= i < j < |entered| :: entered[i].e.call.id != entered[j].e.call.id
  }

  ghost predicate ResultOk(s: State, id: string) {
    id in s.db.results && s.db.results[id].status == Succeeded ==> Entered(s.entered, id)
  }

  ghost predicate LoopOk(s: State, p: nat) {
    p in s.busy ==>
      && s.busy[p] in s.threads && s.threads[s.busy[p]].process == p
      && HoldsLoop(s.threads[s.busy[p]].pc)
  }

  ghost predicate FlightOk(s: State, f: Flight) {
    f in s.inflight ==>
      && s.inflight[f] in s.threads
      && var th := s.threads[s.inflight[f]];
         && th.process == f.process && th.e.call.id == f.call
         && (th.pc.Executing? || th.pc.Settled?)
  }

  ghost predicate Inv(s: State) {
    && Consistent(s.db)
    && (forall t :: ThreadOk(s, t))
    && (forall t, u :: StartedApart(s, t, u))
    && (forall x :: EntryOk(s, x))
    && EntriesApart(s.entered)
    && (forall id :: ResultOk(s, id))
    && (forall p :: LoopOk(s, p))
    && (forall f :: FlightOk(s, f))
  }

  // ---- Every step keeps it -------------------------------------------------

  lemma InitialIsInv(s: State)
    requires Initial(s)
    ensures Inv(s)
  {
  }

  ghost predicate NewResultEarned(s: State, after: Db, id: string) {
    id in after.results && id !in s.db.results && after.results[id].status == Succeeded ==>
      Entered(s.entered, id)
  }

  // Steps that touch the database only.
  lemma DbStepKeeps(s: State, after: Db)
    requires Inv(s) && Consistent(after) && Extends(s.db, after)
    requires forall id :: NewResultEarned(s, after, id)
    ensures Inv(s.(db := after))
  {
    hide Consistent, Entered;
    var n := s.(db := after);
    forall t ensures ThreadOk(n, t) {
      assert ThreadOk(s, t);
      if t in s.threads { LicenceLasts(s.db, after, s.threads[t].e); }
    }
    forall t, u ensures StartedApart(n, t, u) { assert StartedApart(s, t, u); }
    forall x ensures EntryOk(n, x) {
      assert EntryOk(s, x);
      if x in s.entered { LicenceLasts(s.db, after, x.e); }
    }
    forall id ensures ResultOk(n, id) { assert ResultOk(s, id) && NewResultEarned(s, after, id); }
    forall p ensures LoopOk(n, p) { assert LoopOk(s, p); }
    forall f ensures FlightOk(n, f) { assert FlightOk(s, f); }
  }

  // A thread that is neither executing nor finished moves without entering anything.
  lemma QuietMoveKeeps(s: State, t: nat, pc: Pc)
    requires Inv(s) && t in s.threads
    requires var old_ := s.threads[t].pc; !old_.Executing? && !old_.Settled? && !old_.Ended?
    requires HoldsLoop(pc) ==> HoldsLoop(s.threads[t].pc)
    requires !pc.Started? && !pc.Executing? && !pc.Settled?
    requires PcOk(Move(s, t, pc), t)
    ensures Inv(Move(s, t, pc))
  {
    hide Consistent, Entered, Licensed;
    var n := Move(s, t, pc);
    assert ThreadOk(s, t);
    forall u ensures ThreadOk(n, u) { assert ThreadOk(s, u); }
    forall u, v ensures StartedApart(n, u, v) { assert StartedApart(s, u, v); }
    forall x ensures EntryOk(n, x) { assert EntryOk(s, x); }
    forall id ensures ResultOk(n, id) { assert ResultOk(s, id); }
    forall p ensures LoopOk(n, p) { assert LoopOk(s, p); }
    forall f ensures FlightOk(n, f) { assert FlightOk(s, f); }
  }

  lemma EffectKeepsTables(db: Db, effect: EffectKey)
    requires Consistent(db)
    ensures var after := db.(effects := db.effects + {effect});
            Consistent(after) && Extends(db, after)
  {
    SameTables(db, db.(effects := db.effects + {effect}));
  }

  lemma StartKeeps(s: State, t: nat)
    requires Inv(s) && t in s.threads && s.threads[t].pc.ResultChecked?
    requires EffectOf(s.threads[t].e.call) !in s.db.effects
    ensures Inv(EnsureEffectStep(s, t))
  {
    hide Consistent, Extends, Licensed, Entered, HoldsLoop;
    var th := s.threads[t];
    var after := s.db.(effects := s.db.effects + {EffectOf(th.e.call)});
    EffectKeepsTables(s.db, EffectOf(th.e.call));
    DbStepKeeps(s, after);
    NotYetEntered(s, t);
    forall u | u in s.threads && s.threads[u].pc.Started?
      ensures s.threads[u].e.call.id != th.e.call.id
    {
      SameEffect(s, t, u);
      assert ThreadOk(s, u);
    }
    MarkStartedKeeps(s.(db := after), t);
  }

  // Two invocations of one call stand for the same recorded call, hence the same effect.
  lemma SameEffect(s: State, t: nat, u: nat)
    requires Inv(s) && t in s.threads && u in s.threads
    ensures s.threads[t].e.call.id == s.threads[u].e.call.id ==>
      s.threads[t].e.call == s.threads[u].e.call
  {
    assert ThreadOk(s, t) && ThreadOk(s, u);
  }

  lemma MarkStartedKeeps(s: State, t: nat)
    requires Inv(s) && t in s.threads && s.threads[t].pc.ResultChecked?
    requires EffectOf(s.threads[t].e.call) in s.db.effects
    requires !Entered(s.entered, s.threads[t].e.call.id)
    requires forall u :: u in s.threads && s.threads[u].pc.Started? ==>
      s.threads[u].e.call.id != s.threads[t].e.call.id
    ensures Inv(Move(s, t, Started))
  {
    hide Consistent, Entered, Licensed;
    var n := Move(s, t, Started);
    assert ThreadOk(s, t);
    forall u ensures ThreadOk(n, u) { assert ThreadOk(s, u); }
    forall u, v ensures StartedApart(n, u, v) { assert StartedApart(s, u, v); }
    forall x ensures EntryOk(n, x) { assert EntryOk(s, x); }
    forall id ensures ResultOk(n, id) { assert ResultOk(s, id); }
    forall p ensures LoopOk(n, p) { assert LoopOk(s, p); }
    forall f ensures FlightOk(n, f) { assert FlightOk(s, f); }
  }

  // A change of facts, runs or effects alone leaves the tables consistent.
  lemma SameTables(before: Db, after: Db)
    requires Consistent(before) && Extends(before, after)
    requires after.calls == before.calls && after.callKeys == before.callKeys
    requires after.decisions == before.decisions && after.results == before.results
    requires after.approvals == before.approvals
    ensures Consistent(after)
  {
    SameCallsAndApprovals(before, after);
    forall id ensures DecisionBacked(after, id) && ApprovalPresent(after, id) {
      assert DecisionBacked(before, id) && ApprovalPresent(before, id);
    }
    forall a ensures ApprovalBacked(after, a) { assert ApprovalBacked(before, a); }
  }

  // Entries leave their effect behind, so a call without one was never entered.
  lemma NotYetEntered(s: State, t: nat)
    requires Inv(s) && t in s.threads && EffectOf(s.threads[t].e.call) !in s.db.effects
    ensures !Entered(s.entered, s.threads[t].e.call.id)
  {
    assert ThreadOk(s, t);
    forall x | x in s.entered ensures x.e.call.id != s.threads[t].e.call.id {
      assert EntryOk(s, x);
    }
  }

  lemma EnterKeeps(s: State, t: nat)
    requires Inv(s) && t in s.threads && s.threads[t].pc.Started?
    ensures Inv(EnterStep(s, t))
  {
    hide Consistent, Licensed, Entered;
    var n := EnterStep(s, t);
    var th := s.threads[t];
    assert ThreadOk(s, t);
    FlightsAreEntered(s);
    EntryAdded(s.entered, Entry(t, th.e, th.clear));
    forall u ensures ThreadOk(n, u) { assert ThreadOk(s, u) && StartedApart(s, t, u); }
    forall u, v ensures StartedApart(n, u, v) { assert StartedApart(s, u, v); }
    forall x ensures EntryOk(n, x) { assert EntryOk(s, x); }
    forall c ensures ResultOk(n, c) { assert ResultOk(s, c); }
    forall p ensures LoopOk(n, p) { assert LoopOk(s, p); }
    forall f ensures FlightOk(n, f) { assert FlightOk(s, f); }
  }

  lemma EntryAdded(entered: seq<Entry>, x: Entry)
    requires EntriesApart(entered) && !Entered(entered, x.e.call.id)
    ensures EntriesApart(entered + [x])
    ensures forall y :: y in entered + [x] <==> y in entered || y == x
    ensures forall c :: Entered(entered + [x], c) <==> Entered(entered, c) || c == x.e.call.id
  {
    var n := entered + [x];
    forall i, j | 0 <= i < j < |n| ensures n[i].e.call.id != n[j].e.call.id {
      assert n[i] in entered;
    }
    assert x in n;
    forall c ensures Entered(n, c) <==> Entered(entered, c) || c == x.e.call.id {
      if Entered(entered, c) {
        var y :| y in entered && y.e.call.id == c;
        assert y in n;
      }
    }
  }

  lemma FlightsAreEntered(s: State)
    requires Inv(s)
    ensures forall f :: f in s.inflight ==> Entered(s.entered, f.call)
  {
    forall f | f in s.inflight ensures Entered(s.entered, f.call) {
      assert FlightOk(s, f);
      var u := s.inflight[f];
      assert ThreadOk(s, u);
      assert Entry(u, s.threads[u].e, s.threads[u].clear) in s.entered;
    }
  }

  lemma SettleMoveKeeps(s: State, t: nat, ending: Ending)
    requires Inv(s) && t in s.threads && s.threads[t].pc.Executing?
    requires s.threads[t].e.call.id in s.db.results && EndingOk(s, s.threads[t].e, ending)
    ensures Inv(Move(s, t, Settled(ending)))
  {
    hide Consistent, Licensed, Entered;
    var n := Move(s, t, Settled(ending));
    assert ThreadOk(s, t);
    forall u ensures ThreadOk(n, u) { assert ThreadOk(s, u); }
    forall u, v ensures StartedApart(n, u, v) { assert StartedApart(s, u, v); }
    forall x ensures EntryOk(n, x) { assert EntryOk(s, x); }
    forall c ensures ResultOk(n, c) { assert ResultOk(s, c); }
    forall p ensures LoopOk(n, p) { assert LoopOk(s, p); }
    forall f ensures FlightOk(n, f) { assert FlightOk(s, f); }
  }

  lemma CleanupKeeps(s: State, t: nat)
    requires Inv(s) && t in s.threads && s.threads[t].pc.Settled?
    ensures Inv(CleanupStep(s, t))
  {
    hide Consistent, Licensed, Entered;
    var n := CleanupStep(s, t);
    assert ThreadOk(s, t);
    forall u ensures ThreadOk(n, u) { assert ThreadOk(s, u); }
    forall u, v ensures StartedApart(n, u, v) { assert StartedApart(s, u, v); }
    forall x ensures EntryOk(n, x) { assert EntryOk(s, x); }
    forall c ensures ResultOk(n, c) { assert ResultOk(s, c); }
    forall p ensures LoopOk(n, p) { assert LoopOk(s, p); }
    forall f ensures FlightOk(n, f) { assert FlightOk(s, f); }
  }

  lemma CrashKeeps(s: State, p: nat)
    requires Inv(s)
    ensures Inv(CrashStep(s, p))
  {
    hide Consistent, Licensed, Entered;
    var n := CrashStep(s, p);
    forall u ensures ThreadOk(n, u) { assert ThreadOk(s, u); }
    forall u, v ensures StartedApart(n, u, v) { assert StartedApart(s, u, v); }
    forall x ensures EntryOk(n, x) { assert EntryOk(s, x); }
    forall c ensures ResultOk(n, c) { assert ResultOk(s, c); }
    forall q ensures LoopOk(n, q) { assert LoopOk(s, q); }
    forall f ensures FlightOk(n, f) { assert FlightOk(s, f); }
  }

  // A result written by the gateway: `done` tells the thread how its record ended.
  lemma RecordResultDb(s: State, t: nat, result: CallResult)
    requires Inv(s) && t in s.threads
    requires result.status == Succeeded ==> s.threads[t].pc.Executing?
    requires RecordResult(s.db, s.threads[t].e.call.id, result).Ok?
    ensures Inv(s.(db := RecordResult(s.db, s.threads[t].e.call.id, result).value))
  {
    hide Consistent, Extends;
    assert ThreadOk(s, t);
    var id := s.threads[t].e.call.id;
    var after := RecordResult(s.db, id, result).value;
    RecordResultKeeps(s.db, id, result);
    DbStepKeeps(s, after);
  }

  lemma SettleKeeps(s: State, t: nat, answer: CallResult)
    requires Inv(s) && t in s.threads && s.threads[t].pc.Executing?
    ensures Inv(RecordStep(s, t, answer, x => Settled(x)))
  {
    hide Inv, Consistent;
    var id := s.threads[t].e.call.id;
    if RecordResult(s.db, id, answer).Ok? {
      RecordResultDb(s, t, answer);
      SettleMoveKeeps(s.(db := RecordResult(s.db, id, answer).value), t, Resolves(answer));
    } else {
      SettleMoveKeeps(s, t, Throws);
    }
  }

  lemma FailWriteKeeps(s: State, t: nat, failure: CallResult)
    requires Inv(s) && t in s.threads && s.threads[t].pc.FailWriting?
    requires failure.status == Unsuccessful
    ensures Inv(RecordStep(s, t, failure, x => Ended(x)))
  {
    hide Inv, Consistent;
    var id := s.threads[t].e.call.id;
    if RecordResult(s.db, id, failure).Ok? {
      RecordResultDb(s, t, failure);
      QuietMoveKeeps(s.(db := RecordResult(s.db, id, failure).value), t, Ended(Resolves(failure)));
    } else {
      QuietMoveKeeps(s, t, Ended(Throws));
    }
  }

  lemma OpenKeeps(cfg: Config, s: State, p: nat, g: nat, call: Call)
    requires Inv(s) && p !in s.busy
    ensures Inv(OpenStep(cfg, s, p, g, call))
  {
    hide Consistent, InvokeTx, Licensed, Extends, Entered;
    InvokeIsSound(cfg, s.db, call);
    var r := InvokeTx(cfg, s.db, call);
    if !r.Thrown? {
      DbStepKeeps(s, r.db);
      if r.Execute? {
        AddThreadKeeps(s.(db := r.db), p, g, r.executable, GrantOf(call) !in s.db.facts.suspended);
      }
    }
  }

  lemma AddThreadKeeps(s: State, p: nat, g: nat, e: Executable, clear: bool)
    requires Inv(s) && p !in s.busy && Licensed(s.db, e) && clear
    ensures Inv(s.(threads := s.threads[s.next := Thread(p, g, e, clear, Ready)],
                   next := s.next + 1, busy := s.busy[p := s.next]))
  {
    hide Consistent, Licensed, Entered;
    var n := s.(threads := s.threads[s.next := Thread(p, g, e, clear, Ready)],
                next := s.next + 1, busy := s.busy[p := s.next]);
    assert ThreadOk(s, s.next);
    forall u ensures ThreadOk(n, u) { assert ThreadOk(s, u); }
    forall u, v ensures StartedApart(n, u, v) { assert StartedApart(s, u, v); }
    forall x ensures EntryOk(n, x) { assert EntryOk(s, x); }
    forall c ensures ResultOk(n, c) { assert ResultOk(s, c); }
    forall q ensures LoopOk(n, q) { assert LoopOk(s, q); }
    forall f ensures FlightOk(n, f) { assert FlightOk(s, f); }
  }

  lemma ResolveKeeps(db: Db, a: string, verdict: ApprovalStatus)
    requires Consistent(db) && a in db.approvals && db.approvals[a].status == Pending
    ensures var after := db.(approvals := db.approvals[a := db.approvals[a].(status := verdict)]);
            Consistent(after) && Extends(db, after)
  {
    var after := db.(approvals := db.approvals[a := db.approvals[a].(status := verdict)]);
    ApprovalsKept(db, after);
    forall b ensures ApprovalBacked(after, b) { assert ApprovalBacked(db, b); }
    forall b, c ensures ApprovalsApart(after, b, c) { assert ApprovalsApart(db, b, c); }
  }

  lemma RequestOtherKeeps(db: Db, a: string, row: Approval)
    requires Consistent(db) && a !in db.approvals && row.target == OtherTarget
    ensures var after := db.(approvals := db.approvals[a := row]);
            Consistent(after) && Extends(db, after)
  {
    var after := db.(approvals := db.approvals[a := row]);
    ApprovalsKept(db, after);
    forall b ensures ApprovalBacked(after, b) { assert ApprovalBacked(db, b); }
    forall b, c ensures ApprovalsApart(after, b, c) { assert ApprovalsApart(db, b, c); }
  }

  // A changed approvals table that keeps every approval's target keeps the calls' side.
  lemma ApprovalsKept(db: Db, after: Db)
    requires Consistent(db) && after == db.(approvals := after.approvals)
    requires forall b :: b in db.approvals ==>
      && b in after.approvals && after.approvals[b].target == db.approvals[b].target
      && after.approvals[b].workspace == db.approvals[b].workspace
    ensures Indexed(after) && (forall id :: DecisionBacked(after, id))
    ensures forall id :: ApprovalPresent(after, id)
  {
    forall id ensures CallIndexed(after, id) { assert CallIndexed(db, id); }
    forall k ensures KeyIndexed(after, k) { assert KeyIndexed(db, k); }
    forall id ensures DecisionBacked(after, id) { assert DecisionBacked(db, id); }
    forall id ensures ApprovalPresent(after, id) {
      assert ApprovalPresent(db, id);
      if id in db.calls && HasApproval(db.approvals, db.calls[id]) {
        var b :| b in db.approvals && Targets(db.approvals[b], db.calls[id].workspace, db.calls[id].id);
        assert Targets(after.approvals[b], db.calls[id].workspace, db.calls[id].id);
      }
    }
  }

  lemma OutsideKeeps(
      db: Db, facts: Facts, runs: map<string, Run>, capabilities: map<CapabilityKey, Capability>)
    requires Consistent(db) && OnlyGrows(db, facts, capabilities)
    ensures var after := db.(facts := facts, runs := runs, capabilities := capabilities);
            Consistent(after) && Extends(db, after)
  {
    SameTables(db, db.(facts := facts, runs := runs, capabilities := capabilities));
  }

  lemma EnsureEffectKeeps(s: State, t: nat)
    requires Inv(s) && t in s.threads && s.threads[t].pc.ResultChecked?
    ensures Inv(EnsureEffectStep(s, t))
  {
    hide Consistent, Licensed, Entered, Extends;
    var th := s.threads[t];
    var flight := Flight(th.process, th.e.call.id);
    assert ThreadOk(s, t) && FlightOk(s, flight);
    if EffectOf(th.e.call) !in s.db.effects {
      StartKeeps(s, t);
    } else if flight in s.inflight {
      QuietMoveKeeps(s, t, Joined(s.inflight[flight]));
    } else {
      QuietMoveKeeps(s, t, FailReading(AlreadyStarted));
    }
  }

  lemma CheckResultKeeps(cfg: Config, s: State, t: nat)
    requires Inv(s) && t in s.threads && s.threads[t].pc.RunChecked?
    ensures Inv(CheckResultStep(cfg, s, t))
  {
    hide Inv;
    var call := s.threads[t].e.call;
    if call.id in s.db.results {
      QuietMoveKeeps(s, t, Ended(Resolves(s.db.results[call.id])));
    } else if call.provider !in cfg.providers {
      QuietMoveKeeps(s, t, FailReading(NoProvider));
    } else {
      QuietMoveKeeps(s, t, ResultChecked);
    }
  }

  lemma FailReadKeeps(s: State, t: nat)
    requires Inv(s) && t in s.threads && s.threads[t].pc.FailReading?
    ensures Inv(FailReadStep(s, t))
  {
    hide Inv;
    var th := s.threads[t];
    if th.e.call.id in s.db.results {
      QuietMoveKeeps(s, t, Ended(Resolves(s.db.results[th.e.call.id])));
    } else {
      QuietMoveKeeps(s, t, FailWriting(th.pc.reason));
    }
  }

  // The joiner ends as its executor did: on the stored result of its own call, if on any.
  lemma JoinReturnKeeps(s: State, t: nat)
    requires Inv(s) && t in s.threads && s.threads[t].pc.Joined?
    requires s.threads[t].pc.executor in s.threads
    requires var x := s.threads[s.threads[t].pc.executor].pc; x.Settled? || x.Ended?
    ensures var ending := s.threads[s.threads[t].pc.executor].pc.ending;
            && Inv(Move(s, t, Ended(ending)))
            && (ending.Resolves? ==>
                 StoredResult(s.db, s.threads[t].e.call) == Some(ending.result))
  {
    hide Consistent, Licensed, Entered;
    assert ThreadOk(s, t) && ThreadOk(s, s.threads[t].pc.executor);
    QuietMoveKeeps(s, t, Ended(s.threads[s.threads[t].pc.executor].pc.ending));
  }

  lemma InvIsConsistent(s: State)
    requires Inv(s)
    ensures Consistent(s.db)
  {
  }

  lemma StepKeeps(cfg: nat -> Config, s: State, step: Step)
    requires Inv(s) && Next(cfg, s, step).Some?
    ensures Inv(Next(cfg, s, step).value)
  {
    hide Inv, Extends, OpenStep, EnterStep, RecordStep, CleanupStep, CrashStep;
    hide CheckResultStep, EnsureEffectStep, FailReadStep;
    assert Consistent(s.db) by { InvIsConsistent(s); }
    match step
    case Invoke(p, g, call) => OpenKeeps(cfg(g), s, p, g, call);
    case CheckRun(t) =>
      QuietMoveKeeps(s, t, if RunIsExecutable(s.db, s.threads[t].e.call) then RunChecked else Ended(Throws));
    case CheckResult(t) => CheckResultKeeps(cfg(s.threads[t].registry), s, t);
    case EnsureEffect(t) => EnsureEffectKeeps(s, t);
    case JoinReturn(t) => JoinReturnKeeps(s, t);
    case FailRead(t) => FailReadKeeps(s, t);
    case Enter(t) => EnterKeeps(s, t);
    case Settle(t, status, output) => SettleKeeps(s, t, CallResult(status, ProviderAnswered, output));
    case Cleanup(t) => CleanupKeeps(s, t);
    case FailWrite(t) => FailWriteKeeps(s, t, FailureFor(s.threads[t].pc.reason));
    case Crash(p) => CrashKeeps(s, p);
    case Resolve(a, verdict) =>
      ResolveKeeps(s.db, a, verdict);
      DbStepKeeps(s, s.db.(approvals := s.db.approvals[a := s.db.approvals[a].(status := verdict)]));
    case RequestOther(a, row) =>
      RequestOtherKeeps(s.db, a, row);
      DbStepKeeps(s, s.db.(approvals := s.db.approvals[a := row]));
    case Outside(facts, runs, capabilities) =>
      OutsideKeeps(s.db, facts, runs, capabilities);
      DbStepKeeps(s, s.db.(facts := facts, runs := runs, capabilities := capabilities));
  }

  lemma {:induction false} RunKeeps(cfg: nat -> Config, s: State, steps: seq<Step>)
    requires Inv(s) && After(cfg, s, steps).Some?
    ensures Inv(After(cfg, s, steps).value)
  {
    hide Inv, Next;
    if steps != [] {
      RunKeeps(cfg, s, steps[..|steps| - 1]);
      StepKeeps(cfg, After(cfg, s, steps[..|steps| - 1]).value, steps[|steps| - 1]);
    }
  }

  ghost predicate Reachable(cfg: nat -> Config, s: State) {
    exists start, steps :: Initial(start) && After(cfg, start, steps) == Some(s)
  }

  lemma ReachableIsInv(cfg: nat -> Config, s: State)
    requires Reachable(cfg, s)
    ensures Inv(s)
  {
    var start, steps :| Initial(start) && After(cfg, start, steps) == Some(s);
    InitialIsInv(start);
    RunKeeps(cfg, start, steps);
  }
}
