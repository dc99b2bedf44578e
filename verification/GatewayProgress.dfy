// No invocation is ever stuck: from every reachable state each thread can be driven to its
// end by steps of its own process alone.

module GatewayProgress {
  import opened GatewayDecision
  import opened GatewayLimits
  import opened GatewayProtocol
  import opened GatewayTables
  import opened Prelude

  // Steps of threads that process p has.
  ghost predicate OwnSteps(s: State, p: nat, steps: seq<Step>) {
    forall step :: step in steps ==>
      && Mover(step).Some? && Mover(step).value in s.threads
      && s.threads[Mover(step).value].process == p
  }

  // The threads are the same, up to where they stand.
  ghost predicate SameThreads(s: State, n: State) {
    && n.threads.Keys == s.threads.Keys
    && forall t :: t in s.threads ==>
         n.threads[t].process == s.threads[t].process && n.threads[t].e == s.threads[t].e
  }

  ghost predicate Drives(cfg: nat -> Config, s: State, p: nat, steps: seq<Step>, n: State) {
    After(cfg, s, steps) == Some(n) && OwnSteps(s, p, steps) && SameThreads(s, n) && Inv(n)
  }

  lemma {:induction false} AfterBoth(cfg: nat -> Config, s: State, a: seq<Step>, b: seq<Step>)
    requires After(cfg, s, a).Some?
    ensures After(cfg, s, a + b) == After(cfg, After(cfg, s, a).value, b)
  {
    hide Next;
    if b == [] {
      assert a + b == a;
    } else {
      var n := |b| - 1;
      AfterBoth(cfg, s, a, b[..n]);
      assert (a + b)[..|a + b| - 1] == a + b[..n];
    }
  }

  lemma DrivesFurther(
      cfg: nat -> Config, s: State, p: nat, a: seq<Step>, m: State, b: seq<Step>, n: State)
    requires Drives(cfg, s, p, a, m) && Drives(cfg, m, p, b, n)
    ensures Drives(cfg, s, p, a + b, n)
  {
    hide After, Inv, Next;
    AfterBoth(cfg, s, a, b);
  }

  lemma DrivesNowhere(cfg: nat -> Config, s: State, p: nat)
    requires Inv(s)
    ensures Drives(cfg, s, p, [], s)
  {
  }

  lemma DrivesOnce(cfg: nat -> Config, s: State, step: Step)
    requires Inv(s) && Next(cfg, s, step).Some? && Mover(step).Some?
    ensures var t, n := Mover(step).value, Next(cfg, s, step).value;
            && MovesTo(s, n, step, t) && Drives(cfg, s, s.threads[t].process, [step], n)
  {
    StepKeeps(cfg, s, step);
    ThreadMoves(cfg, s, step);
    hide Inv, Next;
    assert [step][..0] == [];
    assert After(cfg, s, []) == Some(s);
  }

  // Only thread t moved, and the event loop is free.
  ghost predicate Frees(cfg: nat -> Config, s: State, t: nat, steps: seq<Step>, n: State)
    requires t in s.threads
  {
    && Drives(cfg, s, s.threads[t].process, steps, n)
    && s.threads[t].process !in n.busy && n.threads == s.threads[t := n.threads[t]]
  }

  lemma FreesFurther(
      cfg: nat -> Config, s: State, t: nat, a: seq<Step>, m: State, b: seq<Step>, n: State)
    requires t in s.threads && Drives(cfg, s, s.threads[t].process, a, m)
    requires m.threads == s.threads[t := m.threads[t]] && Frees(cfg, m, t, b, n)
    ensures Frees(cfg, s, t, a + b, n)
  {
    hide After, Inv, Next;
    DrivesFurther(cfg, s, s.threads[t].process, a, m, b, n);
  }

  // ---- Releasing the event loop --------------------------------------------

  function LoopStep(t: nat, pc: Pc): Step
    requires HoldsLoop(pc)
  {
    match pc
    case Ready => CheckRun(t)
    case RunChecked => CheckResult(t)
    case ResultChecked => EnsureEffect(t)
    case Started => Enter(t)
    case FailReading(_) => FailRead(t)
    case FailWriting(_) => FailWrite(t)
  }

  function Rank(pc: Pc): nat {
    match pc
    case Ready => 6
    case RunChecked => 5
    case ResultChecked => 4
    case Started => 3
    case FailReading(_) => 2
    case FailWriting(_) => 1
    case _ => 0
  }

  lemma LoopAdvances(cfg: nat -> Config, s: State, t: nat)
    requires t in s.threads && HoldsLoop(s.threads[t].pc)
    ensures var n := Next(cfg, s, LoopStep(t, s.threads[t].pc));
            && n.Some? && t in n.value.threads && Rank(n.value.threads[t].pc) < Rank(s.threads[t].pc)
            && (!HoldsLoop(n.value.threads[t].pc) ==> s.threads[t].process !in n.value.busy)
  {
    match s.threads[t].pc
    case FailWriting(_) => WriteEnds(cfg, s, t);
    case RunChecked => ChecksOn(cfg, s, t);
    case ResultChecked => ChecksOn(cfg, s, t);
    case _ => hide RecordStep, CheckResultStep, EnsureEffectStep;
  }

  lemma WriteEnds(cfg: nat -> Config, s: State, t: nat)
    requires t in s.threads && s.threads[t].pc.FailWriting?
    ensures var n := Next(cfg, s, FailWrite(t));
            && n.Some? && t in n.value.threads && n.value.threads[t].pc.Ended?
            && s.threads[t].process !in n.value.busy
  {
  }

  lemma ChecksOn(cfg: nat -> Config, s: State, t: nat)
    requires t in s.threads && (s.threads[t].pc.RunChecked? || s.threads[t].pc.ResultChecked?)
    ensures var n := Next(cfg, s, LoopStep(t, s.threads[t].pc));
            && n.Some? && t in n.value.threads && Rank(n.value.threads[t].pc) < Rank(s.threads[t].pc)
            && (!HoldsLoop(n.value.threads[t].pc) ==> s.threads[t].process !in n.value.busy)
  {
    hide RecordStep, FailReadStep, CheckRunStep, EnterStep;
  }

  lemma LoopStepDrives(cfg: nat -> Config, s: State, t: nat) returns (step: Step, n: State)
    requires Inv(s) && t in s.threads && HoldsLoop(s.threads[t].pc)
    ensures Drives(cfg, s, s.threads[t].process, [step], n) && Inv(n)
    ensures n.threads == s.threads[t := n.threads[t]]
    ensures Rank(n.threads[t].pc) < Rank(s.threads[t].pc)
    ensures !HoldsLoop(n.threads[t].pc) ==> s.threads[t].process !in n.busy
  {
    step := LoopStep(t, s.threads[t].pc);
    LoopAdvances(cfg, s, t);
    DrivesOnce(cfg, s, step);
    n := Next(cfg, s, step).value;
    hide Inv, Next, After;
  }

  lemma ReleasesLoop(cfg: nat -> Config, s: State, t: nat) returns (steps: seq<Step>, n: State)
    requires Inv(s) && t in s.threads && HoldsLoop(s.threads[t].pc)
    ensures Frees(cfg, s, t, steps, n)
    decreases Rank(s.threads[t].pc)
  {
    var step, m := LoopStepDrives(cfg, s, t);
    hide Inv, Drives;
    if HoldsLoop(m.threads[t].pc) {
      var more;
      more, n := ReleasesLoop(cfg, m, t);
      FreesFurther(cfg, s, t, [step], m, more, n);
      steps := [step] + more;
    } else {
      steps, n := [step], m;
    }
  }

  // Whoever holds the loop of process p lets go of it; the waiting stay where they are.
  lemma FreesLoop(cfg: nat -> Config, s: State, p: nat) returns (steps: seq<Step>, n: State)
    requires Inv(s)
    ensures Drives(cfg, s, p, steps, n) && p !in n.busy
  {
    if p in s.busy {
      assert LoopOk(s, p);
      steps, n := ReleasesLoop(cfg, s, s.busy[p]);
    } else {
      DrivesNowhere(cfg, s, p);
      steps, n := [], s;
    }
  }

  // ---- Ending an invocation that waits -------------------------------------

  lemma SettledEnds(cfg: nat -> Config, s: State, t: nat) returns (n: State)
    requires Inv(s) && t in s.threads && s.threads[t].pc.Settled? && s.threads[t].process !in s.busy
    ensures Frees(cfg, s, t, [Cleanup(t)], n) && n.threads[t].pc.Ended?
  {
    DrivesOnce(cfg, s, Cleanup(t));
    hide Inv;
    n := Next(cfg, s, Cleanup(t)).value;
  }

  lemma SettlesFirst(cfg: nat -> Config, s: State, t: nat) returns (step: Step, n: State)
    requires Inv(s) && t in s.threads && s.threads[t].pc.Executing? && s.threads[t].process !in s.busy
    ensures Frees(cfg, s, t, [step], n) && Inv(n)
    ensures n.threads[t].pc.Settled? && n.threads[t].process == s.threads[t].process
  {
    step := Settle(t, Unsuccessful, "");
    DrivesOnce(cfg, s, step);
    hide Inv;
    n := Next(cfg, s, step).value;
  }

  // An executor answers and cleans up.
  lemma ExecutorEnds(cfg: nat -> Config, s: State, t: nat) returns (steps: seq<Step>, n: State)
    requires Inv(s) && t in s.threads && s.threads[t].process !in s.busy
    requires s.threads[t].pc.Executing? || s.threads[t].pc.Settled? || s.threads[t].pc.Ended?
    ensures Frees(cfg, s, t, steps, n) && n.threads[t].pc.Ended?
  {
    if s.threads[t].pc.Ended? {
      DrivesNowhere(cfg, s, s.threads[t].process);
      steps, n := [], s;
    } else if s.threads[t].pc.Settled? {
      n := SettledEnds(cfg, s, t);
      steps := [Cleanup(t)];
    } else {
      var step, m := SettlesFirst(cfg, s, t);
      hide Inv, Drives;
      n := SettledEnds(cfg, m, t);
      FreesFurther(cfg, s, t, [step], m, [Cleanup(t)], n);
      steps := [step] + [Cleanup(t)];
    }
  }

  // A joiner returns once its executor is done.
  lemma JoinerEnds(cfg: nat -> Config, s: State, t: nat) returns (steps: seq<Step>, n: State)
    requires Inv(s) && t in s.threads && s.threads[t].pc.Joined? && s.threads[t].process !in s.busy
    ensures Drives(cfg, s, s.threads[t].process, steps, n) && n.threads[t].pc.Ended?
  {
    var p, x := s.threads[t].process, s.threads[t].pc.executor;
    assert ThreadOk(s, t);
    var more, m := ExecutorEnds(cfg, s, x);
    assert Inv(m);
    n := ReturnsFrom(cfg, m, t);
    hide Inv, Next, After;
    DrivesFurther(cfg, s, p, more, m, [JoinReturn(t)], n);
    steps := more + [JoinReturn(t)];
  }

  lemma ReturnsFrom(cfg: nat -> Config, s: State, t: nat) returns (n: State)
    requires Inv(s) && t in s.threads && s.threads[t].pc.Joined? && s.threads[t].process !in s.busy
    requires s.threads[t].pc.executor in s.threads && s.threads[s.threads[t].pc.executor].pc.Ended?
    ensures Drives(cfg, s, s.threads[t].process, [JoinReturn(t)], n) && n.threads[t].pc.Ended?
  {
    DrivesOnce(cfg, s, JoinReturn(t));
    hide Inv;
    n := Next(cfg, s, JoinReturn(t)).value;
  }

  lemma OnlyWaitingOutsideLoop(s: State, t: nat)
    requires Inv(s) && t in s.threads && s.threads[t].process !in s.busy
    ensures !HoldsLoop(s.threads[t].pc)
  {
    assert ThreadOk(s, t);
  }

  ghost predicate EndsBy(cfg: nat -> Config, s: State, steps: seq<Step>, t: nat)
    requires t in s.threads
  {
    && OwnSteps(s, s.threads[t].process, steps) && After(cfg, s, steps).Some?
    && t in After(cfg, s, steps).value.threads && After(cfg, s, steps).value.threads[t].pc.Ended?
  }

  // From every reachable state, whatever other processes do or have left undone.
  lemma EveryInvocationCanEnd(cfg: nat -> Config, s: State, t: nat)
    requires Reachable(cfg, s) && t in s.threads
    ensures exists steps :: EndsBy(cfg, s, steps, t)
  {
    ReachableIsInv(cfg, s);
    var p := s.threads[t].process;
    var first, m := FreesLoop(cfg, s, p);
    OnlyWaitingOutsideLoop(m, t);
    hide Inv, Next, After;
    var more, n;
    if m.threads[t].pc.Joined? {
      more, n := JoinerEnds(cfg, m, t);
    } else {
      more, n := ExecutorEnds(cfg, m, t);
    }
    DrivesFurther(cfg, s, p, first, m, more, n);
    assert EndsBy(cfg, s, first + more, t);
  }
}
