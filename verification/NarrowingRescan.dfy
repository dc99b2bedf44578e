// A run in which a lifted grant is suspended again by a scan with no new event: the other
// trigger's evidence was in the window all along and no lifted suspension carries it.

module NarrowingRescan {
  import opened Narrowing
  import opened NarrowingRuns
  import opened Prelude

  const HELD := Grant("worker", "capability")

  const POLICY := Policy(1, 1, 100, 0)

  const REJECTION := Event("rejection", 1, ApprovalRejected("capability_call", Some(HELD)))

  const VIOLATION := Event("violation", 1,
    PolicyDecision("workspace", true, "capability.call", "capability_call", Some("call"), "no grant"))

  const CALLS := map["call" := CallRow("workspace", HELD)]

  const SCAN := Scan(2, [HELD], [HELD])

  function SuspensionOn(naming: Naming, trigger: Trigger, eventId: string): Suspension {
    NewSuspension(naming, POLICY, 2, Target(trigger, HELD), [eventId])
  }

  // What each target's window holds, before and after the lift alike.
  function WindowOf(target: Target): seq<string> {
    if target == Target(RepeatedRejections, HELD) then ["rejection"]
    else if target == Target(PolicyViolations, HELD) then ["violation"]
    else []
  }

  lemma WindowHolds(target: Target)
    ensures WindowEvidence(CALLS, [REJECTION, VIOLATION], 2 - 100, 2, target) == WindowOf(target)
  {
    var events := [REJECTION, VIOLATION];
    assert events[..1] == [REJECTION] && events[..1][..0] == [];
    assert WindowEvidence(CALLS, events[..1], -98, 2, target) ==
           (if target == Target(RepeatedRejections, HELD) then ["rejection"] else []);
    assert VIOLATION.body.reason[0] != SUSPENDED_PREFIX[0];
  }

  function Recorded(rows: seq<Suspension>): State {
    State([REJECTION, VIOLATION], CALLS, Some(POLICY), rows)
  }

  lemma ScanIsEnabled(rows: seq<Suspension>)
    ensures Enabled(Recorded(rows), SCAN)
  {
    forall target ensures WindowEvidence(CALLS, [REJECTION, VIOLATION], -98, 2, target) == WindowOf(target) {
      WindowHolds(target);
    }
  }

  lemma ScanOneByOne(naming: Naming, rows: seq<Suspension>)
    requires Enabled(Recorded(rows), SCAN)
    ensures var first :=
              SuspendIfDue(naming, POLICY, 2, rows, Target(RepeatedRejections, HELD), ["rejection"]);
            Apply(naming, Recorded(rows), SCAN) == Recorded(
              SuspendIfDue(naming, POLICY, 2, first, Target(PolicyViolations, HELD), ["violation"]))
  {
    hide SuspendIfDue;
    ScanOne(naming, rows, RepeatedRejections);
    var first := SuspendIfDue(naming, POLICY, 2, rows, Target(RepeatedRejections, HELD), ["rejection"]);
    ScanOne(naming, first, PolicyViolations);
  }

  lemma ScanOne(naming: Naming, rows: seq<Suspension>, trigger: Trigger)
    ensures var target := Target(trigger, HELD);
            ScanTargets(naming, POLICY, CALLS, [REJECTION, VIOLATION], 2, rows, trigger, [HELD]) ==
              SuspendIfDue(naming, POLICY, 2, rows, target, WindowOf(target))
  {
    hide SuspendIfDue, WindowEvidence;
    var events := [REJECTION, VIOLATION];
    WindowHolds(Target(trigger, HELD));
    assert [HELD][..0] == [];
    assert ScanTargets(naming, POLICY, CALLS, events, 2, rows, trigger, [HELD][..0]) == rows;
  }

  lemma FirstScanSuspends(naming: Naming)
    requires Enabled(Recorded([]), SCAN)
    ensures Apply(naming, Recorded([]), SCAN) ==
              Recorded([SuspensionOn(naming, RepeatedRejections, "rejection")])
  {
    var r := SuspensionOn(naming, RepeatedRejections, "rejection");
    ScanOneByOne(naming, []);
    assert ["rejection"][..0] == [];
    assert Fresh(["rejection"], {}) == ["rejection"];
    assert [] + [r] == [r];
    assert [r][0] in [r] && IsActiveFor(r, HELD);
  }

  lemma RescanSuspends(naming: Naming)
    requires Injective(naming)
    requires var lifted := LiftRow(SuspensionOn(naming, RepeatedRejections, "rejection"), 2);
             Enabled(Recorded([lifted]), SCAN)
    ensures var lifted := LiftRow(SuspensionOn(naming, RepeatedRejections, "rejection"), 2);
            Apply(naming, Recorded([lifted]), SCAN) ==
              Recorded([lifted, SuspensionOn(naming, PolicyViolations, "violation")])
  {
    var lifted := LiftRow(SuspensionOn(naming, RepeatedRejections, "rejection"), 2);
    ScanOneByOne(naming, [lifted]);
    assert [lifted][..0] == [];
    assert Adjudicated([lifted], HELD) == {"rejection"};
    assert ["rejection"][..0] == [] && ["violation"][..0] == [];
    assert Fresh(["rejection"], {"rejection"}) == [];
    assert Fresh(["violation"], {"rejection"}) == ["violation"];
    assert !HasActive([lifted], HELD);
    assert !HasId([lifted], naming(Target(PolicyViolations, HELD), ["violation"]));
  }

  lemma RunMore(naming: Naming, ops: seq<Op>, op: Op)
    requires Run(naming, ops).Some? && Enabled(Run(naming, ops).value, op)
    ensures Run(naming, ops + [op]) == Some(Apply(naming, Run(naming, ops).value, op))
  {
    assert (ops + [op])[..|ops|] == ops;
  }

  lemma RunNothing(naming: Naming)
    ensures Run(naming, []) == Some(State([], map[], None, []))
  {
  }

  lemma RecordsRun(naming: Naming) returns (ops: seq<Op>)
    ensures Run(naming, ops) == Some(Recorded([]))
  {
    hide Run;
    RunNothing(naming);
    RunMore(naming, [], Ratify(POLICY));
    ops := [] + [Ratify(POLICY)];
    RunMore(naming, ops, RecordCall("call", CALLS["call"]));
    ops := ops + [RecordCall("call", CALLS["call"])];
    assert map[]["call" := CALLS["call"]] == CALLS;
    RunMore(naming, ops, Record(REJECTION));
    ops := ops + [Record(REJECTION)];
    RunMore(naming, ops, Record(VIOLATION));
    ops := ops + [Record(VIOLATION)];
    assert [] + [REJECTION] + [VIOLATION] == [REJECTION, VIOLATION];
  }

  // Between the lift and the second scan nothing is recorded, and the scan is at the instant
  // of the lift; still the grant is suspended again.
  lemma LiftedGrantIsSuspendedAgain(naming: Naming) returns (ops: seq<Op>)
    requires Injective(naming)
    ensures var lifted := ops + [Lift(0, 2)];
            && Run(naming, ops).Some? && HasActive(Run(naming, ops).value.rows, HELD)
            && Run(naming, lifted).Some? && !HasActive(Run(naming, lifted).value.rows, HELD)
            && Run(naming, lifted + [SCAN]).Some?
            && HasActive(Run(naming, lifted + [SCAN]).value.rows, HELD)
  {
    var r := SuspensionOn(naming, RepeatedRejections, "rejection");
    var v := SuspensionOn(naming, PolicyViolations, "violation");
    ops := RecordsRun(naming);
    ScanIsEnabled([]);
    FirstScanSuspends(naming);
    RunMore(naming, ops, SCAN);
    ops := ops + [SCAN];
    RunMore(naming, ops, Lift(0, 2));
    assert [r][0 := LiftRow(r, 2)] == [LiftRow(r, 2)];
    ScanIsEnabled([LiftRow(r, 2)]);
    RescanSuspends(naming);
    hide Run, SCAN;
    RunMore(naming, ops + [Lift(0, 2)], SCAN);
    assert r in [r] && v in [LiftRow(r, 2), v];
    assert IsActiveFor(r, HELD) && IsActiveFor(v, HELD);
  }
}
