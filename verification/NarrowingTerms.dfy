// The terms of a suspension: the evidence it stands on, and the threshold and the cooldown of
// the policy that was in force when a scan made it.

module NarrowingTerms {
  import opened Collections
  import opened Narrowing
  import opened NarrowingRuns
  import opened Prelude

  // ---- What counts ---------------------------------------------------------

  // The event counts against the grant: a rejected approval of one of its calls, or a policy
  // block of a recorded call of the same workspace that was not a suspension's own doing.
  ghost predicate CountsAgainst(calls: map<string, CallRow>, e: Event, trigger: Trigger, g: Grant) {
    match trigger
    case RepeatedRejections =>
      e.body.ApprovalRejected? && e.body.targetType == "capability_call" && e.body.call == Some(g)
    case PolicyViolations =>
      && e.body.PolicyDecision? && e.body.block
      && e.body.action == "capability.call" && e.body.targetType == "capability_call"
      && !("Capability grant is suspended: " <= e.body.reason)
      && e.body.targetId.Some? && e.body.targetId.value != ""
      && e.body.targetId.value in calls
      && calls[e.body.targetId.value] == CallRow(e.body.workspace, g)
  }

  lemma ClassifyIff(calls: map<string, CallRow>, e: Event, trigger: Trigger, g: Grant)
    ensures Classify(calls, e) == Some(Target(trigger, g)) <==> CountsAgainst(calls, e, trigger, g)
  {
  }

  lemma {:induction false} WindowHolds(
      calls: map<string, CallRow>, events: seq<Event>, lo: int, hi: int, trigger: Trigger, g: Grant)
    ensures forall id :: id in WindowEvidence(calls, events, lo, hi, Target(trigger, g)) <==>
              exists e :: e in events && e.id == id && lo <= e.time <= hi
                          && CountsAgainst(calls, e, trigger, g)
  {
    if events != [] {
      var n := |events| - 1;
      WindowHolds(calls, events[..n], lo, hi, trigger, g);
      assert events == events[..n] + [events[n]];
      ClassifyIff(calls, events[n], trigger, g);
      hide CountsAgainst, Classify;
    }
  }

  // The events of the window that count against the grant and that no lifted suspension of
  // it stands on.
  ghost function Usable(s: State, lo: int, hi: int, trigger: Trigger, g: Grant): set<string> {
    set e | && e in s.events && lo <= e.time <= hi && CountsAgainst(s.calls, e, trigger, g)
            && !exists r :: r in s.rows && r.grant == g && !r.active && e.id in r.evidence
          :: e.id
  }

  lemma FreshIsUsable(s: State, lo: int, hi: int, trigger: Trigger, g: Grant)
    requires DistinctEvents(s.events)
    ensures var ids := Fresh(WindowEvidence(s.calls, s.events, lo, hi, Target(trigger, g)),
                             Adjudicated(s.rows, g));
            && (forall id :: id in ids <==> id in Usable(s, lo, hi, trigger, g))
            && |ids| == |Usable(s, lo, hi, trigger, g)|
  {
    hide WindowEvidence, Fresh, Adjudicated, Usable;
    var target := Target(trigger, g);
    var window := WindowEvidence(s.calls, s.events, lo, hi, target);
    var ids := Fresh(window, Adjudicated(s.rows, g));
    assert NoDuplicates(window) by {
      WindowEvidenceQualifies(s, |s.events|, lo, hi, target);
      assert s.events[..|s.events|] == s.events;
    }
    FreshIsSelection(window, Adjudicated(s.rows, g));
    WindowWithoutLifted(s, lo, hi, trigger, g);
    DistinctListSize(ids);
    assert (set x | x in ids) == Usable(s, lo, hi, trigger, g);
  }

  lemma WindowWithoutLifted(s: State, lo: int, hi: int, trigger: Trigger, g: Grant)
    ensures forall id :: id in Usable(s, lo, hi, trigger, g) <==>
              && id in WindowEvidence(s.calls, s.events, lo, hi, Target(trigger, g))
              && id !in Adjudicated(s.rows, g)
  {
    hide WindowEvidence, Adjudicated, CountsAgainst;
    WindowHolds(s.calls, s.events, lo, hi, trigger, g);
    AdjudicatedIsLifted(s.rows, g);
  }

  // The ids come in the order in which the log holds their events.
  ghost predicate InLogOrder(events: seq<Event>, ids: seq<string>) {
    forall i, j | 0 <= i < j < |ids| :: Precedes(events, ids[i], ids[j])
  }

  ghost predicate Precedes(events: seq<Event>, x: string, y: string) {
    exists a, b :: 0 <= a < b < |events| && events[a].id == x && events[b].id == y
  }

  lemma {:induction false} WindowIsInLogOrder(
      calls: map<string, CallRow>, events: seq<Event>, lo: int, hi: int, trigger: Trigger, g: Grant)
    ensures InLogOrder(events, WindowEvidence(calls, events, lo, hi, Target(trigger, g)))
  {
    if events != [] {
      var n := |events| - 1;
      var shorter := WindowEvidence(calls, events[..n], lo, hi, Target(trigger, g));
      WindowIsInLogOrder(calls, events[..n], lo, hi, trigger, g);
      WindowHolds(calls, events[..n], lo, hi, trigger, g);
      hide CountsAgainst, Classify;
      var ids := WindowEvidence(calls, events, lo, hi, Target(trigger, g));
      hide WindowEvidence;
      forall i, j | 0 <= i < j < |ids| ensures Precedes(events, ids[i], ids[j]) {
        assert ids[i] == shorter[i];
        if j < |shorter| {
          assert Precedes(events[..n], shorter[i], shorter[j]);
        } else {
          assert ids[i] in shorter;
          var e :| e in events[..n] && e.id == ids[i];
          var a :| 0 <= a < n && events[..n][a] == e;
          assert events[a].id == ids[i] && events[n].id == ids[j];
        }
      }
    }
  }

  lemma {:induction false} FreshKeepsOrder(events: seq<Event>, ids: seq<string>, adjudicated: set<string>)
    requires InLogOrder(events, ids)
    ensures InLogOrder(events, Fresh(ids, adjudicated))
  {
    hide Precedes;
    if ids != [] {
      var n := |ids| - 1;
      FreshKeepsOrder(events, ids[..n], adjudicated);
      FreshIsSelection(ids[..n], adjudicated);
      var shorter, kept := Fresh(ids[..n], adjudicated), Fresh(ids, adjudicated);
      hide Fresh;
      forall i, j | 0 <= i < j < |kept| ensures Precedes(events, kept[i], kept[j]) {
        assert kept[i] == shorter[i];
        if j == |shorter| {
          assert kept[i] in shorter;
          var k :| 0 <= k < n && ids[..n][k] == kept[i];
          assert Precedes(events, ids[k], ids[n]);
        }
      }
    }
  }

  lemma DueIff(s: State, p: Policy, now: int, trigger: Trigger, g: Grant)
    requires DistinctEvents(s.events)
    ensures Due(s, p, now, Target(trigger, g)) <==>
              |Usable(s, now - p.window, now, trigger, g)| >=
                match trigger
                case RepeatedRejections => p.rejectionThreshold
                case PolicyViolations => p.violationThreshold
  {
    FreshIsUsable(s, now - p.window, now, trigger, g);
    hide WindowEvidence, Fresh, Adjudicated, Usable;
  }

  // After a scan a grant is suspended exactly when it was before, or enough usable events
  // of the window were rejections, or enough were violations.
  lemma ScanSuspendsOnUsable(naming: Naming, s: State, op: Op, g: Grant)
    requires Inv(naming, s) && Injective(naming) && op.Scan? && Enabled(s, op) && s.policy.Some?
    ensures var p := s.policy.value;
            (exists r :: r in Apply(naming, s, op).rows && r.grant == g && r.active) <==>
              || (exists r :: r in s.rows && r.grant == g && r.active)
              || |Usable(s, op.now - p.window, op.now, RepeatedRejections, g)| >= p.rejectionThreshold
              || |Usable(s, op.now - p.window, op.now, PolicyViolations, g)| >= p.violationThreshold
  {
    hide Inv, Enabled, Usable, Due, Apply, Injective, DistinctEvents, HasActive;
    var p := s.policy.value;
    EventsAreDistinct(naming, s);
    ScanSuspendsIff(naming, s, op, g);
    DueIff(s, p, op.now, RepeatedRejections, g);
    DueIff(s, p, op.now, PolicyViolations, g);
    HasActiveIff(s.rows, g);
    HasActiveIff(Apply(naming, s, op).rows, g);
  }

  lemma EventsAreDistinct(naming: Naming, s: State)
    requires Inv(naming, s)
    ensures DistinctEvents(s.events)
  {
  }

  lemma HasActiveIff(rows: seq<Suspension>, g: Grant)
    ensures HasActive(rows, g) <==> exists r :: r in rows && r.grant == g && r.active
  {
  }

  // ---- What a scan makes ---------------------------------------------------

  // The row a scan at `now` under the policy makes.
  ghost predicate OnTerms(naming: Naming, s: State, p: Policy, now: int, r: Suspension) {
    && r.createdAt == now
    && r.cooldownUntil == now + p.cooldown
    && r.active && r.liftedAt == None
    && r.threshold == (match r.trigger
                       case RepeatedRejections => p.rejectionThreshold
                       case PolicyViolations => p.violationThreshold)
    && |r.evidence| >= r.threshold
    && (forall id :: id in r.evidence <==> id in Usable(s, now - p.window, now, r.trigger, r.grant))
    && InLogOrder(s.events, r.evidence)
    && r.id == naming(Target(r.trigger, r.grant), r.evidence)
  }

  lemma SuspendedOnTerms(
      naming: Naming, s: State, p: Policy, now: int, rows: seq<Suspension>, target: Target)
    requires DistinctEvents(s.events) && Grows(s.rows, rows)
    ensures var window := WindowEvidence(s.calls, s.events, now - p.window, now, target);
            var after := SuspendIfDue(naming, p, now, rows, target, window);
            || after == rows
            || (after == rows + [after[|rows|]] && OnTerms(naming, s, p, now, after[|rows|]))
  {
    hide WindowEvidence, Fresh, Adjudicated, Usable, HasActive, HasId, OnTerms, DistinctEvents, Grows;
    FreshIsUsable(s, now - p.window, now, target.trigger, target.grant);
    GrowthAdjudicatesNothing(s.rows, rows, target.grant);
    var window := WindowEvidence(s.calls, s.events, now - p.window, now, target);
    var evidence := Fresh(window, Adjudicated(rows, target.grant));
    if |evidence| >= Threshold(p, target.trigger) {
      WindowIsInLogOrder(s.calls, s.events, now - p.window, now, target.trigger, target.grant);
      FreshKeepsOrder(s.events, window, Adjudicated(rows, target.grant));
      NewIsOnTerms(naming, s, p, now, target, evidence);
    }
  }

  lemma NewIsOnTerms(
      naming: Naming, s: State, p: Policy, now: int, target: Target, evidence: seq<string>)
    requires |evidence| >= Threshold(p, target.trigger)
    requires forall id :: id in evidence <==>
               id in Usable(s, now - p.window, now, target.trigger, target.grant)
    requires InLogOrder(s.events, evidence)
    ensures OnTerms(naming, s, p, now, NewSuspension(naming, p, now, target, evidence))
  {
  }

  lemma {:induction false} ScanTargetsOnTerms(
      naming: Naming, s: State, p: Policy, now: int, rows: seq<Suspension>, trigger: Trigger,
      grants: seq<Grant>)
    requires DistinctEvents(s.events) && Grows(s.rows, rows)
    ensures var after := ScanTargets(naming, p, s.calls, s.events, now, rows, trigger, grants);
            && Grows(rows, after)
            && forall k :: |rows| <= k < |after| ==> OnTerms(naming, s, p, now, after[k])
  {
    hide SuspendIfDue, OnTerms, WindowEvidence;
    ScanTargetsGrows(naming, s, p, now, rows, trigger, grants);
    if grants != [] {
      var n := |grants| - 1;
      var before := ScanTargets(naming, p, s.calls, s.events, now, rows, trigger, grants[..n]);
      ScanTargetsOnTerms(naming, s, p, now, rows, trigger, grants[..n]);
      SuspendedOnTerms(naming, s, p, now, before, Target(trigger, grants[n]));
    }
  }

  // A scan only adds rows, and every row it adds stands on the terms of the policy in force.
  lemma ScanAddsOnTerms(naming: Naming, s: State, op: Op)
    requires DistinctEvents(s.events) && op.Scan? && Enabled(s, op)
    ensures var after := Apply(naming, s, op);
            && after == s.(rows := after.rows) && s.rows <= after.rows
            && (s.policy == None ==> after == s)
            && forall k :: |s.rows| <= k < |after.rows| ==>
                 s.policy.Some? && OnTerms(naming, s, s.policy.value, op.now, after.rows[k])
  {
    hide OnTerms, ScanTargets;
    if s.policy.Some? {
      var p, now := s.policy.value, op.now;
      GrowsItself(s.rows);
      var middle := ScanTargets(naming, p, s.calls, s.events, now, s.rows, RepeatedRejections, op.rejected);
      ScanTargetsOnTerms(naming, s, p, now, s.rows, RepeatedRejections, op.rejected);
      ScanTargetsOnTerms(naming, s, p, now, middle, PolicyViolations, op.violating);
    }
  }

  // A lift marks its row as lifted now, and changes nothing else.
  lemma LiftMarksItsRow(naming: Naming, s: State, op: Op)
    requires op.Lift? && Enabled(s, op)
    ensures var after, i := Apply(naming, s, op), op.index;
            && s.rows[i].active && op.now >= s.rows[i].cooldownUntil
            && after == s.(rows := after.rows) && |after.rows| == |s.rows|
            && (forall k :: 0 <= k < |s.rows| && k != i ==> after.rows[k] == s.rows[k])
            && after.rows[i] == s.rows[i].(active := false, liftedAt := Some(op.now))
  {
  }

  // ---- Over a run ----------------------------------------------------------

  // Operation k of the run ratified the policy that was still in force at operation n.
  ghost predicate InForce(ops: seq<Op>, n: int, p: Policy) {
    exists k :: 0 <= k < n <= |ops| && ops[k] == Ratify(p) && forall j :: k < j < n ==> !ops[j].Ratify?
  }

  lemma {:induction false} PolicyIsLastRatified(naming: Naming, ops: seq<Op>)
    requires Run(naming, ops).Some? && Run(naming, ops).value.policy.Some?
    ensures InForce(ops, |ops|, Run(naming, ops).value.policy.value)
  {
    hide Enabled, InForce;
    if ops != [] {
      var n := |ops| - 1;
      var before := Run(naming, ops[..n]).value;
      PolicyAfter(naming, before, ops[n]);
      if ops[n].Ratify? {
        RatifiedIsInForce(ops, ops[n].policy);
      } else {
        PolicyIsLastRatified(naming, ops[..n]);
        StillInForce(ops, before.policy.value);
      }
    }
  }

  lemma PolicyAfter(naming: Naming, s: State, op: Op)
    requires Enabled(s, op)
    ensures Apply(naming, s, op).policy == if op.Ratify? then Some(op.policy) else s.policy
  {
    hide ScanRows;
  }

  lemma RatifiedIsInForce(ops: seq<Op>, p: Policy)
    requires ops != [] && ops[|ops| - 1] == Ratify(p)
    ensures InForce(ops, |ops|, p)
  {
  }

  lemma StillInForce(ops: seq<Op>, p: Policy)
    requires ops != [] && !ops[|ops| - 1].Ratify?
    requires InForce(ops[..|ops| - 1], |ops| - 1, p)
    ensures InForce(ops, |ops|, p)
  {
    var n := |ops| - 1;
    InForceLasts(ops, n, n, p);
    var k :| 0 <= k < n && ops[k] == Ratify(p) && forall j :: k < j < n ==> !ops[j].Ratify?;
    assert forall j :: k < j < |ops| ==> !ops[j].Ratify?;
  }

  // Scan k of the run made the suspension, under the policy then in force, and it was not
  // lifted before that policy's cooldown had passed since that scan.
  ghost predicate MadeBy(ops: seq<Op>, k: int, p: Policy, r: Suspension) {
    && 0 <= k < |ops| && ops[k].Scan? && InForce(ops, k, p)
    && r.createdAt == ops[k].now
    && r.cooldownUntil == ops[k].now + p.cooldown
    && r.threshold == (match r.trigger
                       case RepeatedRejections => p.rejectionThreshold
                       case PolicyViolations => p.violationThreshold)
    && |r.evidence| >= r.threshold
    && (r.liftedAt.Some? ==> r.liftedAt.value >= ops[k].now + p.cooldown)
    && (r.active <==> r.liftedAt == None)
  }

  ghost predicate HasTerms(ops: seq<Op>, r: Suspension) {
    exists k, p :: MadeBy(ops, k, p, r)
  }

  lemma TermsLast(ops: seq<Op>, n: nat, r: Suspension)
    requires n <= |ops| && HasTerms(ops[..n], r)
    ensures HasTerms(ops, r)
  {
    var k, p :| MadeBy(ops[..n], k, p, r);
    InForceLasts(ops, n, k, p);
    hide InForce;
    assert MadeBy(ops, k, p, r);
  }

  lemma InForceLasts(ops: seq<Op>, n: nat, k: nat, p: Policy)
    requires k <= n <= |ops| && InForce(ops[..n], k, p)
    ensures InForce(ops, k, p)
  {
    var m :| 0 <= m < k && ops[..n][m] == Ratify(p) && forall j :: m < j < k ==> !ops[..n][j].Ratify?;
    assert ops[m] == Ratify(p);
    forall j | m < j < k ensures !ops[j].Ratify? { assert ops[..n][j] == ops[j]; }
  }

  // In every run every suspension was made by a scan on the terms of the policy then in
  // force, and none was lifted before the cooldown of that policy had passed.
  lemma {:induction false} SuspensionsKeepTheirTerms(naming: Naming, ops: seq<Op>)
    requires Run(naming, ops).Some?
    ensures forall r :: r in Run(naming, ops).value.rows ==> HasTerms(ops, r)
  {
    if ops != [] {
      var n := |ops| - 1;
      SuspensionsKeepTheirTerms(naming, ops[..n]);
      RunsKeepInv(naming, ops[..n]);
      var s, after := Run(naming, ops[..n]).value, Run(naming, ops).value;
      hide HasTerms;
      assert after == Apply(naming, s, ops[n]) && Enabled(s, ops[n]);
      if s.policy.Some? { PolicyIsLastRatified(naming, ops[..n]); }
      hide Run;
      forall r | r in after.rows ensures HasTerms(ops, r) {
        StepKeepsTerms(naming, ops, s, r);
      }
    }
  }

  lemma StepKeepsTerms(naming: Naming, ops: seq<Op>, s: State, r: Suspension)
    requires ops != [] && Inv(naming, s) && Enabled(s, ops[|ops| - 1])
    requires forall q :: q in s.rows ==> HasTerms(ops[..|ops| - 1], q)
    requires s.policy.Some? ==> InForce(ops[..|ops| - 1], |ops| - 1, s.policy.value)
    requires r in Apply(naming, s, ops[|ops| - 1]).rows
    ensures HasTerms(ops, r)
  {
    var n := |ops| - 1;
    var op, after := ops[n], Apply(naming, s, ops[n]);
    var i :| 0 <= i < |after.rows| && after.rows[i] == r;
    if i < |s.rows| && after.rows[i] == s.rows[i] {
      assert s.rows[i] in s.rows;
      TermsLast(ops, n, r);
    } else if op.Lift? {
      LiftMarksItsRow(naming, s, op);
      assert s.rows[i] in s.rows;
      LiftKeepsTerms(ops[..n], s.rows[i], op.now);
      TermsLast(ops, n, r);
    } else {
      assert op.Scan?;
      ScanAddsOnTerms(naming, s, op);
      hide Apply, Enabled;
      var p := s.policy.value;
      InForceLasts(ops, n, n, p);
      assert MadeBy(ops, n, p, r) by { hide InForce; }
    }
  }

  lemma LiftKeepsTerms(ops: seq<Op>, r: Suspension, now: int)
    requires HasTerms(ops, r) && now >= r.cooldownUntil
    ensures HasTerms(ops, r.(active := false, liftedAt := Some(now)))
  {
    hide InForce;
    var k, p :| MadeBy(ops, k, p, r);
    assert MadeBy(ops, k, p, r.(active := false, liftedAt := Some(now)));
  }
}
