// Whole runs of recording, ratifying, scanning and lifting.

module NarrowingRuns {
  import opened Collections
  import opened Narrowing
  import opened Prelude

  datatype State = State(
    events: seq<Event>,
    calls: map<string, CallRow>,
    policy: Option<Policy>,
    rows: seq<Suspension>)

  // A scan says in which order its targets were listed.
  datatype Op =
    | Record(event: Event)
    | RecordCall(id: string, row: CallRow)
    | Ratify(policy: Policy)
    | Scan(now: int, rejected: seq<Grant>, violating: seq<Grant>)
    | Lift(index: nat, now: int)

  ghost predicate Enabled(s: State, op: Op) {
    match op
    case Record(e) => forall x :: x in s.events ==> x.id != e.id
    case RecordCall(id, _) => id !in s.calls
    case Ratify(p) => ValidPolicy(p)
    case Scan(now, rejected, violating) =>
      s.policy.Some? ==>
        && ListsTargets(s.policy.value, s.calls, s.events, now, RepeatedRejections, rejected)
        && ListsTargets(s.policy.value, s.calls, s.events, now, PolicyViolations, violating)
    case Lift(i, now) =>
      i < |s.rows| && s.rows[i].active && now >= s.rows[i].cooldownUntil
  }

  ghost function Apply(naming: Naming, s: State, op: Op): State
    requires Enabled(s, op)
  {
    match op
    case Record(e) => s.(events := s.events + [e])
    case RecordCall(id, row) => s.(calls := s.calls[id := row])
    case Ratify(p) => s.(policy := Some(p))
    case Scan(now, rejected, violating) =>
      if s.policy.None? then s
      else
        s.(rows := ScanRows(naming, s.policy.value, s.calls, s.events, now, s.rows, rejected, violating))
    case Lift(i, now) => s.(rows := s.rows[i := LiftRow(s.rows[i], now)])
  }

  // The state a run from nothing leaves, None once an operation is not enabled.
  ghost function Run(naming: Naming, ops: seq<Op>): Option<State> {
    if ops == [] then Some(State([], map[], None, []))
    else
      var before := Run(naming, ops[..|ops| - 1]);
      if before.Some? && Enabled(before.value, ops[|ops| - 1])
      then Some(Apply(naming, before.value, ops[|ops| - 1])) else None
  }

  // ---- The invariant -------------------------------------------------------

  ghost predicate Qualifies(s: State, target: Target, id: string) {
    exists e :: e in s.events && e.id == id && Classify(s.calls, e) == Some(target)
  }

  function TargetOf(r: Suspension): Target {
    Target(r.trigger, r.grant)
  }

  // A suspension stands on enough distinct qualifying events and is lifted no earlier than
  // its cooldown allows.
  ghost predicate RowOk(naming: Naming, s: State, r: Suspension) {
    && r.id == naming(TargetOf(r), r.evidence)
    && NoDuplicates(r.evidence)
    && (forall id :: id in r.evidence ==> Qualifies(s, TargetOf(r), id))
    && |r.evidence| >= r.threshold >= 1
    && (r.active <==> r.liftedAt.None?)
    && (r.liftedAt.Some? ==> r.liftedAt.value >= r.cooldownUntil)
    && r.cooldownUntil >= r.createdAt
  }

  ghost predicate RowsApart(a: Suspension, b: Suspension) {
    && a.id != b.id
    && (a.grant == b.grant ==>
         && !(a.active && b.active)
         && forall id :: !(id in a.evidence && id in b.evidence))
  }

  ghost predicate AllApart(rows: seq<Suspension>) {
    forall i, j | 0 <= i < j < |rows| :: RowsApart(rows[i], rows[j])
  }

  ghost predicate DistinctEvents(events: seq<Event>) {
    forall i, j | 0 <= i < j < |events| :: events[i].id != events[j].id
  }

  ghost predicate Inv(naming: Naming, s: State) {
    && DistinctEvents(s.events)
    && (s.policy.Some? ==> ValidPolicy(s.policy.value))
    && (forall r :: r in s.rows ==> RowOk(naming, s, r))
    && AllApart(s.rows)
  }

  // ---- Window evidence -----------------------------------------------------

  lemma {:induction false} WindowEvidenceQualifies(
      s: State, n: nat, lo: int, hi: int, target: Target)
    requires n <= |s.events| && DistinctEvents(s.events)
    ensures var ids := WindowEvidence(s.calls, s.events[..n], lo, hi, target);
            && NoDuplicates(ids)
            && (forall id :: id in ids ==> Qualifies(s, target, id))
            && (forall id :: id in ids ==> exists k :: 0 <= k < n && s.events[k].id == id)
  {
    if n > 0 {
      WindowEvidenceQualifies(s, n - 1, lo, hi, target);
      assert s.events[..n][..n - 1] == s.events[..n - 1];
      assert s.events[n - 1] in s.events;
      assert s.events[n - 1].id !in WindowEvidence(s.calls, s.events[..n - 1], lo, hi, target);
    }
  }

  lemma {:induction false} FreshIsSelection(evidence: seq<string>, adjudicated: set<string>)
    ensures var f := Fresh(evidence, adjudicated);
            && (forall id :: id in f <==> id in evidence && id !in adjudicated)
            && (NoDuplicates(evidence) ==> NoDuplicates(f))
  {
    if evidence != [] {
      var n := |evidence| - 1;
      FreshIsSelection(evidence[..n], adjudicated);
      assert evidence == evidence[..n] + [evidence[n]];
      assert forall id :: id in evidence <==> id in evidence[..n] || id == evidence[n];
    }
  }

  lemma {:induction false} AdjudicatedIsLifted(rows: seq<Suspension>, g: Grant)
    ensures forall id :: id in Adjudicated(rows, g) <==> AdjudicatedBy(rows, g, id)
  {
    if rows != [] {
      var n := |rows| - 1;
      AdjudicatedIsLifted(rows[..n], g);
      assert rows == rows[..n] + [rows[n]];
      forall id ensures AdjudicatedBy(rows, g, id) <==>
                          || AdjudicatedBy(rows[..n], g, id)
                          || (rows[n].grant == g && !rows[n].active && id in rows[n].evidence)
      {
        if AdjudicatedBy(rows[..n], g, id) {
          var r :| r in rows[..n] && r.grant == g && !r.active && id in r.evidence;
          assert r in rows;
        }
      }
    }
  }

  ghost predicate AdjudicatedBy(rows: seq<Suspension>, g: Grant, id: string) {
    exists r :: r in rows && r.grant == g && !r.active && id in r.evidence
  }

  // ---- Every operation keeps the invariant ---------------------------------

  // Some evidence of a target, as a scan reads it.
  ghost predicate IsEvidence(s: State, target: Target, ids: seq<string>) {
    NoDuplicates(ids) && forall id :: id in ids ==> Qualifies(s, target, id)
  }

  lemma SuspendKeeps(
      naming: Naming, s: State, p: Policy, now: int, target: Target, windowed: seq<string>)
    requires Inv(naming, s) && ValidPolicy(p) && IsEvidence(s, target, windowed)
    ensures Inv(naming, s.(rows := SuspendIfDue(naming, p, now, s.rows, target, windowed)))
  {
    hide Adjudicated, Fresh;
    var evidence := Fresh(windowed, Adjudicated(s.rows, target.grant));
    FreshIsSelection(windowed, Adjudicated(s.rows, target.grant));
    AdjudicatedIsLifted(s.rows, target.grant);
    var rows := SuspendIfDue(naming, p, now, s.rows, target, windowed);
    var n := s.(rows := rows);
    forall r | r in s.rows ensures RowOk(naming, n, r) { RowOkTransfers(naming, s, n, r); }
    if rows != s.rows {
      var added := NewSuspension(naming, p, now, target, evidence);
      assert TargetOf(added) == target;
      assert RowOk(naming, n, added) by {
        forall id | id in evidence ensures Qualifies(n, target, id) { assert Qualifies(s, target, id); }
      }
      forall r | r in s.rows ensures RowsApart(r, added) {
        assert r.grant == target.grant ==> !IsActiveFor(r, target.grant);
        assert forall id :: id in evidence ==> !AdjudicatedBy(s.rows, target.grant, id);
      }
      SnocKeepsApart(s.rows, added);
    }
  }

  lemma SnocKeepsApart(rows: seq<Suspension>, r: Suspension)
    requires AllApart(rows) && forall q :: q in rows ==> RowsApart(q, r)
    ensures AllApart(rows + [r])
  {
  }

  lemma RowOkTransfers(naming: Naming, s: State, n: State, r: Suspension)
    requires RowOk(naming, s, r) && n.calls == s.calls && n.events == s.events
    ensures RowOk(naming, n, r)
  {
    forall id | id in r.evidence ensures Qualifies(n, TargetOf(r), id) {
      assert Qualifies(s, TargetOf(r), id);
    }
  }

  lemma {:induction false} ScanTargetsKeeps(
      naming: Naming, s: State, p: Policy, now: int, trigger: Trigger, grants: seq<Grant>)
    requires Inv(naming, s) && ValidPolicy(p)
    ensures Inv(naming, s.(rows :=
              ScanTargets(naming, p, s.calls, s.events, now, s.rows, trigger, grants)))
  {
    hide Inv, SuspendIfDue;
    if grants != [] {
      var n := |grants| - 1;
      var before := ScanTargets(naming, p, s.calls, s.events, now, s.rows, trigger, grants[..n]);
      ScanTargetsKeeps(naming, s, p, now, trigger, grants[..n]);
      var m := s.(rows := before);
      var target := Target(trigger, grants[n]);
      WindowIsEvidence(naming, m, now - p.window, now, target);
      SuspendKeeps(naming, m, p, now, target,
                   WindowEvidence(s.calls, s.events, now - p.window, now, target));
    }
  }

  lemma WindowIsEvidence(naming: Naming, s: State, lo: int, hi: int, target: Target)
    requires Inv(naming, s)
    ensures IsEvidence(s, target, WindowEvidence(s.calls, s.events, lo, hi, target))
  {
    WindowEvidenceQualifies(s, |s.events|, lo, hi, target);
    assert s.events[..|s.events|] == s.events;
  }

  // Recording more leaves what qualified before qualifying.
  lemma MoreRecordsKeep(naming: Naming, s: State, n: State)
    requires Inv(naming, s) && n.rows == s.rows && n.policy == s.policy
    requires s.events <= n.events && DistinctEvents(n.events)
    requires forall id :: id in s.calls ==> id in n.calls && n.calls[id] == s.calls[id]
    ensures Inv(naming, n)
  {
    forall r | r in n.rows ensures RowOk(naming, n, r) {
      forall id | id in r.evidence ensures Qualifies(n, TargetOf(r), id) {
        assert Qualifies(s, TargetOf(r), id);
        var e :| e in s.events && e.id == id && Classify(s.calls, e) == Some(TargetOf(r));
        assert e in n.events;
      }
    }
  }

  lemma LiftKeeps(naming: Naming, s: State, i: nat, now: int)
    requires Inv(naming, s) && Enabled(s, Lift(i, now))
    ensures Inv(naming, s.(rows := s.rows[i := LiftRow(s.rows[i], now)]))
  {
    var n := s.(rows := s.rows[i := LiftRow(s.rows[i], now)]);
    forall r | r in n.rows ensures RowOk(naming, n, r) {
      var k :| 0 <= k < |n.rows| && n.rows[k] == r;
      assert s.rows[k] in s.rows;
      RowOkTransfers(naming, s, n, s.rows[k]);
    }
    forall a, b | 0 <= a < b < |n.rows| ensures RowsApart(n.rows[a], n.rows[b]) {
      assert RowsApart(s.rows[a], s.rows[b]);
    }
  }

  lemma StepKeeps(naming: Naming, s: State, op: Op)
    requires Inv(naming, s) && Enabled(s, op)
    ensures Inv(naming, Apply(naming, s, op))
  {
    match op
    case Record(e) => MoreRecordsKeep(naming, s, Apply(naming, s, op));
    case RecordCall(_, _) => MoreRecordsKeep(naming, s, Apply(naming, s, op));
    case Ratify(p) =>
      forall r | r in s.rows ensures RowOk(naming, Apply(naming, s, op), r) {
        RowOkTransfers(naming, s, Apply(naming, s, op), r);
      }
    case Scan(now, rejected, violating) =>
      if s.policy.Some? {
        var p := s.policy.value;
        var first := ScanTargets(naming, p, s.calls, s.events, now, s.rows, RepeatedRejections, rejected);
        ScanTargetsKeeps(naming, s, p, now, RepeatedRejections, rejected);
        ScanTargetsKeeps(naming, s.(rows := first), p, now, PolicyViolations, violating);
      }
    case Lift(i, now) => LiftKeeps(naming, s, i, now);
  }

  // In every run: at most one active suspension per grant, disjoint evidence, enough
  // qualifying events behind each, and no lift before its cooldown.
  lemma {:induction false} RunsKeepInv(naming: Naming, ops: seq<Op>)
    requires Run(naming, ops).Some?
    ensures Inv(naming, Run(naming, ops).value)
  {
    hide Enabled, Apply;
    if ops != [] {
      RunsKeepInv(naming, ops[..|ops| - 1]);
      hide Inv;
      StepKeeps(naming, Run(naming, ops[..|ops| - 1]).value, ops[|ops| - 1]);
    }
  }

  // ---- Evidence is never spent twice ---------------------------------------

  ghost function EvidenceOf(rows: seq<Suspension>, g: Grant): set<string> {
    if rows == [] then {}
    else
      var r := rows[|rows| - 1];
      EvidenceOf(rows[..|rows| - 1], g) + (if r.grant == g then set x | x in r.evidence else {})
  }

  function EvidenceUsed(rows: seq<Suspension>, g: Grant): nat {
    if rows == [] then 0
    else
      var r := rows[|rows| - 1];
      EvidenceUsed(rows[..|rows| - 1], g) + (if r.grant == g then |r.evidence| else 0)
  }

  function SuspensionsOf(rows: seq<Suspension>, g: Grant): nat {
    if rows == [] then 0
    else
      SuspensionsOf(rows[..|rows| - 1], g) + (if rows[|rows| - 1].grant == g then 1 else 0)
  }

  ghost function QualifyingIds(s: State, g: Grant): set<string> {
    set e | e in s.events && Classify(s.calls, e).Some? && Classify(s.calls, e).value.grant == g :: e.id
  }

  lemma {:induction false} EvidenceOfMembers(rows: seq<Suspension>, g: Grant)
    ensures forall id :: id in EvidenceOf(rows, g) <==>
              exists r :: r in rows && r.grant == g && id in r.evidence
  {
    if rows != [] {
      var n := |rows| - 1;
      EvidenceOfMembers(rows[..n], g);
      assert rows == rows[..n] + [rows[n]];
      assert forall r :: r in rows <==> r in rows[..n] || r == rows[n];
    }
  }

  lemma {:induction false} UsedOnce(rows: seq<Suspension>, g: Grant)
    requires AllApart(rows) && forall r :: r in rows ==> NoDuplicates(r.evidence)
    ensures EvidenceUsed(rows, g) == |EvidenceOf(rows, g)|
  {
    if rows != [] {
      var n := |rows| - 1;
      var last := rows[n];
      UsedOnce(rows[..n], g);
      DistinctListSize(last.evidence);
      if last.grant == g {
        LastIsApart(rows, last, g);
      }
    }
  }

  lemma LastIsApart(rows: seq<Suspension>, last: Suspension, g: Grant)
    requires AllApart(rows) && rows != [] && last == rows[|rows| - 1] && last.grant == g
    ensures EvidenceOf(rows[..|rows| - 1], g) !! set x | x in last.evidence
  {
    var n := |rows| - 1;
    EvidenceOfMembers(rows[..n], g);
    forall id | id in EvidenceOf(rows[..n], g) ensures id !in rows[n].evidence {
      var r :| r in rows[..n] && r.grant == g && id in r.evidence;
      var k :| 0 <= k < n && rows[k] == r;
      assert RowsApart(rows[k], rows[n]);
    }
  }

  // All suspensions of a grant together use at most the qualifying events on record.
  lemma EvidenceIsBounded(naming: Naming, s: State, g: Grant)
    requires Inv(naming, s)
    ensures EvidenceUsed(s.rows, g) <= |QualifyingIds(s, g)|
  {
    UsedOnce(s.rows, g);
    EvidenceOfMembers(s.rows, g);
    forall id | id in EvidenceOf(s.rows, g) ensures id in QualifyingIds(s, g) {
      var r :| r in s.rows && r.grant == g && id in r.evidence;
      assert RowOk(naming, s, r) && Qualifies(s, TargetOf(r), id);
    }
    SubsetIsSmaller(EvidenceOf(s.rows, g), QualifyingIds(s, g));
  }

  lemma {:induction false} EachUsesThreshold(rows: seq<Suspension>, g: Grant, k: nat)
    requires forall r :: r in rows ==> |r.evidence| >= k
    ensures SuspensionsOf(rows, g) * k <= EvidenceUsed(rows, g)
  {
    if rows != [] {
      var n := |rows| - 1;
      EachUsesThreshold(rows[..n], g, k);
      assert rows[n] in rows;
    }
  }

  // With every threshold in force at least k, a grant is suspended at most once per k
  // qualifying events.
  lemma SuspensionsAreEarned(naming: Naming, ops: seq<Op>, g: Grant, k: nat)
    requires Run(naming, ops).Some?
    requires forall r :: r in Run(naming, ops).value.rows ==> r.threshold >= k
    ensures var s := Run(naming, ops).value;
            SuspensionsOf(s.rows, g) * k <= |QualifyingIds(s, g)|
  {
    var s := Run(naming, ops).value;
    RunsKeepInv(naming, ops);
    EvidenceIsBounded(naming, s, g);
    forall r | r in s.rows ensures |r.evidence| >= k { assert RowOk(naming, s, r); }
    EachUsesThreshold(s.rows, g, k);
  }

  // ---- What one scan does --------------------------------------------------

  // Rows are only appended, and appended active.
  ghost predicate Grows(before: seq<Suspension>, after: seq<Suspension>) {
    before <= after && forall k :: |before| <= k < |after| ==> after[k].active
  }

  lemma {:induction false} GrowthAdjudicatesNothing(
      before: seq<Suspension>, after: seq<Suspension>, g: Grant)
    requires Grows(before, after)
    ensures Adjudicated(after, g) == Adjudicated(before, g)
  {
    if |after| > |before| {
      var n := |after| - 1;
      assert before <= after[..n];
      GrowthAdjudicatesNothing(before, after[..n], g);
    } else {
      assert after == before;
    }
  }

  lemma {:induction false} ScanTargetsGrows(
      naming: Naming, s: State, p: Policy, now: int, rows: seq<Suspension>, trigger: Trigger,
      grants: seq<Grant>)
    ensures Grows(rows, ScanTargets(naming, p, s.calls, s.events, now, rows, trigger, grants))
  {
    hide WindowEvidence, Adjudicated, Fresh, HasActive, HasId;
    if grants != [] {
      ScanTargetsGrows(naming, s, p, now, rows, trigger, grants[..|grants| - 1]);
    }
  }

  // Evaluating the target would change nothing.
  ghost predicate Quiet(
      naming: Naming, s: State, p: Policy, now: int, rows: seq<Suspension>, target: Target)
  {
    var window := WindowEvidence(s.calls, s.events, now - p.window, now, target);
    SuspendIfDue(naming, p, now, rows, target, window) == rows
  }

  lemma QuietPersists(
      naming: Naming, s: State, p: Policy, now: int, before: seq<Suspension>,
      after: seq<Suspension>, target: Target)
    requires Quiet(naming, s, p, now, before, target) && Grows(before, after)
    ensures Quiet(naming, s, p, now, after, target)
  {
    hide WindowEvidence, Adjudicated, Fresh;
    GrowthAdjudicatesNothing(before, after, target.grant);
    assert forall r :: r in before ==> r in after;
  }

  lemma QuietOnceEvaluated(
      naming: Naming, s: State, p: Policy, now: int, rows: seq<Suspension>, target: Target)
    ensures var window := WindowEvidence(s.calls, s.events, now - p.window, now, target);
            var after := SuspendIfDue(naming, p, now, rows, target, window);
            Grows(rows, after) && Quiet(naming, s, p, now, after, target)
  {
    hide WindowEvidence, Adjudicated, Fresh;
    var window := WindowEvidence(s.calls, s.events, now - p.window, now, target);
    var after := SuspendIfDue(naming, p, now, rows, target, window);
    if after != rows {
      assert after[|rows|] in after && IsActiveFor(after[|rows|], target.grant);
    }
  }

  lemma {:induction false} ScannedIsQuiet(
      naming: Naming, s: State, p: Policy, now: int, rows: seq<Suspension>, trigger: Trigger,
      grants: seq<Grant>, g: Grant)
    requires g in grants
    ensures Quiet(naming, s, p, now,
                  ScanTargets(naming, p, s.calls, s.events, now, rows, trigger, grants),
                  Target(trigger, g))
  {
    hide SuspendIfDue, Quiet, WindowEvidence, Grows;
    var n := |grants| - 1;
    var last := Target(trigger, grants[n]);
    var before := ScanTargets(naming, p, s.calls, s.events, now, rows, trigger, grants[..n]);
    QuietOnceEvaluated(naming, s, p, now, before, last);
    if g != grants[n] {
      assert g in grants[..n];
      ScannedIsQuiet(naming, s, p, now, rows, trigger, grants[..n], g);
      QuietPersists(
        naming, s, p, now, before,
        ScanTargets(naming, p, s.calls, s.events, now, rows, trigger, grants), Target(trigger, g));
    }
  }

  lemma {:induction false} QuietTargetsChangeNothing(
      naming: Naming, s: State, p: Policy, now: int, rows: seq<Suspension>, trigger: Trigger,
      grants: seq<Grant>)
    requires forall g :: g in grants ==> Quiet(naming, s, p, now, rows, Target(trigger, g))
    ensures ScanTargets(naming, p, s.calls, s.events, now, rows, trigger, grants) == rows
  {
    hide SuspendIfDue, WindowEvidence;
    if grants != [] {
      assert grants[|grants| - 1] in grants;
      QuietTargetsChangeNothing(naming, s, p, now, rows, trigger, grants[..|grants| - 1]);
    }
  }

  // A repeated scan at the same instant creates nothing, in whatever order either scan
  // listed its targets.
  lemma RepeatedScanChangesNothing(naming: Naming, s: State, first: Op, second: Op)
    requires first.Scan? && second.Scan? && first.now == second.now
    requires Enabled(s, first) && Enabled(s, second)
    ensures Enabled(Apply(naming, s, first), second)
    ensures Apply(naming, Apply(naming, s, first), second) == Apply(naming, s, first)
  {
    hide SuspendIfDue, WindowEvidence, Quiet, ScanTargets, Grows;
    if s.policy.Some? {
      var p, now := s.policy.value, first.now;
      var middle := ScanTargets(naming, p, s.calls, s.events, now, s.rows, RepeatedRejections, first.rejected);
      var after := ScanTargets(naming, p, s.calls, s.events, now, middle, PolicyViolations, first.violating);
      ScanTargetsGrows(naming, s, p, now, middle, PolicyViolations, first.violating);
      forall g | g in second.rejected
        ensures Quiet(naming, s, p, now, after, Target(RepeatedRejections, g))
      {
        assert g in first.rejected;
        ScannedIsQuiet(naming, s, p, now, s.rows, RepeatedRejections, first.rejected, g);
        QuietPersists(naming, s, p, now, middle, after, Target(RepeatedRejections, g));
      }
      forall g | g in second.violating
        ensures Quiet(naming, s, p, now, after, Target(PolicyViolations, g))
      {
        assert g in first.violating;
        ScannedIsQuiet(naming, s, p, now, middle, PolicyViolations, first.violating, g);
      }
      QuietTargetsChangeNothing(naming, s, p, now, after, RepeatedRejections, second.rejected);
      QuietTargetsChangeNothing(naming, s, p, now, after, PolicyViolations, second.violating);
    }
  }

  ghost predicate Injective(naming: Naming) {
    forall t, e, u, f :: naming(t, e) == naming(u, f) ==> t == u && e == f
  }

  // Under a collision-free hash the check for an existing id never decides: whatever stands
  // on the very same evidence is active, or was lifted and so adjudicated it.
  lemma ExactIdIsNeverFound(
      naming: Naming, s: State, p: Policy, target: Target, windowed: seq<string>)
    requires Inv(naming, s) && ValidPolicy(p) && Injective(naming)
    ensures var evidence := Fresh(windowed, Adjudicated(s.rows, target.grant));
            |evidence| >= Threshold(p, target.trigger) && !HasActive(s.rows, target.grant) ==>
              !HasId(s.rows, naming(target, evidence))
  {
    hide Adjudicated, Fresh;
    var evidence := Fresh(windowed, Adjudicated(s.rows, target.grant));
    FreshIsSelection(windowed, Adjudicated(s.rows, target.grant));
    AdjudicatedIsLifted(s.rows, target.grant);
    forall r | r in s.rows && r.id == naming(target, evidence) && |evidence| >= 1
      ensures IsActiveFor(r, target.grant)
    {
      assert RowOk(naming, s, r);
      assert r.evidence == evidence && evidence[0] in evidence;
      assert !AdjudicatedBy(s.rows, target.grant, evidence[0]);
    }
  }

  // Enough of the grant's events in the window, none of them behind a lifted suspension.
  ghost predicate Due(s: State, p: Policy, now: int, target: Target) {
    var window := WindowEvidence(s.calls, s.events, now - p.window, now, target);
    |Fresh(window, Adjudicated(s.rows, target.grant))| >= Threshold(p, target.trigger)
  }

  lemma SuspendsIffDue(
      naming: Naming, s: State, p: Policy, now: int, rows: seq<Suspension>, target: Target, g: Grant)
    requires Inv(naming, s.(rows := rows)) && ValidPolicy(p) && Injective(naming)
    requires Grows(s.rows, rows)
    ensures var window := WindowEvidence(s.calls, s.events, now - p.window, now, target);
            HasActive(SuspendIfDue(naming, p, now, rows, target, window), g) <==>
              HasActive(rows, g) || (target.grant == g && Due(s, p, now, target))
  {
    hide Adjudicated, Fresh, WindowEvidence, Inv;
    var window := WindowEvidence(s.calls, s.events, now - p.window, now, target);
    var after := SuspendIfDue(naming, p, now, rows, target, window);
    GrowthAdjudicatesNothing(s.rows, rows, target.grant);
    ExactIdIsNeverFound(naming, s.(rows := rows), p, target, window);
    assert after != rows ==> after[|rows|] in after && after[|rows|].grant == target.grant;
    assert forall r :: r in rows ==> r in after;
    assert forall r :: r in after ==> r in rows || r == after[|rows|];
    assert after != rows ==> IsActiveFor(after[|rows|], target.grant);
  }

  lemma {:induction false} ScanTargetsSuspends(
      naming: Naming, s: State, p: Policy, now: int, rows: seq<Suspension>, trigger: Trigger,
      grants: seq<Grant>, g: Grant)
    requires Inv(naming, s.(rows := rows)) && ValidPolicy(p) && Injective(naming)
    requires Grows(s.rows, rows)
    ensures HasActive(ScanTargets(naming, p, s.calls, s.events, now, rows, trigger, grants), g) <==>
              HasActive(rows, g) || (g in grants && Due(s, p, now, Target(trigger, g)))
  {
    hide SuspendIfDue, Inv, Due, HasActive;
    if grants != [] {
      var n := |grants| - 1;
      var before := ScanTargets(naming, p, s.calls, s.events, now, rows, trigger, grants[..n]);
      ScanTargetsSuspends(naming, s, p, now, rows, trigger, grants[..n], g);
      ScanTargetsGrows(naming, s, p, now, rows, trigger, grants[..n]);
      ScanTargetsKeeps(naming, s.(rows := rows), p, now, trigger, grants[..n]);
      SuspendsIffDue(naming, s, p, now, before, Target(trigger, grants[n]), g);
      assert g in grants <==> g in grants[..n] || g == grants[n];
    }
  }

  // After a scan a grant is suspended exactly when it was before or one trigger has its full
  // threshold of unadjudicated events. After a lift that may be the other trigger's.
  lemma ScanSuspendsIff(naming: Naming, s: State, op: Op, g: Grant)
    requires Inv(naming, s) && Injective(naming) && op.Scan? && Enabled(s, op) && s.policy.Some?
    ensures var p := s.policy.value;
            HasActive(Apply(naming, s, op).rows, g) <==>
              || HasActive(s.rows, g)
              || Due(s, p, op.now, Target(RepeatedRejections, g))
              || Due(s, p, op.now, Target(PolicyViolations, g))
  {
    var p, now := s.policy.value, op.now;
    assert ValidPolicy(p);
    hide Inv, HasActive, WindowEvidence, Due, ScanTargets, Grows, Adjudicated;
    if Due(s, p, now, Target(RepeatedRejections, g)) {
      DueHasEvidence(s, p, now, Target(RepeatedRejections, g));
    }
    if Due(s, p, now, Target(PolicyViolations, g)) {
      DueHasEvidence(s, p, now, Target(PolicyViolations, g));
    }
    assert Grows(s.rows, s.rows) by { GrowsItself(s.rows); }
    var middle := ScanTargets(naming, p, s.calls, s.events, now, s.rows, RepeatedRejections, op.rejected);
    ScanTargetsSuspends(naming, s, p, now, s.rows, RepeatedRejections, op.rejected, g);
    ScanTargetsGrows(naming, s, p, now, s.rows, RepeatedRejections, op.rejected);
    ScanTargetsKeeps(naming, s, p, now, RepeatedRejections, op.rejected);
    ScanTargetsSuspends(naming, s, p, now, middle, PolicyViolations, op.violating, g);
  }

  lemma DueHasEvidence(s: State, p: Policy, now: int, target: Target)
    requires ValidPolicy(p) && Due(s, p, now, target)
    ensures WindowEvidence(s.calls, s.events, now - p.window, now, target) != []
  {
  }

  lemma GrowsItself(rows: seq<Suspension>)
    ensures Grows(rows, rows)
  {
  }

  // A lifted suspension is never changed again, and none is ever dropped.
  lemma LiftIsFinal(naming: Naming, s: State, op: Op, i: nat)
    requires Enabled(s, op) && i < |s.rows|
    ensures i < |Apply(naming, s, op).rows|
    ensures !s.rows[i].active ==> Apply(naming, s, op).rows[i] == s.rows[i]
    ensures Apply(naming, s, op).rows[i] != s.rows[i] ==> op.Lift? && op.index == i
  {
    if op.Scan? && s.policy.Some? {
      var p := s.policy.value;
      var middle :=
        ScanTargets(naming, p, s.calls, s.events, op.now, s.rows, RepeatedRejections, op.rejected);
      ScanTargetsGrows(naming, s, p, op.now, s.rows, RepeatedRejections, op.rejected);
      ScanTargetsGrows(naming, s, p, op.now, middle, PolicyViolations, op.violating);
    }
  }
}
