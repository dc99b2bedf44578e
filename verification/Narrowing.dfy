// Evidence-triggered narrowing of capability grants: the deterministic scan that suspends, the
// human lift that is the only way back, and what holds over every run of the two.

module Narrowing {
  import opened Prelude

  datatype Grant = Grant(actor: string, capability: string)

  datatype Trigger = RepeatedRejections | PolicyViolations

  datatype Target = Target(trigger: Trigger, grant: Grant)

  // A recorded capability call, as far as the scan reads it.
  datatype CallRow = CallRow(workspace: string, grant: Grant)

  // The events the scan looks into; `call` is absent when the payload holds no valid call.
  datatype Body =
    | ApprovalRejected(targetType: string, call: Option<Grant>)
    | PolicyDecision(
        workspace: string, block: bool, action: string, targetType: string,
        targetId: Option<string>, reason: string)
    | OtherBody

  datatype Event = Event(id: string, time: int, body: Body)

  datatype Policy = Policy(
    rejectionThreshold: int, violationThreshold: int, window: int, cooldown: int)

  datatype Suspension = Suspension(
    id: string,
    grant: Grant,
    active: bool,
    trigger: Trigger,
    threshold: int,
    evidence: seq<string>,
    createdAt: int,
    cooldownUntil: int,
    liftedAt: Option<int>)

  datatype LiftError = BlankActor | NoSuchSuspension | CoolingDown

  // Names a suspension after its evidence, by a hash.
  type Naming = (Target, seq<string>) -> string

  predicate ValidPolicy(p: Policy) {
    p.rejectionThreshold >= 1 && p.violationThreshold >= 1 && p.window >= 1 && p.cooldown >= 0
  }

  function Threshold(p: Policy, trigger: Trigger): int {
    if trigger.RepeatedRejections? then p.rejectionThreshold else p.violationThreshold
  }

  // ---- Which events are evidence -------------------------------------------

  const SUSPENDED_PREFIX := "Capability grant is suspended: "

  // The reason a call blocked by a suspension carries.
  function SuspendedGrantReason(s: Suspension): string {
    SUSPENDED_PREFIX + s.grant.capability + " (suspension " + s.id + ")"
  }

  function RejectedTarget(e: Event): Option<Grant> {
    if e.body.ApprovalRejected? && e.body.targetType == "capability_call" then e.body.call else None
  }

  function ViolationTarget(calls: map<string, CallRow>, e: Event): Option<Grant> {
    if !e.body.PolicyDecision? then None
    else
      var d := e.body;
      if !d.block || d.action != "capability.call" || d.targetType != "capability_call"
         || d.targetId.None? || d.targetId.value == "" || SUSPENDED_PREFIX <= d.reason then None
      else if d.targetId.value !in calls || calls[d.targetId.value].workspace != d.workspace then None
      else Some(calls[d.targetId.value].grant)
  }

  function Classify(calls: map<string, CallRow>, e: Event): Option<Target> {
    var rejected := RejectedTarget(e);
    var violated := ViolationTarget(calls, e);
    if rejected.Some? then Some(Target(RepeatedRejections, rejected.value))
    else if violated.Some? then Some(Target(PolicyViolations, violated.value))
    else None
  }

  // What a suspension blocks is never evidence for the next one.
  lemma SuspensionBlocksAreNotEvidence(calls: map<string, CallRow>, e: Event, s: Suspension)
    requires e.body.PolicyDecision? && e.body.reason == SuspendedGrantReason(s)
    ensures Classify(calls, e) == None
  {
    var reason := SuspendedGrantReason(s);
    assert reason[..|SUSPENDED_PREFIX|] == SUSPENDED_PREFIX;
  }

  // The ids, in log order, of a target's events between two instants.
  function WindowEvidence(
      calls: map<string, CallRow>, events: seq<Event>, lo: int, hi: int, target: Target): seq<string>
  {
    if events == [] then []
    else
      var e := events[|events| - 1];
      WindowEvidence(calls, events[..|events| - 1], lo, hi, target)
      + (if lo <= e.time <= hi && Classify(calls, e) == Some(target) then [e.id] else [])
  }

  // ---- The suspension table ------------------------------------------------

  predicate IsActiveFor(r: Suspension, g: Grant) {
    r.grant == g && r.active
  }

  ghost predicate HasActive(rows: seq<Suspension>, g: Grant) {
    exists r :: r in rows && IsActiveFor(r, g)
  }

  ghost predicate HasId(rows: seq<Suspension>, id: string) {
    exists r :: r in rows && r.id == id
  }

  // The evidence of every lifted suspension of the grant.
  function Adjudicated(rows: seq<Suspension>, g: Grant): set<string> {
    if rows == [] then {}
    else
      var r := rows[|rows| - 1];
      Adjudicated(rows[..|rows| - 1], g)
      + (if r.grant == g && !r.active then set x | x in r.evidence else {})
  }

  function Fresh(evidence: seq<string>, adjudicated: set<string>): seq<string> {
    if evidence == [] then []
    else
      var x := evidence[|evidence| - 1];
      Fresh(evidence[..|evidence| - 1], adjudicated) + (if x in adjudicated then [] else [x])
  }

  function NewSuspension(
      naming: Naming, p: Policy, now: int, target: Target, evidence: seq<string>): Suspension
  {
    Suspension(
      naming(target, evidence), target.grant, true, target.trigger, Threshold(p, target.trigger),
      evidence, now, now + p.cooldown, None)
  }

  // One target of a scan.
  ghost function SuspendIfDue(
      naming: Naming, p: Policy, now: int, rows: seq<Suspension>, target: Target,
      windowed: seq<string>): seq<Suspension>
  {
    var evidence := Fresh(windowed, Adjudicated(rows, target.grant));
    if |evidence| < Threshold(p, target.trigger) || HasActive(rows, target.grant)
       || HasId(rows, naming(target, evidence)) then rows
    else rows + [NewSuspension(naming, p, now, target, evidence)]
  }

  // The targets of one trigger in some order.
  ghost function ScanTargets(
      naming: Naming, p: Policy, calls: map<string, CallRow>, events: seq<Event>, now: int,
      rows: seq<Suspension>, trigger: Trigger, grants: seq<Grant>): seq<Suspension>
  {
    if grants == [] then rows
    else
      var before :=
        ScanTargets(naming, p, calls, events, now, rows, trigger, grants[..|grants| - 1]);
      var target := Target(trigger, grants[|grants| - 1]);
      SuspendIfDue(naming, p, now, before, target,
                   WindowEvidence(calls, events, now - p.window, now, target))
  }

  ghost function ScanRows(
      naming: Naming, p: Policy, calls: map<string, CallRow>, events: seq<Event>, now: int,
      rows: seq<Suspension>, rejected: seq<Grant>, violating: seq<Grant>): seq<Suspension>
  {
    var first := ScanTargets(naming, p, calls, events, now, rows, RepeatedRejections, rejected);
    ScanTargets(naming, p, calls, events, now, first, PolicyViolations, violating)
  }

  // The grants with evidence for the trigger, each once.
  ghost predicate ListsTargets(
      p: Policy, calls: map<string, CallRow>, events: seq<Event>, now: int, trigger: Trigger,
      grants: seq<Grant>)
  {
    && (forall i, j | 0 <= i < j < |grants| :: grants[i] != grants[j])
    && (forall g :: g in grants <==>
         WindowEvidence(calls, events, now - p.window, now, Target(trigger, g)) != [])
  }

  // How the texts that targets are encoded as compare: no two targets share one.
  type GrantOrder = (Grant, Grant) -> bool

  ghost predicate IsStrictOrder(before: GrantOrder) {
    && (forall a, b :: before(a, b) ==> !before(b, a))
    && (forall a, b :: a != b ==> before(a, b) || before(b, a))
    && (forall a, b, c :: before(a, b) && before(b, c) ==> before(a, c))
  }

  ghost predicate IsSorted(before: GrantOrder, grants: seq<Grant>) {
    forall i, j | 0 <= i < j < |grants| :: before(grants[i], grants[j])
  }

  function InsertGrant(before: GrantOrder, g: Grant, grants: seq<Grant>): (r: seq<Grant>)
    ensures forall x :: x in r <==> x == g || x in grants
  {
    if grants == [] || before(g, grants[0]) then [g] + grants
    else [grants[0]] + InsertGrant(before, g, grants[1..])
  }

  function SortGrants(before: GrantOrder, grants: seq<Grant>): (r: seq<Grant>)
    ensures forall x :: x in r <==> x in grants
  {
    if grants == [] then [] else InsertGrant(before, grants[0], SortGrants(before, grants[1..]))
  }

  lemma {:induction false} InsertKeepsSorted(before: GrantOrder, g: Grant, grants: seq<Grant>)
    requires IsStrictOrder(before) && IsSorted(before, grants) && g !in grants
    ensures IsSorted(before, InsertGrant(before, g, grants))
  {
    if grants != [] && !before(g, grants[0]) {
      var rest := InsertGrant(before, g, grants[1..]);
      InsertKeepsSorted(before, g, grants[1..]);
      forall j | 0 <= j < |rest| ensures before(grants[0], rest[j]) {
        assert rest[j] in rest;
      }
    }
  }

  lemma {:induction false} SortSorts(before: GrantOrder, grants: seq<Grant>)
    requires IsStrictOrder(before) && forall i, j | 0 <= i < j < |grants| :: grants[i] != grants[j]
    ensures IsSorted(before, SortGrants(before, grants))
  {
    if grants != [] {
      SortSorts(before, grants[1..]);
      InsertKeepsSorted(before, grants[0], SortGrants(before, grants[1..]));
    }
  }

  lemma SortedIsDistinct(before: GrantOrder, grants: seq<Grant>)
    requires IsStrictOrder(before) && IsSorted(before, grants)
    ensures forall i, j | 0 <= i < j < |grants| :: grants[i] != grants[j]
  {
  }

  function LiftRow(r: Suspension, now: int): Suspension {
    r.(active := false, liftedAt := Some(now))
  }

  // Row i is the one named, and is lifted unless it was before.
  ghost predicate Lifts(
      before: seq<Suspension>, i: int, id: string, now: int, after: seq<Suspension>, r: Suspension)
  {
    && 0 <= i < |before| && before[i].id == id
    && (if before[i].active then
          && now >= before[i].cooldownUntil
          && r == LiftRow(before[i], now) && after == before[i := r]
        else r == before[i] && after == before)
  }

  // ---- The service ---------------------------------------------------------

  function EvidenceFor(m: map<Grant, seq<string>>, g: Grant): seq<string> {
    if g in m then m[g] else []
  }

  function AppendEvidence(m: map<Grant, seq<string>>, g: Grant, id: string): map<Grant, seq<string>> {
    m[g := EvidenceFor(m, g) + [id]]
  }

  ghost predicate CollectedFor(
      calls: map<string, CallRow>, events: seq<Event>, lo: int, hi: int, trigger: Trigger,
      m: map<Grant, seq<string>>, g: Grant)
  {
    && EvidenceFor(m, g) == WindowEvidence(calls, events, lo, hi, Target(trigger, g))
    && (g in m ==> m[g] != [])
  }

  // The map holds each grant's window evidence, and no empty entries.
  ghost predicate Collected(
      calls: map<string, CallRow>, events: seq<Event>, lo: int, hi: int, trigger: Trigger,
      m: map<Grant, seq<string>>)
  {
    forall g :: CollectedFor(calls, events, lo, hi, trigger, m, g)
  }

  lemma NothingCollected(calls: map<string, CallRow>, lo: int, hi: int)
    ensures forall trigger :: Collected(calls, [], lo, hi, trigger, map[])
  {
  }

  lemma WindowStep(
      calls: map<string, CallRow>, events: seq<Event>, i: nat, lo: int, hi: int, target: Target)
    requires i < |events|
    ensures WindowEvidence(calls, events[..i + 1], lo, hi, target) ==
            WindowEvidence(calls, events[..i], lo, hi, target)
            + (if lo <= events[i].time <= hi && Classify(calls, events[i]) == Some(target)
               then [events[i].id] else [])
  {
    hide Classify;
    assert events[..i + 1][..i] == events[..i];
  }

  lemma CollectStep(
      calls: map<string, CallRow>, events: seq<Event>, i: nat, lo: int, hi: int, trigger: Trigger,
      m: map<Grant, seq<string>>)
    requires i < |events| && Collected(calls, events[..i], lo, hi, trigger, m)
    ensures var c := Classify(calls, events[i]);
            Collected(calls, events[..i + 1], lo, hi, trigger,
                      if lo <= events[i].time <= hi && c.Some? && c.value.trigger == trigger
                      then AppendEvidence(m, c.value.grant, events[i].id) else m)
  {
    hide Classify, WindowEvidence;
    var c := Classify(calls, events[i]);
    var n := if lo <= events[i].time <= hi && c.Some? && c.value.trigger == trigger
             then AppendEvidence(m, c.value.grant, events[i].id) else m;
    var longer := events[..i + 1];
    forall g ensures CollectedFor(calls, longer, lo, hi, trigger, n, g) {
      assert CollectedFor(calls, events[..i], lo, hi, trigger, m, g);
      WindowStep(calls, events, i, lo, hi, Target(trigger, g));
    }
  }

  lemma CollectedAreListed(
      p: Policy, calls: map<string, CallRow>, events: seq<Event>, now: int, trigger: Trigger,
      m: map<Grant, seq<string>>, grants: seq<Grant>)
    requires Collected(calls, events, now - p.window, now, trigger, m)
    requires forall i, j | 0 <= i < j < |grants| :: grants[i] != grants[j]
    requires forall g :: g in grants <==> g in m
    ensures ListsTargets(p, calls, events, now, trigger, grants)
  {
    hide WindowEvidence;
    forall g ensures g in grants <==>
                       WindowEvidence(calls, events, now - p.window, now, Target(trigger, g)) != []
    {
      assert CollectedFor(calls, events, now - p.window, now, trigger, m, g);
    }
  }

  class NarrowingService {
    const naming: Naming
    const before: GrantOrder
    var events: seq<Event>
    var calls: map<string, CallRow>
    var policy: Option<Policy>
    var rows: seq<Suspension>

    constructor (naming: Naming, before: GrantOrder)
      ensures this.naming == naming && this.before == before
      ensures events == [] && calls == map[] && policy == None && rows == []
    {
      this.naming, this.before := naming, before;
      events, calls, policy, rows := [], map[], None, [];
    }

    method FindActive(g: Grant) returns (found: bool)
      ensures found <==> HasActive(rows, g)
    {
      for i := 0 to |rows|
        invariant forall k :: 0 <= k < i ==> !IsActiveFor(rows[k], g)
      {
        if IsActiveFor(rows[i], g) {
          assert rows[i] in rows;
          return true;
        }
      }
      return false;
    }

    method Contains(id: string) returns (found: bool)
      ensures found <==> HasId(rows, id)
    {
      for i := 0 to |rows|
        invariant forall k :: 0 <= k < i ==> rows[k].id != id
      {
        if rows[i].id == id {
          assert rows[i] in rows;
          return true;
        }
      }
      return false;
    }

    method AdjudicatedEvidence(g: Grant) returns (ids: set<string>)
      ensures ids == Adjudicated(rows, g)
    {
      ids := {};
      for i := 0 to |rows|
        invariant ids == Adjudicated(rows[..i], g)
      {
        assert rows[..i + 1][..i] == rows[..i];
        if rows[i].grant == g && !rows[i].active {
          ids := ids + set x | x in rows[i].evidence;
        }
      }
      assert rows[..|rows|] == rows;
    }

    method Unadjudicated(windowed: seq<string>, adjudicated: set<string>)
      returns (evidence: seq<string>)
      ensures evidence == Fresh(windowed, adjudicated)
    {
      evidence := [];
      for i := 0 to |windowed|
        invariant evidence == Fresh(windowed[..i], adjudicated)
      {
        assert windowed[..i + 1][..i] == windowed[..i];
        if windowed[i] !in adjudicated {
          evidence := evidence + [windowed[i]];
        }
      }
      assert windowed[..|windowed|] == windowed;
    }

    // Sorts the window's events under the grants they count against.
    method CollectEvidence(lo: int, hi: int)
      returns (rejections: map<Grant, seq<string>>, violations: map<Grant, seq<string>>)
      ensures Collected(calls, events, lo, hi, RepeatedRejections, rejections)
      ensures Collected(calls, events, lo, hi, PolicyViolations, violations)
    {
      hide Collected, ViolationTarget, RejectedTarget;
      rejections, violations := map[], map[];
      NothingCollected(calls, lo, hi);
      assert events[..0] == [];
      for i := 0 to |events|
        invariant Collected(calls, events[..i], lo, hi, RepeatedRejections, rejections)
        invariant Collected(calls, events[..i], lo, hi, PolicyViolations, violations)
      {
        var event := events[i];
        CollectStep(calls, events, i, lo, hi, RepeatedRejections, rejections);
        CollectStep(calls, events, i, lo, hi, PolicyViolations, violations);
        if event.time < lo || event.time > hi {
          continue;
        }
        var rejected := RejectedTarget(event);
        if rejected.Some? {
          rejections := AppendEvidence(rejections, rejected.value, event.id);
          continue;
        }
        var violated := ViolationTarget(calls, event);
        if violated.Some? {
          violations := AppendEvidence(violations, violated.value, event.id);
        }
      }
      assert events[..|events|] == events;
    }

    method ListGrants(m: map<Grant, seq<string>>) returns (grants: seq<Grant>)
      requires IsStrictOrder(before)
      ensures IsSorted(before, grants)
      ensures forall i, j | 0 <= i < j < |grants| :: grants[i] != grants[j]
      ensures forall g :: g in grants <==> g in m
    {
      grants := [];
      var rest := m.Keys;
      while rest != {}
        invariant rest <= m.Keys
        invariant forall g :: g in grants <==> g in m.Keys - rest
        invariant forall i, j | 0 <= i < j < |grants| :: grants[i] != grants[j]
        decreases |rest|
      {
        var g :| g in rest;
        assert g !in grants;
        rest := rest - {g};
        grants := grants + [g];
      }
      SortSorts(before, grants);
      grants := SortGrants(before, grants);
      SortedIsDistinct(before, grants);
    }

    method EvaluateTarget(p: Policy, now: int, target: Target, windowed: seq<string>)
      returns (created: seq<Suspension>)
      modifies this`rows
      ensures rows == SuspendIfDue(naming, p, now, old(rows), target, windowed)
      ensures rows == old(rows) + created
    {
      created := [];
      var adjudicated := AdjudicatedEvidence(target.grant);
      var evidence := Unadjudicated(windowed, adjudicated);
      if |evidence| < Threshold(p, target.trigger) {
        return;
      }
      var active := FindActive(target.grant);
      if active {
        return;
      }
      var known := Contains(naming(target, evidence));
      if !known {
        created := [NewSuspension(naming, p, now, target, evidence)];
        rows := rows + created;
      }
    }

    method EvaluateTrigger(
        p: Policy, now: int, trigger: Trigger, evidenceByGrant: map<Grant, seq<string>>,
        grants: seq<Grant>)
      returns (created: seq<Suspension>)
      requires forall g :: g in grants ==> g in evidenceByGrant
      requires Collected(calls, events, now - p.window, now, trigger, evidenceByGrant)
      modifies this`rows
      ensures rows == ScanTargets(naming, p, calls, events, now, old(rows), trigger, grants)
      ensures rows == old(rows) + created
    {
      hide SuspendIfDue, WindowEvidence;
      created := [];
      for i := 0 to |grants|
        invariant rows == ScanTargets(naming, p, calls, events, now, old(rows), trigger, grants[..i])
        invariant rows == old(rows) + created
      {
        var g := grants[i];
        assert grants[..i + 1][..i] == grants[..i];
        assert CollectedFor(calls, events, now - p.window, now, trigger, evidenceByGrant, g);
        var suspended := EvaluateTarget(p, now, Target(trigger, g), evidenceByGrant[g]);
        created := created + suspended;
      }
      assert grants[..|grants|] == grants;
    }

    method EvaluateTriggers(
        p: Policy, now: int, rejections: map<Grant, seq<string>>, rejected: seq<Grant>,
        violations: map<Grant, seq<string>>, violating: seq<Grant>)
      returns (created: seq<Suspension>)
      requires (forall g :: g in rejected ==> g in rejections)
      requires (forall g :: g in violating ==> g in violations)
      requires Collected(calls, events, now - p.window, now, RepeatedRejections, rejections)
      requires Collected(calls, events, now - p.window, now, PolicyViolations, violations)
      modifies this`rows
      ensures rows == ScanRows(naming, p, calls, events, now, old(rows), rejected, violating)
      ensures rows == old(rows) + created
    {
      hide ScanTargets, Collected;
      var first := EvaluateTrigger(p, now, RepeatedRejections, rejections, rejected);
      var second := EvaluateTrigger(p, now, PolicyViolations, violations, violating);
      created := first + second;
    }

    // Without a ratified policy nothing happens; with one, every target is evaluated once,
    // rejections first and in the order of their texts. What it creates is what the table
    // gained, in order.
    method Scan(now: int)
      returns (created: seq<Suspension>, ghost rejected: seq<Grant>, ghost violating: seq<Grant>)
      requires IsStrictOrder(before)
      modifies this`rows
      ensures IsSorted(before, rejected) && IsSorted(before, violating)
      ensures rows == old(rows) + created
      ensures policy.None? ==> created == []
      ensures policy.Some? ==>
        && ListsTargets(policy.value, calls, events, now, RepeatedRejections, rejected)
        && ListsTargets(policy.value, calls, events, now, PolicyViolations, violating)
        && rows == ScanRows(naming, policy.value, calls, events, now, old(rows), rejected, violating)
    {
      if policy.None? {
        return [], [], [];
      }
      hide ScanRows, WindowEvidence, Collected, ListsTargets, IsStrictOrder, IsSorted;
      var p := policy.value;
      var rejections, violations := CollectEvidence(now - p.window, now);
      var rejectedGrants := ListGrants(rejections);
      var violatingGrants := ListGrants(violations);
      rejected, violating := rejectedGrants, violatingGrants;
      CollectedAreListed(p, calls, events, now, RepeatedRejections, rejections, rejected);
      CollectedAreListed(p, calls, events, now, PolicyViolations, violations, violating);
      created := EvaluateTriggers(p, now, rejections, rejectedGrants, violations, violatingGrants);
    }

    // Lifting is one-way, by a named operator, and never before the cooldown elapses.
    method Lift(id: string, blankActor: bool, now: int) returns (r: Result<Suspension, LiftError>)
      modifies this`rows
      ensures r == Err(BlankActor) <==> blankActor
      ensures r == Err(NoSuchSuspension) <==> !blankActor && !HasId(old(rows), id)
      ensures r == Err(CoolingDown) ==>
        exists s :: s in old(rows) && s.id == id && s.active && now < s.cooldownUntil
      ensures r.Err? ==> rows == old(rows)
      ensures r.Ok? ==> exists i :: Lifts(old(rows), i, id, now, rows, r.value)
    {
      if blankActor {
        return Err(BlankActor);
      }
      for i := 0 to |rows|
        invariant rows == old(rows)
        invariant forall k :: 0 <= k < i ==> rows[k].id != id
      {
        if rows[i].id == id {
          assert rows[i] in rows;
          if !rows[i].active {
            assert Lifts(old(rows), i, id, now, rows, rows[i]);
            return Ok(rows[i]);
          }
          if now < rows[i].cooldownUntil {
            return Err(CoolingDown);
          }
          var lifted := LiftRow(rows[i], now);
          rows := rows[i := lifted];
          assert Lifts(old(rows), i, id, now, rows, lifted);
          return Ok(lifted);
        }
      }
      return Err(NoSuchSuspension);
    }
  }
}
