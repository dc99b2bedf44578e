// Whole runs of the communication loop, at any instants in any order.

module HeartbeatRuns {
  import opened Prelude
  import opened Heartbeat

  // Anyone may tick by hand between beats.
  datatype Op =
    | AddCadence(cadence: Cadence)
    | SetEnabled(id: string, on: bool)
    | TickOp(at: int, sensing: Sensing)
    | BeatOp(at: int, sensing: Sensing, delivers: bool)

  ghost predicate HasCadence(s: State, id: string) {
    exists c :: c in s.cadences && c.id == id
  }

  function Enable(cs: seq<Cadence>, id: string, on: bool): (r: seq<Cadence>)
    ensures |r| == |cs|
    ensures forall k :: 0 <= k < |cs| ==>
      r[k] == if cs[k].id == id then cs[k].(enabled := on) else cs[k]
  {
    seq(|cs|, k requires 0 <= k < |cs| => if cs[k].id == id then cs[k].(enabled := on) else cs[k])
  }

  ghost function Next(cfg: Config, s: State, op: Op): State {
    match op
    case AddCadence(c) =>
      if c.interval < 1 || HasCadence(s, c.id) then s else s.(cadences := s.cadences + [c])
    case SetEnabled(id, on) => s.(cadences := Enable(s.cadences, id, on))
    case TickOp(at, sensing) => if sensing.None? then s else Tick(cfg, s, at, sensing.value)
    case BeatOp(at, sensing, delivers) =>
      (var after := BeatState(cfg, s, at, sensing, delivers);
       if after.Some? then after.value else s)
  }

  // A run from an empty store.
  ghost function Run(cfg: Config, ops: seq<Op>): State {
    if ops == [] then State([], [], [], {}, [])
    else Next(cfg, Run(cfg, ops[..|ops| - 1]), ops[|ops| - 1])
  }

  // ---- Firings are an interval apart ---------------------------------------

  // The cadence is not due again before an interval after this firing of it.
  ghost predicate NotYetDue(f: Firing, c: Cadence) {
    f.cadence == c.id ==> f.at + c.interval <= c.nextDue
  }

  ghost predicate Apart(f: Firing, g: Firing, c: Cadence) {
    f.cadence == c.id && g.cadence == c.id ==> f.at + c.interval <= g.at
  }

  ghost predicate Spaced(firings: seq<Firing>, c: Cadence) {
    forall i, j | 0 <= i < j < |firings| :: Apart(firings[i], firings[j], c)
  }

  ghost predicate CadenceOk(firings: seq<Firing>, c: Cadence) {
    c.interval >= 1 && (forall f :: f in firings ==> NotYetDue(f, c)) && Spaced(firings, c)
  }

  ghost predicate DistinctIds(cs: seq<Cadence>) {
    forall i, j | 0 <= i < j < |cs| :: cs[i].id != cs[j].id
  }

  ghost predicate FromCadence(s: State, f: Firing) {
    HasCadence(s, f.cadence)
  }

  ghost predicate Timed(s: State) {
    && DistinctIds(s.cadences)
    && (forall k :: 0 <= k < |s.cadences| ==> CadenceOk(s.firings, s.cadences[k]))
    && (forall f :: f in s.firings ==> FromCadence(s, f))
  }

  lemma FiringKeepsOthers(firings: seq<Firing>, c: Cadence, f: Firing)
    requires CadenceOk(firings, c) && f.cadence != c.id
    ensures CadenceOk(firings + [f], c)
  {
  }

  lemma FiringAdvances(firings: seq<Firing>, c: Cadence, f: Firing)
    requires CadenceOk(firings, c) && f.cadence == c.id && c.nextDue <= f.at
    ensures CadenceOk(firings + [f], Advance(c, f.at))
  {
    var n := firings + [f];
    var next := Advance(c, f.at);
    forall i, j | 0 <= i < j < |n| ensures Apart(n[i], n[j], next) {
      if j < |firings| {
        assert Apart(firings[i], firings[j], c);
      } else {
        assert firings[i] in firings && NotYetDue(firings[i], c);
      }
    }
    forall g | g in n ensures NotYetDue(g, next) {
      if g in firings { assert NotYetDue(g, c); }
    }
  }

  lemma {:induction false} TickKeepsTimed(
      cfg: Config, s: State, at: int, sense: string -> seq<Emission>, n: nat)
    requires Timed(s) && n <= |s.cadences|
    ensures Timed(TickTo(cfg, s, at, sense, n))
    ensures forall k :: 0 <= k < |s.cadences| ==>
      TickTo(cfg, s, at, sense, n).cadences[k].id == s.cadences[k].id
  {
    if n > 0 {
      TickKeepsTimed(cfg, s, at, sense, n - 1);
      var before := TickTo(cfg, s, at, sense, n - 1);
      var after := TickTo(cfg, s, at, sense, n);
      var c := s.cadences[n - 1];
      assert before.cadences[n - 1] == c;
      if Due(c, at) {
        var f := after.firings[|after.firings| - 1];
        assert after.firings == before.firings + [f] && f.cadence == c.id && f.at == at;
        hide TickTo, CadenceOk;
        forall k | 0 <= k < |after.cadences| ensures CadenceOk(after.firings, after.cadences[k]) {
          if k == n - 1 {
            FiringAdvances(before.firings, c, f);
          } else {
            FiringKeepsOthers(before.firings, before.cadences[k], f);
          }
        }
        assert FromCadence(before, f) by { assert before.cadences[n - 1] in before.cadences; }
        SameIdsKnow(before, after, f);
      }
    }
  }

  lemma SameIdsKnow(before: State, after: State, f: Firing)
    requires |after.cadences| == |before.cadences|
    requires forall k :: 0 <= k < |before.cadences| ==> after.cadences[k].id == before.cadences[k].id
    requires after.firings == before.firings + [f] && FromCadence(before, f)
    requires forall g :: g in before.firings ==> FromCadence(before, g)
    ensures forall g :: g in after.firings ==> FromCadence(after, g)
  {
    forall g | g in after.firings ensures FromCadence(after, g) {
      assert g in before.firings || g == f;
      var k :| 0 <= k < |before.cadences| && before.cadences[k].id == g.cadence;
      assert after.cadences[k] in after.cadences;
    }
  }

  lemma StepKeepsTimed(cfg: Config, s: State, op: Op)
    requires Timed(s)
    ensures Timed(Next(cfg, s, op))
  {
    match op
    case AddCadence(c) => if c.interval >= 1 && !HasCadence(s, c.id) { AddKeepsTimed(s, c); }
    case SetEnabled(id, on) => EnableKeepsTimed(s, id, on);
    case TickOp(at, sensing) =>
      if sensing.Some? { TickKeepsTimed(cfg, s, at, sensing.value, |s.cadences|); }
    case BeatOp(at, sensing, _) =>
      if sensing.Some? { TickKeepsTimed(cfg, s, at, sensing.value, |s.cadences|); }
  }

  lemma AddKeepsTimed(s: State, c: Cadence)
    requires Timed(s) && c.interval >= 1 && !HasCadence(s, c.id)
    ensures Timed(s.(cadences := s.cadences + [c]))
  {
    var n := s.(cadences := s.cadences + [c]);
    forall f | f in s.firings ensures FromCadence(n, f) && f.cadence != c.id {
      assert FromCadence(s, f);
      var d :| d in s.cadences && d.id == f.cadence;
      assert d in n.cadences;
    }
    forall k | 0 <= k < |n.cadences| ensures CadenceOk(n.firings, n.cadences[k]) {
      if k < |s.cadences| {
        assert n.cadences[k] == s.cadences[k];
      }
    }
    forall i, j | 0 <= i < j < |n.cadences| ensures n.cadences[i].id != n.cadences[j].id {
      assert n.cadences[i] in s.cadences;
    }
  }

  lemma EnableKeepsTimed(s: State, id: string, on: bool)
    requires Timed(s)
    ensures Timed(s.(cadences := Enable(s.cadences, id, on)))
  {
    var n := s.(cadences := Enable(s.cadences, id, on));
    forall k | 0 <= k < |n.cadences| ensures CadenceOk(n.firings, n.cadences[k]) {
      assert CadenceOk(s.firings, s.cadences[k]);
      forall f | f in n.firings ensures NotYetDue(f, n.cadences[k]) {
        assert NotYetDue(f, s.cadences[k]);
      }
      forall i, j | 0 <= i < j < |n.firings| ensures Apart(n.firings[i], n.firings[j], n.cadences[k]) {
        assert Apart(s.firings[i], s.firings[j], s.cadences[k]);
      }
    }
    forall f | f in n.firings ensures FromCadence(n, f) {
      assert FromCadence(s, f);
      var k :| 0 <= k < |s.cadences| && s.cadences[k].id == f.cadence;
      assert n.cadences[k] in n.cadences;
    }
  }

  lemma {:induction false} RunsAreTimed(cfg: Config, ops: seq<Op>)
    ensures Timed(Run(cfg, ops))
  {
    hide Next;
    if ops != [] {
      RunsAreTimed(cfg, ops[..|ops| - 1]);
      StepKeepsTimed(cfg, Run(cfg, ops[..|ops| - 1]), ops[|ops| - 1]);
    }
  }

  // Whatever the tick times and their order, two firings of a cadence are at least its
  // interval apart.
  lemma FiringsAreAnIntervalApart(cfg: Config, ops: seq<Op>, c: Cadence, i: nat, j: nat)
    requires var s := Run(cfg, ops);
             && c in s.cadences && i < j < |s.firings|
             && s.firings[i].cadence == c.id && s.firings[j].cadence == c.id
    ensures var s := Run(cfg, ops); s.firings[i].at + c.interval <= s.firings[j].at
  {
    var s := Run(cfg, ops);
    RunsAreTimed(cfg, ops);
    var k :| 0 <= k < |s.cadences| && s.cadences[k] == c;
    assert Apart(s.firings[i], s.firings[j], c);
  }

  function FiringsWithin(firings: seq<Firing>, id: string, a: int, b: int): nat {
    if firings == [] then 0
    else
      var f := firings[|firings| - 1];
      FiringsWithin(firings[..|firings| - 1], id, a, b)
      + (if f.cadence == id && a <= f.at <= b then 1 else 0)
  }

  ghost predicate WithinAt(firings: seq<Firing>, id: string, a: int, b: int, k: int) {
    0 <= k < |firings| && firings[k].cadence == id && a <= firings[k].at <= b
  }

  lemma {:induction false} LastWithinIsFar(
      firings: seq<Firing>, c: Cadence, n: nat, a: int, b: int) returns (k: int)
    requires n <= |firings| && c.interval >= 1 && Spaced(firings, c)
    ensures var m := FiringsWithin(firings[..n], c.id, a, b);
            m == 0 || (WithinAt(firings[..n], c.id, a, b, k)
                       && (m - 1) * c.interval <= firings[k].at - a)
  {
    if n == 0 {
      k := -1;
    } else {
      k := LastWithinIsFar(firings, c, n - 1, a, b);
      assert firings[..n][..n - 1] == firings[..n - 1];
      var m := FiringsWithin(firings[..n - 1], c.id, a, b);
      if WithinAt(firings, c.id, a, b, n - 1) {
        if m > 0 {
          assert Apart(firings[k], firings[n - 1], c);
          assert m * c.interval == (m - 1) * c.interval + c.interval;
        }
        k := n - 1;
      }
    }
  }

  lemma SpacingBounds(firings: seq<Firing>, c: Cadence, a: int, b: int)
    requires c.interval >= 1 && Spaced(firings, c) && a <= b
    ensures FiringsWithin(firings, c.id, a, b) <= (b - a) / c.interval + 1
  {
    hide Spaced, FiringsWithin;
    var k := LastWithinIsFar(firings, c, |firings|, a, b);
    assert firings[..|firings|] == firings;
    var m := FiringsWithin(firings, c.id, a, b);
    if m > 0 {
      assert (m - 1) * c.interval <= b - a;
      QuotientBounds(m - 1, c.interval, b - a);
    }
  }

  // So between two instants a cadence fires at most once per interval, and once more.
  lemma FiringsAreBounded(cfg: Config, ops: seq<Op>, c: Cadence, a: int, b: int)
    requires c in Run(cfg, ops).cadences && a <= b
    ensures c.interval >= 1
    ensures FiringsWithin(Run(cfg, ops).firings, c.id, a, b) <= (b - a) / c.interval + 1
  {
    var s := Run(cfg, ops);
    RunsAreTimed(cfg, ops);
    var i :| 0 <= i < |s.cadences| && s.cadences[i] == c;
    assert CadenceOk(s.firings, c);
    hide Run, Timed, Spaced, FiringsWithin;
    SpacingBounds(s.firings, c, a, b);
  }

  lemma QuotientBounds(m: int, d: int, x: int)
    requires d >= 1 && m * d <= x
    ensures m <= x / d
  {
    var q := x / d;
    assert x < (q + 1) * d;
    if m >= q + 1 {
      ProductGrows(q + 1, m, d);
    }
  }

  lemma ProductGrows(a: int, b: int, d: int)
    requires a <= b && d >= 0
    ensures a * d <= b * d
  {
  }

  // ---- A tick repeated at the same instant ---------------------------------

  lemma {:induction false} NothingDueNothingDone(
      cfg: Config, s: State, at: int, sense: string -> seq<Emission>, n: nat)
    requires n <= |s.cadences| && forall k :: 0 <= k < |s.cadences| ==> !Due(s.cadences[k], at)
    ensures TickTo(cfg, s, at, sense, n) == s
  {
    if n > 0 {
      NothingDueNothingDone(cfg, s, at, sense, n - 1);
    }
  }

  lemma {:induction false} TickedIsNotDue(
      cfg: Config, s: State, at: int, sense: string -> seq<Emission>, n: nat)
    requires Timed(s) && n <= |s.cadences|
    ensures forall k :: 0 <= k < n ==> !Due(TickTo(cfg, s, at, sense, n).cadences[k], at)
  {
    if n > 0 {
      TickedIsNotDue(cfg, s, at, sense, n - 1);
      assert CadenceOk(s.firings, s.cadences[n - 1]);
    }
  }

  // Ticking again at the same instant does nothing, whatever the sensors would say.
  lemma RetickChangesNothing(
      cfg: Config, s: State, at: int, sense: string -> seq<Emission>, again: string -> seq<Emission>)
    requires Timed(s)
    ensures Tick(cfg, Tick(cfg, s, at, sense), at, again) == Tick(cfg, s, at, sense)
  {
    var t := Tick(cfg, s, at, sense);
    TickedIsNotDue(cfg, s, at, sense, |s.cadences|);
    NothingDueNothingDone(cfg, t, at, again, |t.cadences|);
  }

  // ---- Digests -------------------------------------------------------------

  ghost predicate DistinctNotifications(ns: seq<Notification>) {
    forall i, j | 0 <= i < j < |ns| :: ns[i].id != ns[j].id
  }

  lemma {:induction false} EmitAllKeepsDistinct(
      cfg: Config, ns: seq<Notification>, es: seq<Emission>, at: int)
    requires DistinctNotifications(ns)
    ensures DistinctNotifications(EmitAll(cfg, ns, es, at))
  {
    if es != [] {
      EmitAllKeepsDistinct(cfg, ns, es[..|es| - 1], at);
    }
  }

  lemma {:induction false} TickKeepsDistinct(
      cfg: Config, s: State, at: int, sense: string -> seq<Emission>, n: nat)
    requires DistinctNotifications(s.notifications) && n <= |s.cadences|
    ensures DistinctNotifications(TickTo(cfg, s, at, sense, n).notifications)
  {
    hide EmitAll;
    if n > 0 {
      TickKeepsDistinct(cfg, s, at, sense, n - 1);
      var before := TickTo(cfg, s, at, sense, n - 1);
      EmitAllKeepsDistinct(cfg, before.notifications, sense(s.cadences[n - 1].id), at);
    }
  }

  // Every id a digest shows is one of the notifications created so far.
  ghost predicate Created(ns: seq<Notification>, d: Digest) {
    forall id :: id in d.shown ==> Known(ns, id)
  }

  ghost predicate ShownOnce(ids: seq<string>) {
    forall i, j | 0 <= i < j < |ids| :: ids[i] != ids[j]
  }

  ghost predicate NothingShared(d: Digest, e: Digest) {
    forall id :: !(id in d.shown && id in e.shown)
  }

  ghost predicate DigestsApart(digests: seq<Digest>) {
    forall i, j | 0 <= i < j < |digests| :: NothingShared(digests[i], digests[j])
  }

  ghost predicate Delivered(s: State) {
    && DistinctNotifications(s.notifications)
    && (forall d :: d in s.digests ==> Created(s.notifications, d) && ShownOnce(d.shown))
    && DigestsApart(s.digests)
  }

  lemma MoreNotificationsKeep(s: State, n: State)
    requires Delivered(s) && n.digests == s.digests && s.notifications <= n.notifications
    requires DistinctNotifications(n.notifications)
    ensures Delivered(n)
  {
    forall d | d in n.digests ensures Created(n.notifications, d) {
      forall id | id in d.shown ensures Known(n.notifications, id) {
        var k :| 0 <= k < |s.notifications| && s.notifications[k].id == id;
        assert n.notifications[k].id == id;
      }
    }
  }

  // A digest of notifications newer than everything shown before.
  lemma NewDigestKeeps(cfg: Config, s: State, before: nat, d: Digest)
    requires Delivered(s) && before <= |s.notifications|
    requires d.shown == Shown(cfg, IdsOf(s.notifications[before..]))
    requires forall e :: e in s.digests ==> Created(s.notifications[..before], e)
    ensures Delivered(s.(digests := s.digests + [d]))
  {
    var ns := s.notifications;
    forall i | 0 <= i < |d.shown| ensures d.shown[i] == ns[before + i].id {}
    forall id | id in d.shown ensures Known(ns, id) {
      var i :| 0 <= i < |d.shown| && d.shown[i] == id;
      assert ns[before + i].id == id;
    }
    forall e | e in s.digests ensures NothingShared(e, d) {
      forall id ensures !(id in e.shown && id in d.shown) {
        if id in e.shown {
          var k :| 0 <= k < before && ns[..before][k].id == id;
          forall i | 0 <= i < |d.shown| ensures d.shown[i] != id {
            assert d.shown[i] == ns[before + i].id;
          }
        }
      }
    }
  }

  lemma StepKeepsDelivered(cfg: Config, s: State, op: Op)
    requires Delivered(s)
    ensures Delivered(Next(cfg, s, op))
  {
    hide Created, Shown;
    match op
    case AddCadence(c) =>
    case SetEnabled(id, on) =>
    case TickOp(at, sensing) =>
      if sensing.Some? {
        TickKeepsDistinct(cfg, s, at, sensing.value, |s.cadences|);
        MoreNotificationsKeep(s, Tick(cfg, s, at, sensing.value));
      }
    case BeatOp(at, sensing, delivers) =>
      if at !in s.beats && sensing.Some? {
        var t := Tick(cfg, s, at, sensing.value);
        TickKeepsDistinct(cfg, s, at, sensing.value, |s.cadences|);
        MoreNotificationsKeep(s, t);
        var ids := IdsOf(t.notifications[|s.notifications|..]);
        assert t.notifications[..|s.notifications|] == s.notifications;
        NewDigestKeeps(cfg, t, |s.notifications|,
                       Digest(at, Shown(cfg, ids), |ids| - |Shown(cfg, ids)|));
      }
  }

  // No notification is delivered twice: digests are pairwise disjoint.
  lemma {:induction false} DigestsAreDisjoint(cfg: Config, ops: seq<Op>)
    ensures Delivered(Run(cfg, ops))
  {
    hide Next;
    if ops != [] {
      DigestsAreDisjoint(cfg, ops[..|ops| - 1]);
      StepKeepsDelivered(cfg, Run(cfg, ops[..|ops| - 1]), ops[|ops| - 1]);
    }
  }

  function Accounted(digests: seq<Digest>): nat {
    if digests == [] then 0
    else
      Accounted(digests[..|digests| - 1])
      + |digests[|digests| - 1].shown| + digests[|digests| - 1].truncated
  }

  // The notifications created by ticks outside a beat.
  ghost function TickedByHand(cfg: Config, ops: seq<Op>): int {
    if ops == [] then 0
    else
      var s := Run(cfg, ops[..|ops| - 1]);
      TickedByHand(cfg, ops[..|ops| - 1])
      + (if ops[|ops| - 1].TickOp?
         then |Next(cfg, s, ops[|ops| - 1]).notifications| - |s.notifications| else 0)
  }

  // Shown and truncated together account for every notification the beats created.
  lemma {:induction false} DigestsAccountForBeats(cfg: Config, ops: seq<Op>)
    ensures var s := Run(cfg, ops);
            Accounted(s.digests) + TickedByHand(cfg, ops) == |s.notifications|
  {
    if ops != [] {
      DigestsAccountForBeats(cfg, ops[..|ops| - 1]);
      StepAccounts(cfg, Run(cfg, ops[..|ops| - 1]), ops[|ops| - 1]);
    }
  }

  lemma StepAccounts(cfg: Config, s: State, op: Op)
    ensures var n := Next(cfg, s, op);
            Accounted(n.digests) - Accounted(s.digests) ==
              if op.TickOp? then 0 else |n.notifications| - |s.notifications|
  {
    hide TickTo, Tick, BeatState, Accounted;
    if op.TickOp? && op.sensing.Some? {
      TickDelivers(cfg, s, op.at, op.sensing.value);
    } else if op.BeatOp? {
      BeatAccounts(cfg, s, op.at, op.sensing, op.delivers);
    }
  }

  lemma TickDelivers(cfg: Config, s: State, at: int, sense: string -> seq<Emission>)
    ensures var t := Tick(cfg, s, at, sense); t.digests == s.digests && s.notifications <= t.notifications
  {
  }

  lemma BeatAccounts(cfg: Config, s: State, at: int, sensing: Sensing, delivers: bool)
    ensures var after := BeatState(cfg, s, at, sensing, delivers);
            after.Some? ==>
              Accounted(after.value.digests) - Accounted(s.digests) ==
                |after.value.notifications| - |s.notifications|
  {
    if at !in s.beats && sensing.Some? {
      var t := Tick(cfg, s, at, sensing.value);
      TickDelivers(cfg, s, at, sensing.value);
      hide Tick, Accounted, Shown;
      var ids := IdsOf(t.notifications[|s.notifications|..]);
      var shown := Shown(cfg, ids);
      OneMoreDigest(s.digests, Digest(at, shown, |ids| - |shown|));
    }
  }

  lemma OneMoreDigest(digests: seq<Digest>, d: Digest)
    ensures Accounted(digests + [d]) == Accounted(digests) + |d.shown| + d.truncated
  {
    assert (digests + [d])[..|digests|] == digests;
  }
}
