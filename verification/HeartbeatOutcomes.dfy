// What a tick and a beat come to, cadence by cadence and notification by notification.

module HeartbeatOutcomes {
  import opened Prelude
  import opened Heartbeat
  import opened HeartbeatRuns

  // ---- Notifications -------------------------------------------------------

  ghost predicate HasNotification(ns: seq<Notification>, id: string) {
    exists n :: n in ns && n.id == id
  }

  // The notification says what the emission does.
  ghost predicate Reports(cfg: Config, n: Notification, e: Emission, at: int) {
    n == Notification(cfg.naming(e.kind, e.key), e.kind, e.key, at)
  }

  // Emitting adds a notification for each emission whose id is not on record yet, and no
  // other: each is there afterwards, each new one is one of them and is new.
  ghost predicate Emits(
      cfg: Config, before: seq<Notification>, es: seq<Emission>, at: int, after: seq<Notification>)
  {
    && before <= after
    && (forall e :: e in es ==> HasNotification(after, cfg.naming(e.kind, e.key)))
    && (forall k :: |before| <= k < |after| ==> IsNews(cfg, es, at, after, k))
  }

  // Notification k reports one of the emissions, and was not there before.
  ghost predicate IsNews(cfg: Config, es: seq<Emission>, at: int, ns: seq<Notification>, k: int)
    requires 0 <= k < |ns|
  {
    (exists e :: e in es && Reports(cfg, ns[k], e, at)) && !HasNotification(ns[..k], ns[k].id)
  }

  lemma KnownIff(ns: seq<Notification>, id: string)
    ensures Known(ns, id) <==> HasNotification(ns, id)
  {
  }

  lemma {:induction false} EmitAllEmits(cfg: Config, ns: seq<Notification>, es: seq<Emission>, at: int)
    ensures Emits(cfg, ns, es, at, EmitAll(cfg, ns, es, at))
  {
    if es != [] {
      var n := |es| - 1;
      EmitAllEmits(cfg, ns, es[..n], at);
      assert es == es[..n] + [es[n]];
      var before := EmitAll(cfg, ns, es[..n], at);
      EmitEmits(cfg, before, es[n], at);
      hide Emits, Emit;
      EmitsJoin(cfg, ns, es[..n], before, [es[n]], EmitAll(cfg, ns, es, at), at);
    }
  }

  lemma EmitEmits(cfg: Config, ns: seq<Notification>, e: Emission, at: int)
    ensures Emits(cfg, ns, [e], at, Emit(cfg, ns, e, at))
  {
    var id, after := cfg.naming(e.kind, e.key), Emit(cfg, ns, e, at);
    KnownIff(ns, id);
    if |after| > |ns| {
      assert after[|ns|] in after && after[..|ns|] == ns;
      assert e in [e] && Reports(cfg, after[|ns|], e, at);
      assert IsNews(cfg, [e], at, after, |ns|);
    }
  }

  lemma EmitsJoin(
      cfg: Config, start: seq<Notification>, es: seq<Emission>, before: seq<Notification>,
      fs: seq<Emission>, after: seq<Notification>, at: int)
    requires Emits(cfg, start, es, at, before) && Emits(cfg, before, fs, at, after)
    ensures Emits(cfg, start, es + fs, at, after)
  {
    hide Reports, HasNotification, IsNews;
    assert start <= after;
    forall e | e in es + fs ensures HasNotification(after, cfg.naming(e.kind, e.key)) {
      StaysOnRecord(before, after, cfg.naming(e.kind, e.key));
    }
    forall k | |start| <= k < |after| ensures IsNews(cfg, es + fs, at, after, k) {
      if k < |before| {
        assert IsNews(cfg, es, at, before, k);
        NewsLasts(cfg, es, before, es + fs, after, at, k);
      } else {
        assert IsNews(cfg, fs, at, after, k);
        NewsLasts(cfg, fs, after, es + fs, after, at, k);
      }
    }
  }

  lemma NewsLasts(
      cfg: Config, es: seq<Emission>, before: seq<Notification>, fs: seq<Emission>,
      after: seq<Notification>, at: int, k: int)
    requires before <= after && 0 <= k < |before| && IsNews(cfg, es, at, before, k)
    requires forall e :: e in es ==> e in fs
    ensures IsNews(cfg, fs, at, after, k)
  {
    hide Reports;
    assert after[..k] == before[..k] && after[k] == before[k];
    var e :| e in es && Reports(cfg, before[k], e, at);
    assert e in fs;
  }

  lemma StaysOnRecord(before: seq<Notification>, after: seq<Notification>, id: string)
    requires before <= after
    ensures HasNotification(before, id) ==> HasNotification(after, id)
  {
    if HasNotification(before, id) {
      var n :| n in before && n.id == id;
      var k :| 0 <= k < |before| && before[k] == n;
      assert after[k] in after;
    }
  }

  // ---- A tick --------------------------------------------------------------

  // The ids of the enabled cadences whose time has come, in order.
  ghost function DueIds(cs: seq<Cadence>, at: int): seq<string> {
    if cs == [] then []
    else
      var c := cs[|cs| - 1];
      DueIds(cs[..|cs| - 1], at) + (if c.enabled && c.nextDue <= at then [c.id] else [])
  }

  // What the sensors of the cadences find, one after the other.
  ghost function Found(ids: seq<string>, sense: string -> seq<Emission>): seq<Emission> {
    if ids == [] then [] else Found(ids[..|ids| - 1], sense) + sense(ids[|ids| - 1])
  }

  // The notifications that a list of firings gave rise to, one firing after the other.
  ghost function Listed(firings: seq<Firing>): seq<string> {
    if firings == [] then []
    else Listed(firings[..|firings| - 1]) + firings[|firings| - 1].notifications
  }

  // The firings name these cadences, in order, and the instant.
  ghost predicate Fire(firings: seq<Firing>, ids: seq<string>, at: int) {
    |firings| == |ids| && forall k :: 0 <= k < |ids| ==> firings[k].cadence == ids[k] && firings[k].at == at
  }

  // A cadence as a tick leaves it.
  ghost function Ticked(c: Cadence, at: int): Cadence {
    if c.enabled && c.nextDue <= at then Cadence(c.id, c.interval, true, Some(at), at + c.interval) else c
  }

  // A tick sets every enabled cadence that is due an interval ahead, and leaves every other
  // one alone.
  lemma {:induction false} TickAdvances(cfg: Config, s: State, at: int, sense: string -> seq<Emission>, n: nat)
    requires n <= |s.cadences|
    ensures var t := TickTo(cfg, s, at, sense, n);
            && |t.cadences| == |s.cadences|
            && (forall k :: 0 <= k < n ==> t.cadences[k] == Ticked(s.cadences[k], at))
            && (forall k :: n <= k < |s.cadences| ==> t.cadences[k] == s.cadences[k])
            && t.beats == s.beats && t.digests == s.digests
  {
    hide EmitAll;
    if n > 0 {
      TickAdvances(cfg, s, at, sense, n - 1);
    }
  }

  // One more cadence of a tick.
  lemma TickStep(cfg: Config, s: State, at: int, sense: string -> seq<Emission>, n: nat)
    requires n < |s.cadences|
    ensures var before, t := TickTo(cfg, s, at, sense, n), TickTo(cfg, s, at, sense, n + 1);
            var c, ids := s.cadences[n], DueIds(s.cadences[..n], at);
            if c.enabled && c.nextDue <= at then
              && DueIds(s.cadences[..n + 1], at) == ids + [c.id]
              && t.notifications == EmitAll(cfg, before.notifications, sense(c.id), at)
              && t.firings == before.firings
                   + [Firing(c.id, at, IdsOf(t.notifications[|before.notifications|..]))]
            else t == before && DueIds(s.cadences[..n + 1], at) == ids
  {
    hide EmitAll;
    assert s.cadences[..n + 1][..n] == s.cadences[..n];
  }

  // It fires exactly the cadences that are due, each once and in order.
  lemma {:induction false} TickFires(cfg: Config, s: State, at: int, sense: string -> seq<Emission>, n: nat)
    requires n <= |s.cadences|
    ensures var t := TickTo(cfg, s, at, sense, n);
            s.firings <= t.firings && Fire(t.firings[|s.firings|..], DueIds(s.cadences[..n], at), at)
  {
    if n > 0 {
      TickFires(cfg, s, at, sense, n - 1);
      TickStep(cfg, s, at, sense, n - 1);
      hide EmitAll, Fire, TickTo, DueIds;
      var before, t := TickTo(cfg, s, at, sense, n - 1), TickTo(cfg, s, at, sense, n);
      var c := s.cadences[n - 1];
      if c.enabled && c.nextDue <= at {
        FiresMore(s.firings, before.firings, t.firings[|before.firings|],
                  DueIds(s.cadences[..n - 1], at), c.id, at);
      }
    }
  }

  lemma FiresMore(start: seq<Firing>, before: seq<Firing>, f: Firing, ids: seq<string>, id: string, at: int)
    requires start <= before && Fire(before[|start|..], ids, at)
    requires f.cadence == id && f.at == at
    ensures Fire((before + [f])[|start|..], ids + [id], at)
  {
    assert (before + [f])[|start|..] == before[|start|..] + [f];
  }

  // The notifications it leaves are those before and, after them, what the sensors of the
  // fired cadences found that was not on record; each firing lists its own.
  lemma {:induction false} TickNotifies(cfg: Config, s: State, at: int, sense: string -> seq<Emission>, n: nat)
    requires n <= |s.cadences|
    ensures var t := TickTo(cfg, s, at, sense, n);
            && s.firings <= t.firings
            && Emits(cfg, s.notifications, Found(DueIds(s.cadences[..n], at), sense), at, t.notifications)
            && Listed(t.firings[|s.firings|..]) == IdsOf(t.notifications[|s.notifications|..])
  {
    hide EmitAll, Emits, Listed, TickTo, DueIds, Found;
    if n == 0 {
      NothingTicked(cfg, s, at, sense);
    } else {
      TickNotifies(cfg, s, at, sense, n - 1);
      TickStep(cfg, s, at, sense, n - 1);
      var before, t := TickTo(cfg, s, at, sense, n - 1), TickTo(cfg, s, at, sense, n);
      var c, ids := s.cadences[n - 1], DueIds(s.cadences[..n - 1], at);
      if c.enabled && c.nextDue <= at {
        EmitAllEmits(cfg, before.notifications, sense(c.id), at);
        FoundMore(ids, c.id, sense);
        EmitsJoin(cfg, s.notifications, Found(ids, sense), before.notifications, sense(c.id), t.notifications, at);
        ListsMore(s, before, t, t.firings[|before.firings|]);
      }
    }
  }

  lemma NothingTicked(cfg: Config, s: State, at: int, sense: string -> seq<Emission>)
    ensures TickTo(cfg, s, at, sense, 0) == s && Found(DueIds(s.cadences[..0], at), sense) == []
    ensures Emits(cfg, s.notifications, [], at, s.notifications)
    ensures Listed(s.firings[|s.firings|..]) == [] == IdsOf(s.notifications[|s.notifications|..])
  {
  }

  lemma FoundMore(ids: seq<string>, id: string, sense: string -> seq<Emission>)
    ensures Found(ids + [id], sense) == Found(ids, sense) + sense(id)
  {
    assert (ids + [id])[..|ids|] == ids;
  }

  lemma ListsMore(s: State, before: State, t: State, f: Firing)
    requires s.notifications <= before.notifications <= t.notifications
    requires s.firings <= before.firings && t.firings == before.firings + [f]
    requires f.notifications == IdsOf(t.notifications[|before.notifications|..])
    requires Listed(before.firings[|s.firings|..]) == IdsOf(before.notifications[|s.notifications|..])
    ensures Listed(t.firings[|s.firings|..]) == IdsOf(t.notifications[|s.notifications|..])
  {
    var m, b := |s.notifications|, |before.notifications|;
    assert t.notifications[m..] == before.notifications[m..] + t.notifications[b..];
    IdsJoin(before.notifications[m..], t.notifications[b..]);
    assert t.firings[|s.firings|..] == before.firings[|s.firings|..] + [f];
    ListedJoin(before.firings[|s.firings|..], f);
    hide Listed;
  }

  lemma IdsJoin(a: seq<Notification>, b: seq<Notification>)
    ensures IdsOf(a + b) == IdsOf(a) + IdsOf(b)
  {
  }

  lemma ListedJoin(firings: seq<Firing>, f: Firing)
    ensures Listed(firings + [f]) == Listed(firings) + f.notifications
  {
    assert (firings + [f])[..|firings|] == firings;
  }

  // The whole tick.
  lemma TickSays(cfg: Config, s: State, at: int, sense: string -> seq<Emission>)
    ensures var t := Tick(cfg, s, at, sense);
            var ids := DueIds(s.cadences, at);
            && |t.cadences| == |s.cadences|
            && (forall k :: 0 <= k < |s.cadences| ==> t.cadences[k] == Ticked(s.cadences[k], at))
            && s.firings <= t.firings && Fire(t.firings[|s.firings|..], ids, at)
            && Emits(cfg, s.notifications, Found(ids, sense), at, t.notifications)
            && Listed(t.firings[|s.firings|..]) == IdsOf(t.notifications[|s.notifications|..])
            && t.beats == s.beats && t.digests == s.digests
  {
    var n := |s.cadences|;
    assert s.cadences[..n] == s.cadences;
    TickAdvances(cfg, s, at, sense, n);
    TickFires(cfg, s, at, sense, n);
    TickNotifies(cfg, s, at, sense, n);
    hide TickTo, Emits, Fire, Listed;
  }

  // ---- A beat --------------------------------------------------------------

  // A beat that commits is the tick and its digest: nothing at an instant beaten before; no
  // digest when nothing is new; otherwise one that shows the first of the new ones, as many
  // as it may, and counts the rest. It fails exactly when a sensor does, or when there is
  // something to deliver and the delivery fails.
  lemma BeatSays(cfg: Config, s: State, at: int, sensing: Sensing, delivers: bool)
    ensures var r := BeatState(cfg, s, at, sensing, delivers);
            if at in s.beats then r == Some(s)
            else if sensing == None then r == None
            else
              var t := Tick(cfg, s, at, sensing.value);
              var count := |t.notifications| - |s.notifications|;
              if count == 0 then
                r == Some(State(t.cadences, t.notifications, t.firings, s.beats + {at}, s.digests))
              else if !delivers then r == None
              else
                && r.Some? && |r.value.digests| == |s.digests| + 1
                && r.value == State(t.cadences, t.notifications, t.firings, s.beats + {at},
                                    s.digests + [r.value.digests[|s.digests|]])
                && var d := r.value.digests[|s.digests|];
                   && d.at == at
                   && |d.shown| == (if count > cfg.cap then cfg.cap else count)
                   && (forall k :: 0 <= k < |d.shown| ==>
                        d.shown[k] == t.notifications[|s.notifications| + k].id)
                   && d.truncated == count - |d.shown|
  {
    if sensing.Some? {
      var t := Tick(cfg, s, at, sensing.value);
      assert IdsOf(t.notifications[|s.notifications|..]) == [] <==> |t.notifications| == |s.notifications|;
    }
    hide Tick;
  }

  // ---- The daemon and other operations -------------------------------------

  function BeatOf(p: Pass): Op {
    BeatOp(p.at, p.sensing, p.delivers)
  }

  ghost function BeatsOf(passes: seq<Pass>): seq<Op> {
    if passes == [] then [] else BeatsOf(passes[..|passes| - 1]) + [BeatOf(passes[|passes| - 1])]
  }

  // The daemon's passes are a run of beats, so all that holds of runs holds of it.
  lemma {:induction false} PassesAreARun(cfg: Config, ops: seq<Op>, passes: seq<Pass>)
    ensures Passes(cfg, Run(cfg, ops), passes) == Run(cfg, ops + BeatsOf(passes))
  {
    hide BeatState;
    if passes == [] {
      assert ops + BeatsOf(passes) == ops;
    } else {
      var n := |passes| - 1;
      PassesAreARun(cfg, ops, passes[..n]);
      var all := ops + BeatsOf(passes);
      assert all[..|all| - 1] == ops + BeatsOf(passes[..n]) && all[|all| - 1] == BeatOf(passes[n]);
    }
  }

  // Pass i of the daemon commits its beat.
  ghost predicate Commits(cfg: Config, s: State, passes: seq<Pass>, i: int)
    requires 0 <= i < |passes|
  {
    var p := passes[i];
    BeatState(cfg, Passes(cfg, s, passes[..i]), p.at, p.sensing, p.delivers).Some?
  }

  // It counts the passes whose beat committed.
  lemma {:induction false} CommittedCounts(cfg: Config, s: State, passes: seq<Pass>)
    ensures Committed(cfg, s, passes) == |set i | 0 <= i < |passes| && Commits(cfg, s, passes, i)|
  {
    hide BeatState;
    if passes != [] {
      var n := |passes| - 1;
      CommittedCounts(cfg, s, passes[..n]);
      var shorter := set i | 0 <= i < n && Commits(cfg, s, passes[..n], i);
      var all := set i | 0 <= i < |passes| && Commits(cfg, s, passes, i);
      assert Committed(cfg, s, passes) == |shorter| + if Commits(cfg, s, passes, n) then 1 else 0;
      forall i | 0 <= i < n ensures Commits(cfg, s, passes, i) == Commits(cfg, s, passes[..n], i) {
        assert passes[..n][..i] == passes[..i];
      }
      hide Commits, Committed, Passes;
      assert all == shorter + if Commits(cfg, s, passes, n) then {n} else {};
    }
  }

  // A cadence is added once, with a positive interval; enabling touches the one named.
  lemma CadencesChange(cfg: Config, s: State, c: Cadence, id: string, on: bool)
    ensures Next(cfg, s, AddCadence(c)) ==
              if c.interval >= 1 && forall d :: d in s.cadences ==> d.id != c.id
              then State(s.cadences + [c], s.notifications, s.firings, s.beats, s.digests) else s
    ensures var n := Next(cfg, s, SetEnabled(id, on));
            && n == s.(cadences := n.cadences) && |n.cadences| == |s.cadences|
            && forall k :: 0 <= k < |s.cadences| ==>
                 var d := s.cadences[k];
                 n.cadences[k] == if d.id == id then Cadence(d.id, d.interval, on, d.lastFired, d.nextDue) else d
  {
  }
}
