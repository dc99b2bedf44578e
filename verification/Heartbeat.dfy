// The communication loop: cadences that fire when due, notifications emitted once, and the
// heartbeat that ticks and delivers one digest, all or nothing.

module Heartbeat {
  import opened Prelude

  datatype Cadence = Cadence(
    id: string, interval: int, enabled: bool, lastFired: Option<int>, nextDue: int)

  // What a sensor wants reported, with the key that identifies it.
  datatype Emission = Emission(kind: string, key: string)

  datatype Notification = Notification(id: string, kind: string, key: string, at: int)

  datatype Firing = Firing(cadence: string, at: int, notifications: seq<string>)

  datatype Digest = Digest(at: int, shown: seq<string>, truncated: nat)

  datatype State = State(
    cadences: seq<Cadence>,
    notifications: seq<Notification>,
    firings: seq<Firing>,
    beats: set<int>,
    digests: seq<Digest>)

  // Names notifications by a hash; caps what one digest shows.
  datatype Config = Config(naming: (string, string) -> string, cap: nat)

  // What the sensors of one tick find, per cadence; absent when one throws.
  type Sensing = Option<string -> seq<Emission>>

  datatype BeatResult = BeatResult(count: nat, delivered: bool, truncated: nat)

  predicate Due(c: Cadence, at: int) {
    c.enabled && c.nextDue <= at
  }

  function Advance(c: Cadence, at: int): Cadence {
    c.(lastFired := Some(at), nextDue := at + c.interval)
  }

  function IdsOf(ns: seq<Notification>): (ids: seq<string>)
    ensures |ids| == |ns| && forall k :: 0 <= k < |ns| ==> ids[k] == ns[k].id
  {
    seq(|ns|, k requires 0 <= k < |ns| => ns[k].id)
  }

  predicate Known(ns: seq<Notification>, id: string) {
    exists k :: 0 <= k < |ns| && ns[k].id == id
  }

  // Emits unless a notification of that id exists.
  function Emit(cfg: Config, ns: seq<Notification>, e: Emission, at: int): seq<Notification> {
    var id := cfg.naming(e.kind, e.key);
    if Known(ns, id) then ns else ns + [Notification(id, e.kind, e.key, at)]
  }

  function EmitAll(cfg: Config, ns: seq<Notification>, es: seq<Emission>, at: int)
    : (r: seq<Notification>)
    ensures ns <= r
  {
    if es == [] then ns
    else Emit(cfg, EmitAll(cfg, ns, es[..|es| - 1], at), es[|es| - 1], at)
  }

  // A tick with the first n cadences looked at.
  function TickTo(
      cfg: Config, s: State, at: int, sense: string -> seq<Emission>, n: nat): (r: State)
    requires n <= |s.cadences|
    ensures |r.cadences| == |s.cadences| && s.notifications <= r.notifications
    ensures r.beats == s.beats && r.digests == s.digests
    ensures forall k :: n <= k < |s.cadences| ==> r.cadences[k] == s.cadences[k]
  {
    if n == 0 then s
    else
      var before := TickTo(cfg, s, at, sense, n - 1);
      var c := s.cadences[n - 1];
      if !Due(c, at) then before
      else
        var ns := EmitAll(cfg, before.notifications, sense(c.id), at);
        before.(
          cadences := before.cadences[n - 1 := Advance(c, at)],
          notifications := ns,
          firings := before.firings + [Firing(c.id, at, IdsOf(ns[|before.notifications|..]))])
  }

  function Tick(cfg: Config, s: State, at: int, sense: string -> seq<Emission>): State {
    TickTo(cfg, s, at, sense, |s.cadences|)
  }

  function Shown(cfg: Config, ids: seq<string>): (r: seq<string>)
    ensures |r| <= cfg.cap && r <= ids
  {
    if |ids| <= cfg.cap then ids else ids[..cfg.cap]
  }

  // What a committed beat leaves; None when a sensor or the delivery throws.
  function BeatState(cfg: Config, s: State, at: int, sensing: Sensing, delivers: bool): Option<State> {
    if at in s.beats then Some(s)
    else if sensing.None? then None
    else
      var t := Tick(cfg, s, at, sensing.value);
      var ids := IdsOf(t.notifications[|s.notifications|..]);
      var shown := Shown(cfg, ids);
      if ids == [] then Some(t.(beats := t.beats + {at}))
      else if !delivers then None
      else
        Some(t.(beats := t.beats + {at},
                digests := t.digests + [Digest(at, shown, |ids| - |shown|)]))
  }

  // One pass of the daemon's loop.
  datatype Pass = Pass(at: int, sensing: Sensing, delivers: bool, stopAfter: bool)

  function PassState(cfg: Config, s: State, p: Pass): State {
    var after := BeatState(cfg, s, p.at, p.sensing, p.delivers);
    if after.Some? then after.value else s
  }

  function Passes(cfg: Config, s: State, passes: seq<Pass>): State {
    if passes == [] then s
    else PassState(cfg, Passes(cfg, s, passes[..|passes| - 1]), passes[|passes| - 1])
  }

  function Committed(cfg: Config, s: State, passes: seq<Pass>): nat {
    if passes == [] then 0
    else
      var p := passes[|passes| - 1];
      Committed(cfg, s, passes[..|passes| - 1])
      + (if BeatState(cfg, Passes(cfg, s, passes[..|passes| - 1]), p.at, p.sensing, p.delivers).Some?
         then 1 else 0)
  }

  // ---- The services --------------------------------------------------------

  class HeartbeatService {
    const cfg: Config
    var cadences: seq<Cadence>
    var notifications: seq<Notification>
    var firings: seq<Firing>
    var beats: set<int>
    var digests: seq<Digest>

    ghost function Contents(): State
      reads this
    {
      State(cadences, notifications, firings, beats, digests)
    }

    constructor (cfg: Config)
      ensures this.cfg == cfg && Contents() == State([], [], [], {}, [])
    {
      this.cfg := cfg;
      cadences, notifications, firings, beats, digests := [], [], [], {}, [];
    }

    method EmitOne(e: Emission, at: int) returns (created: Option<string>)
      modifies this`notifications
      ensures notifications == Emit(cfg, old(notifications), e, at)
      ensures created == if notifications == old(notifications) then None
                         else Some(cfg.naming(e.kind, e.key))
    {
      var id := cfg.naming(e.kind, e.key);
      for i := 0 to |notifications|
        invariant notifications == old(notifications)
        invariant forall k :: 0 <= k < i ==> notifications[k].id != id
      {
        if notifications[i].id == id {
          return None;
        }
      }
      notifications := notifications + [Notification(id, e.kind, e.key, at)];
      return Some(id);
    }

    // Emits what one sensor found and lists what was new.
    method RunSensor(es: seq<Emission>, at: int) returns (ids: seq<string>)
      modifies this`notifications
      ensures notifications == EmitAll(cfg, old(notifications), es, at)
      ensures ids == IdsOf(notifications[|old(notifications)|..])
    {
      ids := [];
      for i := 0 to |es|
        invariant notifications == EmitAll(cfg, old(notifications), es[..i], at)
        invariant |ids| == |notifications| - |old(notifications)|
        invariant forall k :: 0 <= k < |ids| ==> ids[k] == notifications[|old(notifications)| + k].id
      {
        assert es[..i + 1][..i] == es[..i];
        var created := EmitOne(es[i], at);
        if created.Some? {
          ids := ids + [created.value];
        }
      }
      assert es[..|es|] == es;
    }

    method TickDue(at: int, sense: string -> seq<Emission>)
      returns (fired: seq<Firing>, count: nat, newIds: seq<string>)
      modifies this`cadences, this`notifications, this`firings
      ensures Contents() == Tick(cfg, old(Contents()), at, sense)
      ensures firings == old(firings) + fired
      ensures newIds == IdsOf(notifications[|old(notifications)|..]) && count == |newIds|
    {
      hide EmitAll;
      ghost var start := Contents();
      fired, count, newIds := [], 0, [];
      var n := |cadences|;
      for i := 0 to n
        invariant n == |start.cadences| && Contents() == TickTo(cfg, start, at, sense, i)
        invariant firings == start.firings + fired && count == |newIds|
        invariant |newIds| == |notifications| - |start.notifications|
        invariant forall k :: 0 <= k < |newIds| ==>
          newIds[k] == notifications[|start.notifications| + k].id
      {
        var cadence := cadences[i];
        if cadence.enabled && cadence.nextDue <= at {
          var ids := RunSensor(sense(cadence.id), at);
          count := count + |ids|;
          newIds := newIds + ids;
          cadences := cadences[i := Advance(cadence, at)];
          fired := fired + [Firing(cadence.id, at, ids)];
          firings := firings + [Firing(cadence.id, at, ids)];
        }
      }
    }

    // A beat commits as a whole or changes nothing; beating a committed instant again is a
    // no-op.
    method Beat(at: int, sensing: Sensing, delivers: bool) returns (r: Option<BeatResult>)
      modifies this
      ensures var spec := BeatState(cfg, old(Contents()), at, sensing, delivers);
              && Contents() == (if spec.Some? then spec.value else old(Contents()))
              && (r.Some? <==> spec.Some?)
      ensures r.Some? ==>
        && r.value.count == |notifications| - |old(notifications)|
        && (r.value.delivered <==> |digests| > |old(digests)|)
        && (r.value.delivered ==>
             && digests[|digests| - 1].truncated == r.value.truncated
             && |digests[|digests| - 1].shown| + r.value.truncated == r.value.count)
    {
      if at in beats {
        return Some(BeatResult(0, false, 0));
      }
      if sensing.None? {
        return None;
      }
      var cadencesBefore, notificationsBefore, firingsBefore := cadences, notifications, firings;
      var fired, count, newIds := TickDue(at, sensing.value);
      var shown := Shown(cfg, newIds);
      var truncated := |newIds| - |shown|;
      if |newIds| == 0 {
        beats := beats + {at};
        return Some(BeatResult(0, false, 0));
      }
      if !delivers {
        cadences, notifications, firings := cadencesBefore, notificationsBefore, firingsBefore;
        return None;
      }
      beats := beats + {at};
      digests := digests + [Digest(at, shown, truncated)];
      return Some(BeatResult(|newIds|, true, truncated));
    }

    // The daemon: a failed beat is survived, and only committed beats are counted.
    method RunDaemon(passes: seq<Pass>) returns (done: nat, count: nat)
      modifies this
      ensures done <= |passes|
      ensures forall k :: 0 <= k < done - 1 ==> !passes[k].stopAfter
      ensures done < |passes| ==> done > 0 && passes[done - 1].stopAfter
      ensures Contents() == Passes(cfg, old(Contents()), passes[..done])
      ensures count == Committed(cfg, old(Contents()), passes[..done])
    {
      done, count := 0, 0;
      ghost var start := Contents();
      while done < |passes|
        invariant done <= |passes|
        invariant forall k :: 0 <= k < done ==> !passes[k].stopAfter
        invariant Contents() == Passes(cfg, start, passes[..done])
        invariant count == Committed(cfg, start, passes[..done])
      {
        var pass := passes[done];
        assert passes[..done + 1][..done] == passes[..done];
        var result := Beat(pass.at, pass.sensing, pass.delivers);
        if result.Some? {
          count := count + 1;
        }
        done := done + 1;
        if pass.stopAfter {
          return;
        }
      }
    }
  }
}
