// What an append comes to: which reuse of a key is a replay, which is refused, and what the
// event that is stored holds.

module EventAppend {
  import opened CanonicalJson
  import opened EventChain
  import opened Prelude

  // A key already in use: the append is that event again exactly when everything it says of
  // the event agrees, and is refused otherwise.
  lemma UsedKeyIsReplayIff(
      digest: Digest, log: seq<Event>, input: AppendInput, freshId: string, now: string, existing: Event)
    requires Built(digest, log) && existing in log
    requires input.key.Some? && input.key.value != "" && existing.key == input.key
    ensures var same :=
              && existing.kind == input.kind && existing.actor == input.actor
              && existing.runId == input.runId && existing.payload == input.payload
              && (input.eventId.None? || input.eventId.value in {"", existing.id})
              && (input.timestamp.None? || input.timestamp.value in {"", existing.timestamp});
            Append(digest, log, input, freshId, now) ==
              if same then Ok(Appended(log, existing)) else Err(KeyConflict)
  {
    KeyNamesOneEvent(digest, log, existing);
  }

  // The highest number events of the run carry.
  ghost predicate LastOfRun(log: seq<Event>, runId: string, n: int) {
    && n >= 0
    && (forall e :: e in log && e.runId == Some(runId) && e.runSeq.Some? ==> e.runSeq.value <= n)
    && (n == 0 || exists e :: e in log && e.runId == Some(runId) && e.runSeq == Some(n))
  }

  lemma {:induction false} MaxRunSeqIsLast(log: seq<Event>, runId: string)
    ensures LastOfRun(log, runId, MaxRunSeq(log, runId))
  {
    if log != [] {
      var n := |log| - 1;
      MaxRunSeqIsLast(log[..n], runId);
      assert log == log[..n] + [log[n]];
      assert log[n] in log;
    }
  }

  // The event an append of an unused key stores.
  ghost predicate Stores(
      digest: Digest, log: seq<Event>, input: AppendInput, freshId: string, now: string, e: Event)
  {
    && e.id == (if input.eventId.Some? then input.eventId.value else freshId)
    && e.runId == input.runId && e.kind == input.kind && e.actor == input.actor
    && e.payload == input.payload && e.key == input.key
    && e.timestamp == (if input.timestamp.Some? then input.timestamp.value else now)
    && e.seq_ == |log| + 1
    && (if input.runId.None? || input.runId.value == "" then e.runSeq == None
        else e.runSeq.Some? && LastOfRun(log, input.runId.value, e.runSeq.value - 1))
    && e.prevHash == (if log == [] then Some(GENESIS_HASH) else log[|log| - 1].hash)
    && e.hash == Some(digest(e.(hash := None)))
  }

  lemma SealStores(
      digest: Digest, log: seq<Event>, input: AppendInput, freshId: string, now: string)
    requires Built(digest, log)
    ensures Stores(digest, log, input, freshId, now, Seal(digest, log, input, freshId, now))
  {
    hide Built, LastOfRun, MaxRunSeq, MaxSeq, LatestHash;
    BuiltSeqs(digest, log);
    if log != [] { HeadIsHashed(digest, log); }
    if input.runId.Some? { MaxRunSeqIsLast(log, input.runId.value); }
  }

  lemma HeadIsHashed(digest: Digest, log: seq<Event>)
    requires Built(digest, log) && log != []
    ensures log[|log| - 1].hash.Some?
  {
    assert LinkedAt(digest, log, GENESIS_HASH, |log| - 1);
  }

  // Only a taken id or a taken key keeps the next event out of the table.
  lemma NextIsInsertableIff(digest: Digest, log: seq<Event>, event: Event)
    requires Built(digest, log) && event.seq_ == |log| + 1
    ensures Insertable(log, event) <==> forall e :: e in log ==>
              e.id != event.id && (event.key.Some? ==> e.key != event.key)
  {
    hide Linked, UniqueRows;
    forall e | e in log ensures e.seq_ != event.seq_ {
      var k :| 0 <= k < |log| && log[k] == e;
    }
  }

  // A key not in use: the event is stored next in the log, with everything taken from the
  // input, unless its id is taken.
  lemma UnusedKeyIsStoredIff(
      digest: Digest, log: seq<Event>, input: AppendInput, freshId: string, now: string)
    requires Built(digest, log)
    requires input.key.Some? ==> forall e :: e in log ==> e.key != input.key
    ensures var id := if input.eventId.Some? then input.eventId.value else freshId;
            var r := Append(digest, log, input, freshId, now);
            if exists e :: e in log && e.id == id then r == Err(ConstraintViolation)
            else
              && r.Ok? && r.value.log == log + [r.value.event]
              && Stores(digest, log, input, freshId, now, r.value.event)
  {
    var event := Seal(digest, log, input, freshId, now);
    SealStores(digest, log, input, freshId, now);
    NextIsInsertableIff(digest, log, event);
    hide Built, LastOfRun, Seal, Insertable;
  }

  // An empty key is stored as it is and names no event, but at most one event carries it.
  lemma EmptyKeyIsUnique(
      digest: Digest, log: seq<Event>, input: AppendInput, freshId: string, now: string)
    requires Built(digest, log) && input.key == Some("") && exists e :: e in log && e.key == Some("")
    ensures Append(digest, log, input, freshId, now) == Err(ConstraintViolation)
  {
  }
}
