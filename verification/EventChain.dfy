// The hash-chained event log of one workspace: the append that builds it and the walk
// that checks it against the latest surviving head attestation.

module EventChain {
  import opened Prelude
  import opened CanonicalJson

  // An event row. `payload` is the JSON value of the payload, so that equality is jsonEqual.
  datatype Event = Event(
    id: string,
    runId: Option<string>,
    seq_: int,
    runSeq: Option<int>,
    kind: string,
    actor: string,
    payload: Value,
    timestamp: string,
    key: Option<string>,
    prevHash: Option<string>,
    hash: Option<string>)

  // SHA-256 over the canonical text of an event.
  type Digest = Event -> string

  const GENESIS_HASH: string := Repeat('0', 64)

  function Repeat(c: char, n: nat): (s: string)
    ensures |s| == n && forall i :: 0 <= i < n ==> s[i] == c
  {
    if n == 0 then "" else [c] + Repeat(c, n - 1)
  }

  function HashEvent(digest: Digest, event: Event): string {
    digest(event.(hash := None))
  }

  // No collisions, and no event hashes to the genesis anchor or to nothing.
  ghost predicate IdealDigest(digest: Digest) {
    && (forall a, b :: digest(a) == digest(b) ==> a == b)
    && (forall a :: digest(a) != GENESIS_HASH && digest(a) != "")
  }

  // ---- append --------------------------------------------------------------

  datatype AppendInput = AppendInput(
    kind: string,
    actor: string,
    runId: Option<string>,
    payload: Value,
    key: Option<string>,
    eventId: Option<string>,
    timestamp: Option<string>)

  datatype AppendError = KeyConflict | ConstraintViolation

  // An empty string is falsy.
  predicate Given(s: Option<string>) {
    s.Some? && s.value != ""
  }

  function FindByKey(log: seq<Event>, key: string): (r: Option<Event>)
    ensures r.Some? <==> exists e :: e in log && e.key == Some(key)
    ensures r.Some? ==> r.value in log && r.value.key == Some(key)
  {
    if log == [] then None
    else if log[0].key == Some(key) then Some(log[0])
    else FindByKey(log[1..], key)
  }

  // The event already stored under the key is the event being appended again.
  predicate IsReplay(existing: Event, input: AppendInput) {
    && existing.kind == input.kind
    && existing.actor == input.actor
    && existing.runId == input.runId
    && existing.payload == input.payload
    && (Given(input.eventId) ==> existing.id == input.eventId.value)
    && (Given(input.timestamp) ==> existing.timestamp == input.timestamp.value)
  }

  function MaxSeq(log: seq<Event>): (m: int)
    ensures forall e :: e in log ==> e.seq_ <= m
    ensures m >= 0
  {
    if log == [] then 0
    else var rest := MaxSeq(log[..|log| - 1]);
      if log[|log| - 1].seq_ > rest then log[|log| - 1].seq_ else rest
  }

  function MaxRunSeq(log: seq<Event>, runId: string): (m: int)
    ensures forall e :: e in log && e.runId == Some(runId) && e.runSeq.Some? ==> e.runSeq.value <= m
    ensures m >= 0
  {
    if log == [] then 0
    else var rest := MaxRunSeq(log[..|log| - 1], runId); var e := log[|log| - 1];
      if e.runId == Some(runId) && e.runSeq.Some? && e.runSeq.value > rest then e.runSeq.value
      else rest
  }

  // The stored row with the highest seq.
  function LatestHash(log: seq<Event>): Option<string> {
    if log == [] then None
    else var rest := LatestHash(log[..|log| - 1]);
      if log[|log| - 1].seq_ > MaxSeq(log[..|log| - 1]) then log[|log| - 1].hash else rest
  }

  function Or(s: Option<string>, default: string): string {
    if s.Some? then s.value else default
  }

  function Seal(
      digest: Digest, log: seq<Event>, input: AppendInput, freshId: string, now: string): Event
  {
    var parsed := Event(
      Or(input.eventId, freshId),
      input.runId,
      MaxSeq(log) + 1,
      if Given(input.runId) then Some(MaxRunSeq(log, input.runId.value) + 1) else None,
      input.kind,
      input.actor,
      input.payload,
      Or(input.timestamp, now),
      input.key,
      Some(Or(LatestHash(log), GENESIS_HASH)),
      None);
    parsed.(hash := Some(HashEvent(digest, parsed)))
  }

  // The uniqueness constraints of the events table.
  predicate Insertable(log: seq<Event>, event: Event) {
    && (forall e :: e in log ==> e.id != event.id && e.seq_ != event.seq_)
    && (event.key.Some? ==> FindByKey(log, event.key.value).None?)
  }

  datatype Appended = Appended(log: seq<Event>, event: Event)

  function Append(
      digest: Digest, log: seq<Event>, input: AppendInput, freshId: string, now: string)
    : Result<Appended, AppendError>
  {
    var existing := if Given(input.key) then FindByKey(log, input.key.value) else None;
    if existing.Some? then
      if IsReplay(existing.value, input) then Ok(Appended(log, existing.value))
      else Err(KeyConflict)
    else
      var event := Seal(digest, log, input, freshId, now);
      if Insertable(log, event) then Ok(Appended(log + [event], event))
      else Err(ConstraintViolation)
  }

  class EventStore {
    // The workspace's rows in seq order.
    var rows: seq<Event>
    const digest: Digest

    constructor (digest: Digest)
      ensures rows == [] && this.digest == digest
    {
      this.digest := digest;
      rows := [];
    }

    method AppendEvent(input: AppendInput, freshId: string, now: string)
      returns (r: Result<Event, AppendError>)
      modifies this
      ensures match Append(digest, old(rows), input, freshId, now)
              case Ok(appended) => rows == appended.log && r == Ok(appended.event)
              case Err(error) => rows == old(rows) && r == Err(error)
    {
      if Given(input.key) {
        var existing := FindByKey(rows, input.key.value);
        if existing.Some? {
          if !IsReplay(existing.value, input) {
            return Err(KeyConflict);
          }
          return Ok(existing.value);
        }
      }
      var event := Seal(digest, rows, input, freshId, now);
      if !Insertable(rows, event) {
        return Err(ConstraintViolation);
      }
      rows := rows + [event];
      r := Ok(event);
    }

    // Walks the chain in order and compares its head with the attestation.
    method VerifyChain(attestation: Option<Attestation>, authentic: Option<Attestation -> bool>)
      returns (v: Verification)
      ensures v == Verify(digest, rows, attestation, authentic)
    {
      hide HashEvent, VerifyHead, Walk, LastAt, HashAfter;
      WalkNothing(digest);
      var previousHash := GENESIS_HASH;
      var head: Option<Event> := None;
      var eventCount := 0;
      var atAttested: Option<Event> := None;
      for i := 0 to |rows|
        invariant Walk(digest, rows[..i]) == Intact
        invariant previousHash == HashAfter(rows[..i])
        invariant head == if i == 0 then None else Some(rows[i - 1])
        invariant eventCount == i
        invariant if attestation.None? then atAttested == None
                  else atAttested == LastAt(rows[..i], attestation.value.headSequence)
      {
        var event := rows[i];
        WalkStep(digest, rows, i);
        if attestation.Some? {
          LastAtStep(rows, i, attestation.value.headSequence);
        }
        if event.hash.None? || event.prevHash.None? {
          BreakStays(digest, rows, i + 1);
          return Broken(event.id, Unchained);
        }
        if event.prevHash.value != previousHash {
          BreakStays(digest, rows, i + 1);
          return Broken(event.id, Relinked);
        }
        if HashEvent(digest, event) != event.hash.value {
          BreakStays(digest, rows, i + 1);
          return Broken(event.id, Tampered);
        }
        previousHash := event.hash.value;
        head := Some(event);
        eventCount := eventCount + 1;
        if attestation.Some? && event.seq_ == attestation.value.headSequence {
          atAttested := Some(event);
        }
      }
      assert rows[..|rows|] == rows;
      v := VerifyHead(attestation, head, eventCount, atAttested, authentic);
    }
  }

  // ---- verifyChain ---------------------------------------------------------

  // A signed attestation of a chain head.
  datatype Attestation = Attestation(
    id: string,
    headSequence: int,
    headHash: string,
    eventCount: int,
    previousId: Option<string>,
    signerKey: string,
    signer: string,
    signatureId: string,
    attestedAt: string)

  datatype BreakReason =
    | Unchained
    | Relinked
    | Tampered
    | BadSignature
    | Truncated
    | AttestedPositionMissing
    | AttestedHeadMismatch

  datatype Verification = Intact | Broken(at: string, reason: BreakReason)

  // The hash the next event must carry as its prev_hash.
  function HashAfter(log: seq<Event>): string {
    if log == [] || log[|log| - 1].hash.None? then GENESIS_HASH else log[|log| - 1].hash.value
  }

  // The first event at which the chain is not consistent with itself.
  function Walk(digest: Digest, log: seq<Event>): Verification {
    if log == [] then Intact
    else
      var before := Walk(digest, log[..|log| - 1]);
      var event := log[|log| - 1];
      if before.Broken? then before
      else if event.hash.None? || event.prevHash.None? then Broken(event.id, Unchained)
      else if event.prevHash.value != HashAfter(log[..|log| - 1]) then Broken(event.id, Relinked)
      else if HashEvent(digest, event) != event.hash.value then Broken(event.id, Tampered)
      else Intact
  }

  // The last event carrying the sequence number.
  function LastAt(log: seq<Event>, n: int): (r: Option<Event>)
    ensures r.Some? ==> r.value in log && r.value.seq_ == n
    ensures r.None? <==> forall e :: e in log ==> e.seq_ != n
  {
    if log == [] then None
    else if log[|log| - 1].seq_ == n then Some(log[|log| - 1])
    else LastAt(log[..|log| - 1], n)
  }

  function VerifyHead(
      attestation: Option<Attestation>, head: Option<Event>, eventCount: int,
      atAttested: Option<Event>, authentic: Option<Attestation -> bool>): Verification
  {
    if attestation.None? then Intact
    else
      var a := attestation.value;
      var headSequence := if head.Some? then head.value.seq_ else 0;
      if authentic.Some? && !authentic.value(a) then Broken(a.id, BadSignature)
      else if headSequence < a.headSequence then
        Broken(if head.Some? then head.value.id else a.id, Truncated)
      else if atAttested.None? then Broken(a.id, AttestedPositionMissing)
      else if atAttested.value.hash != Some(a.headHash)
           || (headSequence == a.headSequence && eventCount != a.eventCount) then
        Broken(atAttested.value.id, AttestedHeadMismatch)
      else Intact
  }

  function Verify(
      digest: Digest, log: seq<Event>, attestation: Option<Attestation>,
      authentic: Option<Attestation -> bool>): Verification
  {
    var walked := Walk(digest, log);
    if walked.Broken? then walked
    else VerifyHead(
      attestation,
      if log == [] then None else Some(log[|log| - 1]),
      |log|,
      if attestation.None? then None else LastAt(log, attestation.value.headSequence),
      authentic)
  }

  lemma WalkNothing(digest: Digest)
    ensures Walk(digest, []) == Intact && HashAfter([]) == GENESIS_HASH
    ensures forall n :: LastAt([], n) == None
  {
  }

  // What one more event makes of an intact walk.
  lemma WalkStep(digest: Digest, log: seq<Event>, i: nat)
    requires i < |log| && Walk(digest, log[..i]) == Intact
    ensures var event := log[i];
            && Walk(digest, log[..i + 1]) ==
                 (if event.hash.None? || event.prevHash.None? then Broken(event.id, Unchained)
                  else if event.prevHash.value != HashAfter(log[..i]) then Broken(event.id, Relinked)
                  else if HashEvent(digest, event) != event.hash.value then Broken(event.id, Tampered)
                  else Intact)
            && (event.hash.Some? ==> HashAfter(log[..i + 1]) == event.hash.value)
  {
    assert log[..i + 1][..i] == log[..i];
  }

  lemma LastAtStep(log: seq<Event>, i: nat, n: int)
    requires i < |log|
    ensures LastAt(log[..i + 1], n) == if log[i].seq_ == n then Some(log[i]) else LastAt(log[..i], n)
  {
    assert log[..i + 1][..i] == log[..i];
  }

  lemma BreakStays(digest: Digest, log: seq<Event>, n: nat)
    requires n <= |log| && Walk(digest, log[..n]).Broken?
    ensures Walk(digest, log) == Walk(digest, log[..n])
  {
    if n == |log| {
      assert log[..n] == log;
    } else {
      var shorter := log[..|log| - 1];
      assert shorter[..n] == log[..n];
      BreakStays(digest, shorter, n);
    }
  }

  // ---- What the walk proves ------------------------------------------------

  // The event is hashed and links to its predecessor.
  ghost predicate LinkedAt(digest: Digest, log: seq<Event>, anchor: string, i: nat)
    requires i < |log|
  {
    && log[i].hash == Some(HashEvent(digest, log[i]))
    && log[i].prevHash == (if i == 0 then Some(anchor) else log[i - 1].hash)
  }

  ghost predicate Linked(digest: Digest, log: seq<Event>, anchor: string) {
    forall i: nat | i < |log| :: LinkedAt(digest, log, anchor, i)
  }

  lemma LinkedPrefix(digest: Digest, log: seq<Event>, anchor: string, n: nat)
    requires Linked(digest, log, anchor) && n <= |log|
    ensures Linked(digest, log[..n], anchor)
  {
    forall i: nat | i < n ensures LinkedAt(digest, log[..n], anchor, i) {
      assert LinkedAt(digest, log, anchor, i);
    }
  }

  lemma LinkedSnoc(digest: Digest, log: seq<Event>, anchor: string)
    requires log != []
    requires Linked(digest, log[..|log| - 1], anchor)
    requires LinkedAt(digest, log, anchor, |log| - 1)
    ensures Linked(digest, log, anchor)
  {
    forall i: nat | i < |log| ensures LinkedAt(digest, log, anchor, i) {
      if i < |log| - 1 {
        assert LinkedAt(digest, log[..|log| - 1], anchor, i);
      }
    }
  }

  lemma {:induction false} WalkIntactIff(digest: Digest, log: seq<Event>)
    ensures Walk(digest, log) == Intact <==> Linked(digest, log, GENESIS_HASH)
  {
    if log != [] {
      var n := |log| - 1;
      WalkIntactIff(digest, log[..n]);
      if Linked(digest, log, GENESIS_HASH) {
        LinkedPrefix(digest, log, GENESIS_HASH, n);
        assert LinkedAt(digest, log, GENESIS_HASH, n);
        assert n > 0 ==> LinkedAt(digest, log, GENESIS_HASH, n - 1);
      } else if Walk(digest, log) == Intact {
        assert n > 0 ==> LinkedAt(digest, log[..n], GENESIS_HASH, n - 1);
        LinkedSnoc(digest, log, GENESIS_HASH);
      }
    }
  }

  // Events with one hash are one event.
  lemma SameHash(digest: Digest, x: Event, y: Event)
    requires IdealDigest(digest)
    requires x.hash == y.hash
    requires x.hash == Some(HashEvent(digest, x)) && y.hash == Some(HashEvent(digest, y))
    ensures x == y
  {
    assert x.(hash := None) == y.(hash := None);
    assert x == x.(hash := None).(hash := x.hash);
  }

  // Going backwards from a shared event, two linked logs agree event by event.
  lemma {:induction false} AgreeBackwards(
      digest: Digest, a: seq<Event>, b: seq<Event>, anchorA: string, anchorB: string,
      i: nat, j: nat, k: nat)
    requires IdealDigest(digest)
    requires Linked(digest, a, anchorA) && Linked(digest, b, anchorB)
    requires i < |a| && j < |b| && a[i] == b[j]
    requires k <= i && k <= j
    ensures a[i - k] == b[j - k]
  {
    hide IdealDigest, HashEvent;
    if k > 0 {
      AgreeBackwards(digest, a, b, anchorA, anchorB, i, j, k - 1);
      assert LinkedAt(digest, a, anchorA, i - k + 1) && LinkedAt(digest, b, anchorB, j - k + 1);
      assert LinkedAt(digest, a, anchorA, i - k) && LinkedAt(digest, b, anchorB, j - k);
      SameHash(digest, a[i - k], b[j - k]);
    }
  }

  // An event linked to the genesis anchor has no predecessor.
  lemma GenesisIsFirst(digest: Digest, log: seq<Event>, i: nat)
    requires IdealDigest(digest) && Linked(digest, log, GENESIS_HASH)
    requires i < |log| && log[i].prevHash == Some(GENESIS_HASH)
    ensures i == 0
  {
    assert LinkedAt(digest, log, GENESIS_HASH, i);
    hide IdealDigest, HashEvent;
    if i > 0 {
      LinkedIsNotGenesis(digest, log, i - 1);
    }
  }

  lemma LinkedIsNotGenesis(digest: Digest, log: seq<Event>, i: nat)
    requires IdealDigest(digest) && Linked(digest, log, GENESIS_HASH) && i < |log|
    ensures log[i].hash != Some(GENESIS_HASH)
  {
    assert LinkedAt(digest, log, GENESIS_HASH, i);
  }

  // Both logs start at the genesis anchor, so a shared event sits at one position.
  lemma SamePosition(digest: Digest, a: seq<Event>, b: seq<Event>, i: nat, j: nat)
    requires IdealDigest(digest)
    requires Linked(digest, a, GENESIS_HASH) && Linked(digest, b, GENESIS_HASH)
    requires i < |a| && j < |b| && a[i] == b[j]
    ensures i == j && a[..i + 1] == b[..i + 1]
  {
    var k := if i < j then i else j;
    AgreeBackwards(digest, a, b, GENESIS_HASH, GENESIS_HASH, i, j, k);
    assert LinkedAt(digest, a, GENESIS_HASH, i - k) && LinkedAt(digest, b, GENESIS_HASH, j - k);
    GenesisIsFirst(digest, a, i - k);
    GenesisIsFirst(digest, b, j - k);
    forall m | 0 <= m <= i ensures a[m] == b[m] {
      AgreeBackwards(digest, a, b, GENESIS_HASH, GENESIS_HASH, i, j, i - m);
    }
  }

  // ---- Logs built by append ------------------------------------------------

  // Sequence numbers 1, 2, ..., n, linked from the genesis anchor, ids and keys unique.
  ghost predicate Built(digest: Digest, log: seq<Event>) {
    && Linked(digest, log, GENESIS_HASH)
    && (forall i :: 0 <= i < |log| ==> log[i].seq_ == i + 1)
    && UniqueRows(log)
  }

  ghost predicate UniqueRows(log: seq<Event>) {
    forall i, j | 0 <= i < j < |log| :: Compatible(log[i], log[j])
  }

  predicate Compatible(a: Event, b: Event) {
    a.id != b.id && (a.key.Some? ==> a.key != b.key)
  }

  lemma BuiltSeqs(digest: Digest, log: seq<Event>)
    requires Built(digest, log)
    ensures MaxSeq(log) == |log|
    ensures LatestHash(log) == if log == [] then None else log[|log| - 1].hash
  {
    if log != [] {
      BuiltPrefix(digest, log, |log| - 1);
      BuiltSeqs(digest, log[..|log| - 1]);
    }
  }

  lemma BuiltPrefix(digest: Digest, log: seq<Event>, n: nat)
    requires Built(digest, log) && n <= |log|
    ensures Built(digest, log[..n])
  {
    LinkedPrefix(digest, log, GENESIS_HASH, n);
  }

  // Append keeps the log built and only ever extends it, by one event.
  lemma AppendKeepsBuilt(
      digest: Digest, log: seq<Event>, input: AppendInput, freshId: string, now: string)
    requires Built(digest, log)
    ensures var r := Append(digest, log, input, freshId, now);
            r.Ok? ==>
              && Built(digest, r.value.log)
              && r.value.event in r.value.log
              && r.value.event.key == input.key
              && (r.value.log == log || r.value.log == log + [r.value.event])
  {
    BuiltSeqs(digest, log);
    var r := Append(digest, log, input, freshId, now);
    if r.Ok? && r.value.log != log {
      var event := Seal(digest, log, input, freshId, now);
      assert r.value.log == log + [event] && Insertable(log, event);
      assert log != [] ==> LinkedAt(digest, log, GENESIS_HASH, |log| - 1);
      InsertedKeepsBuilt(digest, log, event);
    }
  }

  lemma InsertedLinks(digest: Digest, log: seq<Event>, event: Event)
    requires Linked(digest, log, GENESIS_HASH)
    requires event.hash == Some(HashEvent(digest, event))
    requires event.prevHash
          == if log == [] then Some(GENESIS_HASH) else log[|log| - 1].hash
    ensures Linked(digest, log + [event], GENESIS_HASH)
  {
    hide HashEvent;
    assert (log + [event])[..|log|] == log;
    LinkedSnoc(digest, log + [event], GENESIS_HASH);
  }

  lemma InsertedKeepsBuilt(digest: Digest, log: seq<Event>, event: Event)
    requires Built(digest, log) && Insertable(log, event)
    requires event.seq_ == |log| + 1
    requires event.hash == Some(HashEvent(digest, event))
    requires event.prevHash
          == if log == [] then Some(GENESIS_HASH) else log[|log| - 1].hash
    ensures Built(digest, log + [event])
  {
    hide IdealDigest, HashEvent, FindByKey, LinkedAt;
    var after, n := log + [event], |log|;
    assert after[..n] == log;
    InsertedLinks(digest, log, event);
    hide Linked;
    forall i, j | 0 <= i < j < |after| ensures Compatible(after[i], after[j]) {
      if j == n {
        assert after[i] in log;
      } else {
        assert Compatible(log[i], log[j]);
      }
    }
  }

  lemma KeyNamesOneEvent(digest: Digest, log: seq<Event>, event: Event)
    requires Built(digest, log) && event in log && event.key.Some?
    ensures FindByKey(log, event.key.value) == Some(event)
  {
    var found := FindByKey(log, event.key.value).value;
    var i :| 0 <= i < |log| && log[i] == event;
    var j :| 0 <= j < |log| && log[j] == found;
  }

  // A second append under the same key with the same content returns the stored event and
  // leaves the log alone.
  lemma AppendIsIdempotent(
      digest: Digest, log: seq<Event>, input: AppendInput,
      id1: string, now1: string, id2: string, now2: string)
    requires Built(digest, log) && Given(input.key)
    requires Append(digest, log, input, id1, now1).Ok?
    ensures var first := Append(digest, log, input, id1, now1).value;
            Append(digest, first.log, input, id2, now2) == Ok(Appended(first.log, first.event))
  {
    var first := Append(digest, log, input, id1, now1).value;
    AppendKeepsBuilt(digest, log, input, id1, now1);
    KeyNamesOneEvent(digest, first.log, first.event);
  }

  // ---- Chain soundness -----------------------------------------------------

  // The facts attestChainHead signs about a log.
  ghost predicate Attests(a: Attestation, log: seq<Event>) {
    && log != []
    && a.headSequence == log[|log| - 1].seq_
    && Some(a.headHash) == log[|log| - 1].hash
    && a.eventCount == |log|
  }

  // What an event after the attested head may not do for the anchor check to pass.
  ghost predicate ExtendsBeyond(log: seq<Event>, n: nat) {
    n < |log| ==>
      && log[|log| - 1].seq_ > n
      && (forall i :: n <= i < |log| ==> log[i].seq_ != n)
  }

  // An intact verdict against an attestation taken over an append-built log means that
  // the whole attested log survives, unchanged and in place, however the surviving log
  // came about; and it is intact exactly then, if the chain links and goes on past the head.
  lemma VerifyIntactIff(
      digest: Digest, attested: seq<Event>, a: Attestation, surviving: seq<Event>,
      authentic: Option<Attestation -> bool>)
    requires IdealDigest(digest) && Built(digest, attested) && Attests(a, attested)
    requires authentic.Some? ==> authentic.value(a)
    ensures Verify(digest, surviving, Some(a), authentic) == Intact <==>
              && Linked(digest, surviving, GENESIS_HASH)
              && attested <= surviving
              && ExtendsBeyond(surviving, |attested|)
  {
    WalkIntactIff(digest, surviving);
    var n := |attested|;
    var last := attested[n - 1];
    if Verify(digest, surviving, Some(a), authentic) == Intact {
      SurvivesIfIntact(digest, attested, a, surviving, authentic);
      LastAtAttested(digest, attested, a, surviving, authentic);
    } else if Linked(digest, surviving, GENESIS_HASH) && attested <= surviving
              && ExtendsBeyond(surviving, n) {
      assert surviving[n - 1] == last;
      LastAtPosition(surviving, n - 1);
      assert false;
    }
  }

  // The event the walk remembers at the attested sequence is the attested head itself.
  lemma SurvivesIfIntact(
      digest: Digest, attested: seq<Event>, a: Attestation, surviving: seq<Event>,
      authentic: Option<Attestation -> bool>)
    requires IdealDigest(digest) && Built(digest, attested) && Attests(a, attested)
    requires Verify(digest, surviving, Some(a), authentic) == Intact
    ensures LastAt(surviving, |attested|) == Some(attested[|attested| - 1])
    ensures attested <= surviving
  {
    hide IdealDigest, HashEvent, UniqueRows, Walk, LastAt;
    WalkIntactIff(digest, surviving);
    var n := |attested|;
    var last := attested[n - 1];
    var found := LastAt(surviving, a.headSequence).value;
    var i :| 0 <= i < |surviving| && surviving[i] == found;
    assert LinkedAt(digest, surviving, GENESIS_HASH, i);
    assert LinkedAt(digest, attested, GENESIS_HASH, n - 1);
    hide Linked;
    SameHash(digest, found, last);
    SamePosition(digest, surviving, attested, i, n - 1);
    assert attested[..n] == attested;
  }

  lemma LastAtAttested(
      digest: Digest, attested: seq<Event>, a: Attestation, surviving: seq<Event>,
      authentic: Option<Attestation -> bool>)
    requires IdealDigest(digest) && Built(digest, attested) && Attests(a, attested)
    requires Linked(digest, surviving, GENESIS_HASH) && attested <= surviving
    requires LastAt(surviving, |attested|) == Some(attested[|attested| - 1])
    requires Verify(digest, surviving, Some(a), authentic) == Intact
    ensures ExtendsBeyond(surviving, |attested|)
  {
    var n := |attested|;
    forall i | n <= i < |surviving| ensures surviving[i].seq_ != n {
      if surviving[i].seq_ == n {
        var j := LastIndexAt(surviving, n);
        assert surviving[j] == surviving[n - 1];
        SamePosition(digest, surviving, surviving, j, n - 1);
      }
    }
  }

  // The index of the last event carrying a sequence number is at or after every other one.
  lemma LastIndexAt(log: seq<Event>, n: int) returns (j: nat)
    requires LastAt(log, n).Some?
    ensures j < |log| && log[j] == LastAt(log, n).value
    ensures forall i :: j < i < |log| ==> log[i].seq_ != n
  {
    if log[|log| - 1].seq_ == n {
      j := |log| - 1;
    } else {
      j := LastIndexAt(log[..|log| - 1], n);
    }
  }

  lemma LastAtPosition(log: seq<Event>, j: nat)
    requires j < |log|
    requires forall i :: j < i < |log| ==> log[i].seq_ != log[j].seq_
    ensures LastAt(log, log[j].seq_) == Some(log[j])
  {
    if j < |log| - 1 {
      LastAtPosition(log[..|log| - 1], j);
    }
  }

  // A log built by append verifies against every attestation taken over a prefix of it.
  lemma BuiltVerifies(
      digest: Digest, log: seq<Event>, n: nat, a: Attestation,
      authentic: Option<Attestation -> bool>)
    requires Built(digest, log) && 0 < n <= |log| && Attests(a, log[..n])
    requires authentic.Some? ==> authentic.value(a)
    ensures Verify(digest, log, Some(a), authentic) == Intact
  {
    WalkIntactIff(digest, log);
    LastAtPosition(log, n - 1);
    assert log[..n][n - 1] == log[n - 1];
  }

  // Without a surviving attestation a cut of the newest events is not noticed.
  lemma CutUnseenWithoutAttestation(digest: Digest, log: seq<Event>, n: nat)
    requires Built(digest, log) && n <= |log|
    ensures Verify(digest, log[..n], None, None) == Intact
  {
    BuiltPrefix(digest, log, n);
    WalkIntactIff(digest, log[..n]);
  }
}
