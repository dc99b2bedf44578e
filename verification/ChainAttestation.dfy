// Attesting the head of the event chain, over whole runs of appends and attestations.

module ChainAttestation {
  import opened Prelude
  import opened CanonicalJson
  import opened EventChain

  const CHAIN_HEAD_ATTESTED := "chain.head_attested"

  // The two tables of one workspace. Attestation rows are kept in insertion order.
  datatype Chain = Chain(log: seq<Event>, attestations: seq<Attestation>)

  // What the attesting act brings along: whether the signer resolved from stored rows
  // stands, whether custody's signature verifies against the signer's enrolled key, and
  // the fresh ids, the audit payload and the clock of the act.
  datatype Act = Act(
    signerStands: bool,
    signer: string,
    signerKey: string,
    substantiated: bool,
    attestationId: string,
    signatureId: string,
    payload: Value,
    eventId: string,
    now: string)

  datatype AttestError =
    | SignerRefused
    | NoEvents
    | HeadUnchained
    | RewrittenAfterAttestation
    | SignatureRefused
    | AttestationConflict
    | EventRefused(error: AppendError)

  datatype Attested = Attested(chain: Chain, attestation: Attestation, created: bool)

  // ---- attestChainHead -----------------------------------------------------

  // The row with the highest seq.
  function HeadRow(log: seq<Event>): (r: Option<Event>)
    ensures r.None? <==> log == []
  {
    if log == [] then None
    else
      var rest := HeadRow(log[..|log| - 1]);
      var event := log[|log| - 1];
      if rest.Some? && rest.value.seq_ >= event.seq_ then rest else Some(event)
  }

  // The attestation with the highest head sequence.
  function Latest(attestations: seq<Attestation>): (r: Option<Attestation>)
    ensures r.None? <==> attestations == []
  {
    if attestations == [] then None
    else
      var rest := Latest(attestations[..|attestations| - 1]);
      var a := attestations[|attestations| - 1];
      if rest.Some? && rest.value.headSequence >= a.headSequence then rest else Some(a)
  }

  // Every event after the attested head is itself an attestation event.
  predicate OnlyAttestedSince(log: seq<Event>, headSequence: int) {
    forall e :: e in log && e.seq_ > headSequence ==> e.kind == CHAIN_HEAD_ATTESTED
  }

  function AttestationFor(chain: Chain, head: Event, hash: string, act: Act): Attestation {
    var previous := Latest(chain.attestations);
    Attestation(
      act.attestationId, head.seq_, hash, |chain.log|,
      if previous.Some? then Some(previous.value.id) else None,
      act.signerKey, act.signer, act.signatureId, head.timestamp)
  }

  function AtHead(attestations: seq<Attestation>, headSequence: int): Option<Attestation> {
    if attestations == [] then None
    else if attestations[0].headSequence == headSequence then Some(attestations[0])
    else AtHead(attestations[1..], headSequence)
  }

  // Insert unless the head sequence is taken, then read the row back; a stored row that
  // differs in anything but its id is a conflict.
  function Record(attestations: seq<Attestation>, a: Attestation)
    : Option<(seq<Attestation>, Attestation)>
  {
    var stored := AtHead(attestations, a.headSequence);
    if stored.Some? then
      if stored.value.(id := a.id) == a then Some((attestations, stored.value)) else None
    else if exists b :: b in attestations && b.id == a.id then None
    else Some((attestations + [a], a))
  }

  function AuditInput(a: Attestation, act: Act): AppendInput {
    AppendInput(CHAIN_HEAD_ATTESTED, act.signer, None, act.payload, None,
                Some(act.eventId), Some(act.now))
  }

  function Attest(digest: Digest, chain: Chain, act: Act): Result<Attested, AttestError> {
    if !act.signerStands then Err(SignerRefused)
    else
      var head := HeadRow(chain.log);
      if head.None? then Err(NoEvents)
      else if head.value.hash.None? || head.value.hash.value == "" then Err(HeadUnchained)
      else
        var previous := Latest(chain.attestations);
        if previous.Some? && OnlyAttestedSince(chain.log, previous.value.headSequence) then
          var attestedRow := LastAt(chain.log, previous.value.headSequence);
          if attestedRow.None? || attestedRow.value.hash != Some(previous.value.headHash) then
            Err(RewrittenAfterAttestation)
          else Ok(Attested(chain, previous.value, false))
        else if !act.substantiated then Err(SignatureRefused)
        else
          var recorded :=
            Record(chain.attestations,
                   AttestationFor(chain, head.value, head.value.hash.value, act));
          if recorded.None? then Err(AttestationConflict)
          else match Append(digest, chain.log, AuditInput(recorded.value.1, act), act.eventId, act.now)
            case Err(error) => Err(EventRefused(error))
            case Ok(appended) =>
              Ok(Attested(Chain(appended.log, recorded.value.0), recorded.value.1, true))
  }

  class ChainStore {
    const digest: Digest
    var log: seq<Event>
    var attestations: seq<Attestation>

    ghost function View(): Chain
      reads this
    {
      Chain(log, attestations)
    }

    constructor (digest: Digest)
      ensures View() == Chain([], []) && this.digest == digest
    {
      this.digest := digest;
      log, attestations := [], [];
    }

    // The whole act is one transaction: a refusal at any step restores both tables.
    method AttestChainHead(act: Act) returns (r: Result<(Attestation, bool), AttestError>)
      modifies this
      ensures match Attest(digest, old(View()), act)
              case Ok(done) => View() == done.chain && r == Ok((done.attestation, done.created))
              case Err(error) => View() == old(View()) && r == Err(error)
    {
      if !act.signerStands {
        return Err(SignerRefused);
      }
      var head := HeadRow(log);
      if head.None? {
        return Err(NoEvents);
      }
      if head.value.hash.None? || head.value.hash.value == "" {
        return Err(HeadUnchained);
      }
      var previous := Latest(attestations);
      if previous.Some? && OnlyAttestedSince(log, previous.value.headSequence) {
        var attestedRow := LastAt(log, previous.value.headSequence);
        if attestedRow.None? || attestedRow.value.hash != Some(previous.value.headHash) {
          return Err(RewrittenAfterAttestation);
        }
        return Ok((previous.value, false));
      }
      if !act.substantiated {
        return Err(SignatureRefused);
      }
      var saved := attestations;
      var recorded :=
        Record(attestations, AttestationFor(Chain(log, attestations), head.value, head.value.hash.value, act));
      if recorded.None? {
        return Err(AttestationConflict);
      }
      attestations := recorded.value.0;
      match Append(digest, log, AuditInput(recorded.value.1, act), act.eventId, act.now)
      case Err(error) =>
        attestations := saved;
        return Err(EventRefused(error));
      case Ok(appended) =>
        log := appended.log;
        return Ok((recorded.value.1, true));
    }
  }

  // ---- The invariant of every run ------------------------------------------

  // The attestation pins the log up to its head sequence.
  ghost predicate Pins(a: Attestation, log: seq<Event>) {
    && 1 <= a.headSequence <= |log|
    && a.eventCount == a.headSequence
    && log[a.headSequence - 1].hash == Some(a.headHash)
  }

  // Row i of the attestation table pins the log and links to row i - 1, below it.
  ghost predicate RowFits(chain: Chain, i: nat)
    requires i < |chain.attestations|
  {
    var a := chain.attestations[i];
    && Pins(a, chain.log)
    && (if i == 0 then a.previousId == None
        else
          && a.previousId == Some(chain.attestations[i - 1].id)
          && chain.attestations[i - 1].headSequence < a.headSequence)
  }

  ghost predicate Anchored(digest: Digest, chain: Chain) {
    && Built(digest, chain.log)
    && (forall i: nat | i < |chain.attestations| :: RowFits(chain, i))
  }

  lemma PinsExtends(a: Attestation, log: seq<Event>, longer: seq<Event>)
    requires Pins(a, log) && log <= longer
    ensures Pins(a, longer)
  {
  }

  // The self-chain is strictly increasing, so its last row is the latest.
  lemma {:induction false} HeadsIncrease(digest: Digest, chain: Chain, i: nat, j: nat)
    requires Anchored(digest, chain) && i < j < |chain.attestations|
    ensures chain.attestations[i].headSequence < chain.attestations[j].headSequence
  {
    assert RowFits(chain, j);
    if i < j - 1 {
      HeadsIncrease(digest, chain, i, j - 1);
    }
  }

  lemma {:induction false} LatestIsLast(digest: Digest, chain: Chain)
    requires Anchored(digest, chain) && chain.attestations != []
    ensures Latest(chain.attestations) == Some(chain.attestations[|chain.attestations| - 1])
    decreases |chain.attestations|
  {
    var n := |chain.attestations|;
    if n > 1 {
      var shorter := Chain(chain.log, chain.attestations[..n - 1]);
      forall i: nat | i < n - 1 ensures RowFits(shorter, i) {
        assert RowFits(chain, i);
      }
      LatestIsLast(digest, shorter);
      HeadsIncrease(digest, chain, n - 2, n - 1);
    }
  }

  lemma {:induction false} HeadRowIsLast(digest: Digest, log: seq<Event>)
    requires Built(digest, log) && log != []
    ensures HeadRow(log) == Some(log[|log| - 1])
  {
    if |log| > 1 {
      BuiltPrefix(digest, log, |log| - 1);
      HeadRowIsLast(digest, log[..|log| - 1]);
    }
  }

  lemma AppendKeepsAnchored(
      digest: Digest, chain: Chain, input: AppendInput, freshId: string, now: string)
    requires Anchored(digest, chain)
    ensures var r := Append(digest, chain.log, input, freshId, now);
            r.Ok? ==> Anchored(digest, Chain(r.value.log, chain.attestations))
  {
    AppendKeepsBuilt(digest, chain.log, input, freshId, now);
    var r := Append(digest, chain.log, input, freshId, now);
    if r.Ok? {
      ExtendedLogFits(digest, chain, r.value.log);
    }
  }

  lemma ExtendedLogFits(digest: Digest, chain: Chain, longer: seq<Event>)
    requires Anchored(digest, chain) && Built(digest, longer) && chain.log <= longer
    ensures Anchored(digest, Chain(longer, chain.attestations))
  {
    forall i: nat | i < |chain.attestations| ensures RowFits(Chain(longer, chain.attestations), i) {
      assert RowFits(chain, i);
      PinsExtends(chain.attestations[i], chain.log, longer);
    }
  }

  // The newest attestation sits below the head whenever a later event is not an attestation.
  lemma LatestBelowHead(digest: Digest, chain: Chain)
    requires Anchored(digest, chain) && chain.attestations != []
    requires !OnlyAttestedSince(chain.log, Latest(chain.attestations).value.headSequence)
    ensures Latest(chain.attestations).value.headSequence < |chain.log|
  {
  }

  lemma NoneAtHead(attestations: seq<Attestation>, headSequence: int)
    requires forall i :: 0 <= i < |attestations| ==> attestations[i].headSequence < headSequence
    ensures AtHead(attestations, headSequence) == None
  {
    if attestations != [] {
      assert forall i :: 0 <= i < |attestations| - 1 ==> attestations[1..][i] == attestations[i + 1];
    }
  }

  // A fresh attestation is the next link of the self-chain.
  lemma RecordKeepsAnchored(digest: Digest, chain: Chain, act: Act)
    requires Anchored(digest, chain) && chain.log != []
    requires chain.attestations != [] ==>
               Latest(chain.attestations).value.headSequence < |chain.log|
    ensures var n := |chain.log|;
            var a := AttestationFor(chain, chain.log[n - 1], HashAfter(chain.log), act);
            var r := Record(chain.attestations, a);
            && Attests(a, chain.log)
            && (r.Some? ==>
                 && r.value == (chain.attestations + [a], a)
                 && Anchored(digest, Chain(chain.log, r.value.0)))
  {
    var n, m := |chain.log|, |chain.attestations|;
    var head := chain.log[n - 1];
    assert LinkedAt(digest, chain.log, GENESIS_HASH, n - 1);
    var a := AttestationFor(chain, head, HashAfter(chain.log), act);
    if m > 0 {
      LatestIsLast(digest, chain);
      forall i | 0 <= i < m ensures chain.attestations[i].headSequence < n {
        if i < m - 1 { HeadsIncrease(digest, chain, i, m - 1); }
      }
    }
    NoneAtHead(chain.attestations, n);
    var after := Chain(chain.log, chain.attestations + [a]);
    forall i: nat | i <= m ensures RowFits(after, i) {
      if i < m { assert RowFits(chain, i); }
    }
  }

  // Attesting keeps the invariant, only ever adds, and a created attestation attests
  // exactly the log it found.
  lemma AttestKeepsAnchored(digest: Digest, chain: Chain, act: Act)
    requires Anchored(digest, chain)
    ensures var r := Attest(digest, chain, act);
            r.Ok? ==>
              && Anchored(digest, r.value.chain)
              && chain.log <= r.value.chain.log
              && chain.attestations <= r.value.chain.attestations
              && (r.value.created ==> Attests(r.value.attestation, chain.log))
  {
    var r := Attest(digest, chain, act);
    if r.Ok? && r.value.created {
      HeadRowIsLast(digest, chain.log);
      if chain.attestations != [] { LatestBelowHead(digest, chain); }
      RecordKeepsAnchored(digest, chain, act);
      var a := AttestationFor(chain, chain.log[|chain.log| - 1], HashAfter(chain.log), act);
      var recorded := Chain(chain.log, chain.attestations + [a]);
      AppendKeepsAnchored(digest, recorded, AuditInput(a, act), act.eventId, act.now);
      AppendKeepsBuilt(digest, chain.log, AuditInput(a, act), act.eventId, act.now);
    }
  }

  // ---- Whole runs ----------------------------------------------------------

  datatype Op =
    | DoAppend(input: AppendInput, freshId: string, now: string)
    | DoAttest(act: Act)

  // A refused operation rolls back.
  function Step(digest: Digest, chain: Chain, op: Op): Chain {
    match op
    case DoAppend(input, freshId, now) =>
      (match Append(digest, chain.log, input, freshId, now)
       case Ok(appended) => Chain(appended.log, chain.attestations)
       case Err(_) => chain)
    case DoAttest(act) =>
      match Attest(digest, chain, act)
      case Ok(done) => done.chain
      case Err(_) => chain
  }

  function Run(digest: Digest, ops: seq<Op>): Chain {
    if ops == [] then Chain([], []) else Step(digest, Run(digest, ops[..|ops| - 1]), ops[|ops| - 1])
  }

  lemma StepKeepsAnchored(digest: Digest, chain: Chain, op: Op)
    requires Anchored(digest, chain)
    ensures Anchored(digest, Step(digest, chain, op))
    ensures chain.log <= Step(digest, chain, op).log
    ensures chain.attestations <= Step(digest, chain, op).attestations
  {
    match op
    case DoAppend(input, freshId, now) =>
      AppendKeepsAnchored(digest, chain, input, freshId, now);
      AppendKeepsBuilt(digest, chain.log, input, freshId, now);
    case DoAttest(act) => AttestKeepsAnchored(digest, chain, act);
  }

  // In every run of appends and attestations: sequence numbers are 1..n, every attestation
  // ever made still pins the log, and the self-chain links are strictly increasing.
  lemma {:induction false} RunsStayAnchored(digest: Digest, ops: seq<Op>)
    ensures Anchored(digest, Run(digest, ops))
  {
    if ops != [] {
      RunsStayAnchored(digest, ops[..|ops| - 1]);
      StepKeepsAnchored(digest, Run(digest, ops[..|ops| - 1]), ops[|ops| - 1]);
    }
  }

  // The log and the attestation table are append-only over a run.
  lemma {:induction false} RunsOnlyExtend(digest: Digest, ops: seq<Op>, n: nat)
    requires n <= |ops|
    ensures Run(digest, ops[..n]).log <= Run(digest, ops).log
    ensures Run(digest, ops[..n]).attestations <= Run(digest, ops).attestations
  {
    if n == |ops| {
      assert ops[..n] == ops;
    } else {
      var shorter := ops[..|ops| - 1];
      assert shorter[..n] == ops[..n];
      RunsOnlyExtend(digest, shorter, n);
      RunsStayAnchored(digest, shorter);
      StepKeepsAnchored(digest, Run(digest, shorter), ops[|ops| - 1]);
    }
  }

  // After any run the chain verifies against its latest attestation.
  lemma RunsVerify(digest: Digest, ops: seq<Op>)
    ensures var chain := Run(digest, ops);
            Verify(digest, chain.log, Latest(chain.attestations), None) == Intact
  {
    var chain := Run(digest, ops);
    RunsStayAnchored(digest, ops);
    WalkIntactIff(digest, chain.log);
    var n := |chain.attestations|;
    if n > 0 {
      LatestIsLast(digest, chain);
      assert RowFits(chain, n - 1);
      var a := chain.attestations[n - 1];
      BuiltVerifies(digest, chain.log, a.headSequence, a, None);
    }
  }

  // Whatever is done to the log after a run, an intact verdict against an attestation the
  // run recorded means every event up to the attested head survives in place.
  lemma TamperingIsSeen(digest: Digest, ops: seq<Op>, a: Attestation, surviving: seq<Event>)
    requires IdealDigest(digest)
    requires a in Run(digest, ops).attestations
    requires Verify(digest, surviving, Some(a), None) == Intact
    ensures 1 <= a.headSequence <= |Run(digest, ops).log|
    ensures Run(digest, ops).log[..a.headSequence] <= surviving
  {
    var chain := Run(digest, ops);
    RunsStayAnchored(digest, ops);
    var i :| 0 <= i < |chain.attestations| && chain.attestations[i] == a;
    assert RowFits(chain, i);
    hide Run, Verify, IdealDigest;
    BuiltPrefix(digest, chain.log, a.headSequence);
    SurvivesIfIntact(digest, chain.log[..a.headSequence], a, surviving, None);
  }

  // Attesting again makes no new attestation exactly when nothing but attestation events
  // followed the latest one, and then it changes nothing and returns that one.
  lemma ReattestChangesNothing(digest: Digest, ops: seq<Op>, act: Act)
    requires IdealDigest(digest) && act.signerStands
    requires Run(digest, ops).attestations != []
    ensures var chain := Run(digest, ops);
            var latest := Latest(chain.attestations).value;
            var r := Attest(digest, chain, act);
            && (r.Ok? && !r.value.created <==> OnlyAttestedSince(chain.log, latest.headSequence))
            && (r.Ok? && !r.value.created ==> r.value == Attested(chain, latest, false))
  {
    var chain := Run(digest, ops);
    RunsStayAnchored(digest, ops);
    hide Run;
    AnchoredReattest(digest, chain);
  }

  // The checks a repeated attestation makes all pass on an anchored chain.
  lemma AnchoredReattest(digest: Digest, chain: Chain)
    requires IdealDigest(digest) && Anchored(digest, chain) && chain.attestations != []
    ensures var a := Latest(chain.attestations).value;
            var row := LastAt(chain.log, a.headSequence);
            && HeadRow(chain.log).Some?
            && HeadRow(chain.log).value.hash.Some? && HeadRow(chain.log).value.hash.value != ""
            && row.Some? && row.value.hash == Some(a.headHash)
  {
    LatestIsLast(digest, chain);
    var n := |chain.attestations|;
    assert RowFits(chain, n - 1);
    HeadRowIsLast(digest, chain.log);
    assert LinkedAt(digest, chain.log, GENESIS_HASH, |chain.log| - 1);
    hide Linked, UniqueRows;
    LastAtPosition(chain.log, chain.attestations[n - 1].headSequence - 1);
  }
}
