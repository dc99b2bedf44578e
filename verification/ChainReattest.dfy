// What attesting the chain head comes to, and that attesting again changes nothing.

module ChainReattest {
  import opened Prelude
  import opened EventChain
  import opened EventAppend
  import opened ChainAttestation

  // Nothing but attestation events follows the head that the last attestation pins.
  ghost predicate Quiet(chain: Chain) {
    && chain.attestations != []
    && forall e :: e in chain.log && e.seq_ > chain.attestations[|chain.attestations| - 1].headSequence ==>
         e.kind == "chain.head_attested"
  }

  lemma QuietIff(digest: Digest, chain: Chain)
    requires Anchored(digest, chain)
    ensures Quiet(chain) <==>
              && chain.attestations != []
              && OnlyAttestedSince(chain.log, Latest(chain.attestations).value.headSequence)
  {
    hide Anchored;
    if chain.attestations != [] { LatestIsLast(digest, chain); }
  }

  // What a created attestation says, and the two rows the act adds.
  ghost predicate Creates(chain: Chain, act: Act, done: Attested)
    requires chain.log != [] && chain.log[|chain.log| - 1].hash.Some?
  {
    var n, m := |chain.log|, |chain.attestations|;
    var head, a := chain.log[n - 1], done.attestation;
    && done.created
    && a.id == act.attestationId
    && a.headSequence == n && a.eventCount == n && Some(a.headHash) == head.hash
    && a.previousId == (if m == 0 then None else Some(chain.attestations[m - 1].id))
    && a.signerKey == act.signerKey && a.signer == act.signer && a.signatureId == act.signatureId
    && a.attestedAt == head.timestamp
    && done.chain.attestations == chain.attestations + [a]
    && |done.chain.log| == n + 1 && done.chain.log[..n] == chain.log
    && var audit := done.chain.log[n];
       && audit.kind == "chain.head_attested" && audit.actor == act.signer
       && audit.payload == act.payload && audit.id == act.eventId && audit.timestamp == act.now
       && audit.runId == None && audit.key == None && audit.seq_ == n + 1
       && audit.prevHash == head.hash
  }

  // The head of an anchored log is its last row, and it is hashed.
  lemma HashedHead(digest: Digest, log: seq<Event>)
    requires IdealDigest(digest) && Built(digest, log) && log != []
    ensures HeadRow(log) == Some(log[|log| - 1])
    ensures log[|log| - 1].seq_ == |log|
    ensures log[|log| - 1].hash.Some? && log[|log| - 1].hash.value != ""
  {
    HeadRowIsLast(digest, log);
    assert LinkedAt(digest, log, GENESIS_HASH, |log| - 1);
    hide Linked, UniqueRows, HeadRow;
  }

  lemma HeadIsFree(digest: Digest, chain: Chain)
    requires Anchored(digest, chain) && !Quiet(chain)
    ensures AtHead(chain.attestations, |chain.log|) == None
  {
    var n, m := |chain.log|, |chain.attestations|;
    QuietIff(digest, chain);
    if m > 0 {
      LatestIsLast(digest, chain);
      LatestBelowHead(digest, chain);
      forall i | 0 <= i < m ensures chain.attestations[i].headSequence < n {
        if i < m - 1 { HeadsIncrease(digest, chain, i, m - 1); }
      }
    }
    hide Anchored, Latest, OnlyAttestedSince, Quiet;
    NoneAtHead(chain.attestations, n);
  }

  lemma NewAttestation(digest: Digest, chain: Chain, act: Act)
    requires Anchored(digest, chain) && chain.log != []
    requires chain.log[|chain.log| - 1].hash.Some?
    ensures var n, m := |chain.log|, |chain.attestations|;
            var head := chain.log[n - 1];
            var previous := if m == 0 then None else Some(chain.attestations[m - 1].id);
            AttestationFor(chain, head, head.hash.value, act) ==
              Attestation(act.attestationId, n, head.hash.value, n, previous,
                          act.signerKey, act.signer, act.signatureId, head.timestamp)
  {
    if chain.attestations != [] { LatestIsLast(digest, chain); }
    hide Linked, UniqueRows, RowFits, Latest;
  }

  // On an anchored chain: what every call to attest the head comes to.
  lemma AttestDecides(digest: Digest, chain: Chain, act: Act)
    requires IdealDigest(digest) && Anchored(digest, chain)
    ensures var r := Attest(digest, chain, act);
            var m := |chain.attestations|;
            if !act.signerStands then r == Err(SignerRefused)
            else if chain.log == [] then r == Err(NoEvents)
            else if Quiet(chain) then r == Ok(Attested(chain, chain.attestations[m - 1], false))
            else if !act.substantiated then r == Err(SignatureRefused)
            else if exists b :: b in chain.attestations && b.id == act.attestationId then
              r == Err(AttestationConflict)
            else if exists e :: e in chain.log && e.id == act.eventId then
              r == Err(EventRefused(ConstraintViolation))
            else
              && r.Ok? && chain.log[|chain.log| - 1].hash.Some?
              && Creates(chain, act, r.value)
  {
    if act.signerStands && chain.log != [] {
      HashedHead(digest, chain.log);
      QuietIff(digest, chain);
      if Quiet(chain) {
        LatestIsLast(digest, chain);
        AnchoredReattest(digest, chain);
      } else if act.substantiated {
        CreatingDecides(digest, chain, act);
      }
    }
    hide IdealDigest, Anchored, HeadRow, Latest, LastAt, Append, Record, Quiet, OnlyAttestedSince,
         AttestationFor, Creates;
  }

  lemma CreatingDecides(digest: Digest, chain: Chain, act: Act)
    requires IdealDigest(digest) && Anchored(digest, chain)
    requires act.signerStands && act.substantiated && chain.log != [] && !Quiet(chain)
    ensures var r := Attest(digest, chain, act);
            if exists b :: b in chain.attestations && b.id == act.attestationId then
              r == Err(AttestationConflict)
            else if exists e :: e in chain.log && e.id == act.eventId then
              r == Err(EventRefused(ConstraintViolation))
            else
              && r.Ok? && chain.log[|chain.log| - 1].hash.Some?
              && Creates(chain, act, r.value)
  {
    hide IdealDigest, HeadRow, Latest, AtHead, Append, LastOfRun, Quiet, OnlyAttestedSince, Stores, Built;
    assert Built(digest, chain.log);
    QuietIff(digest, chain);
    HashedHead(digest, chain.log);
    HeadIsFree(digest, chain);
    NewAttestation(digest, chain, act);
    var head := chain.log[|chain.log| - 1];
    var a := AttestationFor(chain, head, head.hash.value, act);
    hide Anchored, AttestationFor;
    AuditDecides(digest, chain, act, a);
  }

  // What is left once the attestation is made: the row, and then the audit event.
  lemma AuditDecides(digest: Digest, chain: Chain, act: Act, a: Attestation)
    requires Built(digest, chain.log) && AtHead(chain.attestations, a.headSequence) == None
    requires a.id == act.attestationId
    ensures var recorded := Record(chain.attestations, a);
            if exists b :: b in chain.attestations && b.id == act.attestationId then recorded == None
            else
              && recorded == Some((chain.attestations + [a], a))
              && var r := Append(digest, chain.log, AuditInput(a, act), act.eventId, act.now);
                 if exists e :: e in chain.log && e.id == act.eventId then
                   r == Err(ConstraintViolation)
                 else
                   && r.Ok? && r.value.log == chain.log + [r.value.event]
                   && var audit := r.value.event;
                      && audit.kind == "chain.head_attested" && audit.actor == act.signer
                      && audit.payload == act.payload && audit.id == act.eventId
                      && audit.timestamp == act.now && audit.runId == None && audit.key == None
                      && audit.seq_ == |chain.log| + 1
                      && (chain.log != [] ==> audit.prevHash == chain.log[|chain.log| - 1].hash)
  {
    UnusedKeyIsStoredIff(digest, chain.log, AuditInput(a, act), act.eventId, act.now);
    hide Built, AtHead, Append, LastOfRun;
  }

  // Whatever the table holds, at one row a head: a row at the head of the new attestation is
  // given back if it says the same but for its id, and is a conflict otherwise.
  lemma {:induction false} RecordDecides(attestations: seq<Attestation>, a: Attestation)
    requires forall i, j | 0 <= i < j < |attestations| ::
               attestations[i].headSequence != attestations[j].headSequence
    ensures forall b :: b in attestations && b.headSequence == a.headSequence ==>
              Record(attestations, a) ==
                if && b.headHash == a.headHash && b.eventCount == a.eventCount
                   && b.previousId == a.previousId && b.signerKey == a.signerKey && b.signer == a.signer
                   && b.signatureId == a.signatureId && b.attestedAt == a.attestedAt
                then Some((attestations, b)) else None
    ensures (forall b :: b in attestations ==> b.headSequence != a.headSequence) ==>
              Record(attestations, a) ==
                if exists b :: b in attestations && b.id == a.id then None
                else Some((attestations + [a], a))
  {
    RowAtHead(attestations, a.headSequence);
    hide AtHead;
  }

  lemma {:induction false} RowAtHead(attestations: seq<Attestation>, head: int)
    requires forall i, j | 0 <= i < j < |attestations| ::
               attestations[i].headSequence != attestations[j].headSequence
    ensures forall b :: b in attestations && b.headSequence == head ==> AtHead(attestations, head) == Some(b)
    ensures AtHead(attestations, head).Some? ==>
              AtHead(attestations, head).value in attestations
              && AtHead(attestations, head).value.headSequence == head
  {
    if attestations != [] {
      var rest := attestations[1..];
      assert forall i :: 0 <= i < |rest| ==> rest[i] == attestations[i + 1];
      RowAtHead(rest, head);
      assert attestations == [attestations[0]] + rest;
    }
  }

  // Attesting again right after an attestation returns that attestation, whoever signs.
  lemma AttestedIsQuiet(digest: Digest, chain: Chain, act: Act)
    requires IdealDigest(digest) && Anchored(digest, chain)
    requires Attest(digest, chain, act).Ok?
    ensures var done := Attest(digest, chain, act).value;
            && Anchored(digest, done.chain) && done.chain.log != [] && Quiet(done.chain)
            && done.attestation == done.chain.attestations[|done.chain.attestations| - 1]
  {
    var done := Attest(digest, chain, act).value;
    AttestDecides(digest, chain, act);
    AttestKeepsAnchored(digest, chain, act);
    hide Attest, IdealDigest;
    if done.created {
      CreatesQuiet(digest, chain, act, done);
    }
    hide Anchored;
  }

  lemma CreatesQuiet(digest: Digest, chain: Chain, act: Act, done: Attested)
    requires Built(digest, chain.log) && chain.log != [] && chain.log[|chain.log| - 1].hash.Some?
    requires Creates(chain, act, done)
    ensures Quiet(done.chain)
  {
    hide Linked, UniqueRows;
    var n := |chain.log|;
    forall i | 0 <= i < n ensures done.chain.log[i].seq_ == i + 1 {
      assert done.chain.log[..n][i] == chain.log[i];
    }
  }

  lemma AttestTwice(digest: Digest, chain: Chain, first: Act, second: Act)
    requires IdealDigest(digest) && Anchored(digest, chain)
    requires Attest(digest, chain, first).Ok? && second.signerStands
    ensures var done := Attest(digest, chain, first).value;
            Attest(digest, done.chain, second) == Ok(Attested(done.chain, done.attestation, false))
  {
    AttestedIsQuiet(digest, chain, first);
    hide Attest, Anchored, IdealDigest, Quiet;
    AttestDecides(digest, Attest(digest, chain, first).value.chain, second);
  }

  lemma QuietStays(digest: Digest, chain: Chain, act: Act)
    requires IdealDigest(digest) && Anchored(digest, chain) && chain.log != [] && Quiet(chain)
    ensures Step(digest, chain, DoAttest(act)) == chain
  {
    hide Attest, Anchored, IdealDigest, Quiet;
    AttestDecides(digest, chain, act);
  }

  lemma {:induction false} RunThenAttests(digest: Digest, ops: seq<Op>, more: seq<Op>)
    requires IdealDigest(digest)
    requires Anchored(digest, Run(digest, ops)) && Run(digest, ops).log != [] && Quiet(Run(digest, ops))
    requires forall op :: op in more ==> op.DoAttest?
    ensures Run(digest, ops + more) == Run(digest, ops)
  {
    hide Anchored, IdealDigest, Quiet, Step;
    if more == [] {
      assert ops + more == ops;
    } else {
      var n := |more| - 1;
      RunThenAttests(digest, ops, more[..n]);
      assert (ops + more)[..|ops + more| - 1] == ops + more[..n];
      assert more[n] in more && more[n] == DoAttest(more[n].act);
      QuietStays(digest, Run(digest, ops), more[n].act);
    }
  }

  // However many attestations follow an attestation that committed, nothing changes any
  // more, and each of them that a standing signer makes returns that one attestation.
  lemma AttestsAfterAttestChangeNothing(
      digest: Digest, ops: seq<Op>, act: Act, more: seq<Op>, next: Act)
    requires IdealDigest(digest) && Attest(digest, Run(digest, ops), act).Ok?
    requires forall op :: op in more ==> op.DoAttest?
    ensures var done := Attest(digest, Run(digest, ops), act).value;
            var later := Run(digest, ops + [DoAttest(act)] + more);
            && later == done.chain
            && (next.signerStands ==> Attest(digest, later, next) == Ok(Attested(later, done.attestation, false)))
  {
    RunsStayAnchored(digest, ops);
    AttestedIsQuiet(digest, Run(digest, ops), act);
    var attested := ops + [DoAttest(act)];
    assert attested[..|attested| - 1] == ops;
    assert Run(digest, attested) == Attest(digest, Run(digest, ops), act).value.chain;
    hide Attest, Anchored, IdealDigest, Quiet, Run, Step;
    RunThenAttests(digest, attested, more);
    if next.signerStands { AttestTwice(digest, Run(digest, ops), act, next); }
  }

  // On a log as it may survive, in any state: where nothing but attestation events follows
  // the latest head, the call succeeds exactly when the attested event is still in place.
  lemma QuietReattestIff(digest: Digest, chain: Chain, act: Act, latest: Attestation)
    requires act.signerStands
    requires chain.log != [] && Ascending(chain.log)
    requires chain.log[|chain.log| - 1].hash.Some? && chain.log[|chain.log| - 1].hash.value != ""
    requires latest in chain.attestations
    requires forall a :: a in chain.attestations && a != latest ==> a.headSequence < latest.headSequence
    requires forall e :: e in chain.log && e.seq_ > latest.headSequence ==> e.kind == "chain.head_attested"
    ensures Attest(digest, chain, act) ==
              if exists e :: e in chain.log && e.seq_ == latest.headSequence
                             && e.hash == Some(latest.headHash)
              then Ok(Attested(chain, latest, false))
              else Err(RewrittenAfterAttestation)
  {
    AscendingHead(chain.log);
    HighestIsLatest(chain.attestations, latest);
    var row := LastAt(chain.log, latest.headSequence);
    forall e | e in chain.log && e.seq_ == latest.headSequence ensures row == Some(e) {
      var i :| 0 <= i < |chain.log| && chain.log[i] == e;
      var j :| 0 <= j < |chain.log| && chain.log[j] == row.value;
      assert i == j;
    }
    hide HeadRow, Latest, LastAt, Append, Ascending;
  }

  // Rows come in the order of their sequence numbers, which are unique.
  ghost predicate Ascending(log: seq<Event>) {
    forall i, j :: 0 <= i < j < |log| ==> log[i].seq_ < log[j].seq_
  }

  lemma {:induction false} AscendingHead(log: seq<Event>)
    requires log != [] && Ascending(log)
    ensures HeadRow(log) == Some(log[|log| - 1])
  {
    if |log| > 1 {
      AscendingHead(log[..|log| - 1]);
    }
  }

  lemma {:induction false} HighestIsLatest(attestations: seq<Attestation>, latest: Attestation)
    requires latest in attestations
    requires forall a :: a in attestations && a != latest ==> a.headSequence < latest.headSequence
    ensures Latest(attestations) == Some(latest)
  {
    var m := |attestations| - 1;
    var shorter := attestations[..m];
    assert attestations == shorter + [attestations[m]];
    if latest in shorter {
      HighestIsLatest(shorter, latest);
    } else {
      LatestIsThere(shorter);
    }
  }

  lemma {:induction false} LatestIsThere(attestations: seq<Attestation>)
    ensures Latest(attestations).Some? ==> Latest(attestations).value in attestations
  {
    if attestations != [] {
      LatestIsThere(attestations[..|attestations| - 1]);
    }
  }

  // An append that is refused leaves both tables as they were; one that is not extends the log,
  // or finds the event there, and leaves the attestations alone.
  lemma AppendSteps(digest: Digest, chain: Chain, input: AppendInput, freshId: string, now: string)
    requires Built(digest, chain.log)
    ensures var after := Step(digest, chain, DoAppend(input, freshId, now));
            var r := Append(digest, chain.log, input, freshId, now);
            && after.attestations == chain.attestations
            && (r.Err? ==> after.log == chain.log)
            && (r.Ok? ==>
                 && r.value.event in after.log
                 && (after.log == chain.log || after.log == chain.log + [r.value.event]))
  {
    AppendKeepsBuilt(digest, chain.log, input, freshId, now);
    hide Append, Built;
  }
}
