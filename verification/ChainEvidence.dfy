// The evidence bundle: the slice exported up to the attested head, and the offline check
// a third party runs on it without the database.

module ChainEvidence {
  import opened Prelude
  import opened EventChain
  import opened ChainAttestation

  datatype Bundle = Bundle(
    genesisHash: string,
    events: seq<Event>,
    attestation: Option<Attestation>)

  datatype Report = Verified | FailedCheck(check: string)

  // ---- Export --------------------------------------------------------------

  // The events with a sequence number up to n, in order.
  function Slice(log: seq<Event>, n: int): seq<Event> {
    if log == [] then []
    else
      var last := log[|log| - 1];
      Slice(log[..|log| - 1], n) + (if last.seq_ <= n then [last] else [])
  }

  // None when the event at the attested position does not survive.
  function Export(log: seq<Event>, a: Attestation): Option<Bundle> {
    var events := Slice(log, a.headSequence);
    if events == [] || events[|events| - 1].seq_ != a.headSequence then None
    else Some(Bundle(GENESIS_HASH, events, Some(a)))
  }

  // ---- The offline check ---------------------------------------------------

  ghost predicate ChainCheck(digest: Digest, bundle: Bundle) {
    && bundle.events != []
    && |bundle.genesisHash| == 64
    && Linked(digest, bundle.events, bundle.genesisHash)
  }

  ghost predicate AnchorCheck(bundle: Bundle)
    requires bundle.events != []
  {
    && bundle.attestation.Some?
    && var head := bundle.events[|bundle.events| - 1];
       var a := bundle.attestation.value;
       && head.hash == Some(a.headHash)
       && head.seq_ == a.headSequence
       && |bundle.events| == a.eventCount
  }

  // `authentic` is the detached signature check over the attested facts.
  method VerifyBundle(digest: Digest, bundle: Bundle, authentic: Attestation -> bool)
    returns (report: Report)
    ensures report == Verified <==>
              ChainCheck(digest, bundle) && AnchorCheck(bundle) && authentic(bundle.attestation.value)
    ensures report == FailedCheck("chain") <==> !ChainCheck(digest, bundle)
    ensures report == FailedCheck("anchor") <==> ChainCheck(digest, bundle) && !AnchorCheck(bundle)
    ensures report == FailedCheck("signature") <==>
              && ChainCheck(digest, bundle) && AnchorCheck(bundle)
              && !authentic(bundle.attestation.value)
  {
    var events := bundle.events;
    if events == [] {
      return FailedCheck("chain");
    }
    if |bundle.genesisHash| != 64 {
      return FailedCheck("chain");
    }
    var previousHash := bundle.genesisHash;
    for i := 0 to |events|
      invariant Linked(digest, events[..i], bundle.genesisHash)
      invariant i > 0 ==> events[i - 1].hash == Some(previousHash)
      invariant i == 0 ==> previousHash == bundle.genesisHash
    {
      var event := events[i];
      assert !LinkedAt(digest, events, bundle.genesisHash, i) ==>
          !Linked(digest, events, bundle.genesisHash);
      if event.hash.None? || event.prevHash.None? {
        return FailedCheck("chain");
      }
      if event.prevHash.value != previousHash {
        return FailedCheck("chain");
      }
      if HashEvent(digest, event) != event.hash.value {
        return FailedCheck("chain");
      }
      assert events[..i + 1][..i] == events[..i];
      LinkedSnoc(digest, events[..i + 1], bundle.genesisHash);
      previousHash := event.hash.value;
    }
    assert events[..|events|] == events;
    var head := events[|events| - 1];
    if bundle.attestation.None? {
      return FailedCheck("anchor");
    }
    var a := bundle.attestation.value;
    if head.hash != Some(a.headHash) {
      return FailedCheck("anchor");
    }
    if head.seq_ != a.headSequence {
      return FailedCheck("anchor");
    }
    if |events| != a.eventCount {
      return FailedCheck("anchor");
    }
    if !authentic(a) {
      return FailedCheck("signature");
    }
    report := Verified;
  }

  // ---- What a passing bundle proves ----------------------------------------

  // Head hash and event count pin the whole slice: a bundle that passes against an
  // attestation of an append-built log carries exactly that log, and had to name the real
  // genesis hash; and that bundle passes.
  lemma PassesIffExact(digest: Digest, attested: seq<Event>, a: Attestation, bundle: Bundle)
    requires IdealDigest(digest) && Built(digest, attested) && Attests(a, attested)
    requires bundle.attestation == Some(a)
    ensures ChainCheck(digest, bundle) && AnchorCheck(bundle) <==>
              bundle.events == attested && bundle.genesisHash == GENESIS_HASH
  {
    hide IdealDigest, HashEvent, UniqueRows;
    if ChainCheck(digest, bundle) && AnchorCheck(bundle) {
      var events, n := bundle.events, |attested|;
      assert LinkedAt(digest, events, bundle.genesisHash, n - 1);
      assert LinkedAt(digest, attested, GENESIS_HASH, n - 1);
      SameHash(digest, events[n - 1], attested[n - 1]);
      forall i | 0 <= i < n ensures events[i] == attested[i] {
        AgreeBackwards(digest, events, attested, bundle.genesisHash, GENESIS_HASH,
                       n - 1, n - 1, n - 1 - i);
      }
      assert LinkedAt(digest, events, bundle.genesisHash, 0);
      assert LinkedAt(digest, attested, GENESIS_HASH, 0);
    }
  }

  lemma {:induction false} SliceOfBuilt(digest: Digest, log: seq<Event>, n: nat)
    requires Built(digest, log) && n <= |log|
    ensures Slice(log, n) == log[..n]
  {
    if n == |log| {
      SliceBelow(digest, log, n);
      assert log[..n] == log;
    } else {
      var shorter := log[..|log| - 1];
      BuiltPrefix(digest, log, |log| - 1);
      SliceOfBuilt(digest, shorter, n);
      assert shorter[..n] == log[..n];
    }
  }

  lemma {:induction false} SliceBelow(digest: Digest, log: seq<Event>, n: nat)
    requires Built(digest, log) && n >= |log|
    ensures Slice(log, n) == log
  {
    if log != [] {
      BuiltPrefix(digest, log, |log| - 1);
      SliceBelow(digest, log[..|log| - 1], n);
    }
  }

  // An export against a recorded attestation passes the offline check, however far the
  // log has advanced past the attested head.
  lemma ExportPasses(digest: Digest, ops: seq<Op>, a: Attestation)
    requires IdealDigest(digest)
    requires a in Run(digest, ops).attestations
    ensures var exported := Export(Run(digest, ops).log, a);
            && exported.Some?
            && ChainCheck(digest, exported.value) && AnchorCheck(exported.value)
            && |exported.value.events| == a.headSequence
  {
    var chain := Run(digest, ops);
    RunsStayAnchored(digest, ops);
    hide Run;
    var i :| 0 <= i < |chain.attestations| && chain.attestations[i] == a;
    assert RowFits(chain, i);
    SliceOfBuilt(digest, chain.log, a.headSequence);
    BuiltPrefix(digest, chain.log, a.headSequence);
    PassesIffExact(digest, chain.log[..a.headSequence], a,
                   Bundle(GENESIS_HASH, chain.log[..a.headSequence], Some(a)));
  }

  // Exporting from a log someone rewrote: if an export comes out at all and passes, the
  // rows it was cut from are exactly the attested events.
  lemma ExportOfRewrittenLog(
      digest: Digest, attested: seq<Event>, a: Attestation, surviving: seq<Event>)
    requires IdealDigest(digest) && Built(digest, attested) && Attests(a, attested)
    requires Export(surviving, a).Some?
    ensures var bundle := Export(surviving, a).value;
            ChainCheck(digest, bundle) && AnchorCheck(bundle) <==>
              Slice(surviving, a.headSequence) == attested
  {
    PassesIffExact(digest, attested, a, Export(surviving, a).value);
  }
}
