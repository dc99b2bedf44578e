// What each verdict on a chain means, whatever log survives.

module ChainVerdicts {
  import opened Prelude
  import opened EventChain
  import opened ChainEvidence

  // The event at i is hashed, and follows the event before it.
  ghost predicate Sound(digest: Digest, log: seq<Event>, i: int)
    requires 0 <= i < |log|
  {
    && log[i].hash == Some(digest(log[i].(hash := None)))
    && log[i].prevHash == if i == 0 then Some(GENESIS_HASH) else log[i - 1].hash
  }

  // The first event that does not stand, and what is wrong with it.
  ghost predicate FirstBreak(digest: Digest, log: seq<Event>, i: int, reason: BreakReason)
    requires 0 <= i < |log|
  {
    && (forall j :: 0 <= j < i ==> Sound(digest, log, j))
    && match reason
       case Unchained => log[i].hash == None || log[i].prevHash == None
       case Relinked =>
         && log[i].hash.Some? && log[i].prevHash.Some?
         && log[i].prevHash != if i == 0 then Some(GENESIS_HASH) else log[i - 1].hash
       case Tampered =>
         && log[i].hash.Some? && log[i].prevHash.Some?
         && log[i].prevHash == (if i == 0 then Some(GENESIS_HASH) else log[i - 1].hash)
         && log[i].hash != Some(digest(log[i].(hash := None)))
       case _ => false
  }

  lemma {:induction false} WalkFindsFirstBreak(digest: Digest, log: seq<Event>)
    ensures match Walk(digest, log)
            case Intact => forall i :: 0 <= i < |log| ==> Sound(digest, log, i)
            case Broken(at, reason) =>
              exists i :: 0 <= i < |log| && log[i].id == at && FirstBreak(digest, log, i, reason)
  {
    if log != [] {
      var n := |log| - 1;
      WalkFindsFirstBreak(digest, log[..n]);
      forall i | 0 <= i < n ensures Sound(digest, log, i) <==> Sound(digest, log[..n], i) {}
      var before := Walk(digest, log[..n]);
      if before.Broken? {
        var i :| 0 <= i < n && log[..n][i].id == before.at && FirstBreak(digest, log[..n], i, before.reason);
        assert FirstBreak(digest, log, i, before.reason);
      } else {
        if n > 0 { assert Sound(digest, log, n - 1); }
        var now := Walk(digest, log);
        if now.Broken? {
          assert FirstBreak(digest, log, n, now.reason);
        }
      }
    }
  }

  lemma BrokenIsNotSound(digest: Digest, log: seq<Event>, i: int, reason: BreakReason)
    requires 0 <= i < |log| && FirstBreak(digest, log, i, reason)
    ensures !Sound(digest, log, i)
  {
    if i > 0 { assert Sound(digest, log, i - 1); }
  }

  // A chain with a break in it is reported by its first break, attested or not.
  lemma BreakIsReported(
      digest: Digest, log: seq<Event>, i: nat, reason: BreakReason,
      attestation: Option<Attestation>, authentic: Option<Attestation -> bool>)
    requires i < |log| && FirstBreak(digest, log, i, reason)
    ensures Verify(digest, log, attestation, authentic) == Broken(log[i].id, reason)
  {
    WalkFindsFirstBreak(digest, log);
    if Walk(digest, log) == Intact {
      BrokenIsNotSound(digest, log, i, reason);
    } else {
      var v := Walk(digest, log);
      var j :| 0 <= j < |log| && log[j].id == v.at && FirstBreak(digest, log, j, v.reason);
      if i < j {
        BrokenIsNotSound(digest, log, i, reason);
      } else if j < i {
        BrokenIsNotSound(digest, log, j, v.reason);
      }
    }
  }

  // A chain without a break is judged by its head: in order, the signature, a head short
  // of the attested one, no event at the attested position, an event there that is another
  // or a count that does not fit.
  lemma HeadVerdict(
      digest: Digest, log: seq<Event>, a: Attestation, authentic: Option<Attestation -> bool>)
    requires forall i :: 0 <= i < |log| ==> Sound(digest, log, i)
    ensures Verify(digest, log, None, authentic) == Intact
    ensures var v := Verify(digest, log, Some(a), authentic);
            var head := if log == [] then 0 else log[|log| - 1].seq_;
            if authentic.Some? && !authentic.value(a) then v == Broken(a.id, BadSignature)
            else if head < a.headSequence then
              v == Broken(if log == [] then a.id else log[|log| - 1].id, Truncated)
            else if forall i :: 0 <= i < |log| ==> log[i].seq_ != a.headSequence then
              v == Broken(a.id, AttestedPositionMissing)
            else exists i ::
              && 0 <= i < |log| && log[i].seq_ == a.headSequence
              && (forall j :: i < j < |log| ==> log[j].seq_ != a.headSequence)
              && v == if log[i].hash == Some(a.headHash)
                         && (head == a.headSequence ==> |log| == a.eventCount)
                      then Intact else Broken(log[i].id, AttestedHeadMismatch)
  {
    WalkFindsFirstBreak(digest, log);
    var walked := Walk(digest, log);
    if walked.Broken? {
      var i :| 0 <= i < |log| && log[i].id == walked.at && FirstBreak(digest, log, i, walked.reason);
      BrokenIsNotSound(digest, log, i, walked.reason);
    }
    if exists i :: 0 <= i < |log| && log[i].seq_ == a.headSequence {
      var j := LastIndexAt(log, a.headSequence);
    }
    hide Walk, LastAt;
  }

  // ---- The exported slice --------------------------------------------------

  lemma {:induction false} SliceHolds(log: seq<Event>, n: int)
    ensures forall e :: e in Slice(log, n) <==> e in log && e.seq_ <= n
  {
    if log != [] {
      var m := |log| - 1;
      SliceHolds(log[..m], n);
      assert log == log[..m] + [log[m]];
    }
  }

  // Row i is the last one up to sequence number n.
  ghost predicate LastUpTo(log: seq<Event>, n: int, i: int) {
    0 <= i < |log| && log[i].seq_ <= n && forall j :: i < j < |log| ==> log[j].seq_ > n
  }

  lemma {:induction false} SliceEnds(log: seq<Event>, n: int)
    ensures Slice(log, n) != [] ==>
              exists i :: 0 <= i < |log| && LastUpTo(log, n, i) && log[i] == Slice(log, n)[|Slice(log, n)| - 1]
  {
    if log != [] {
      var m := |log| - 1;
      SliceEnds(log[..m], n);
      var rest := Slice(log[..m], n);
      if log[m].seq_ <= n {
        assert LastUpTo(log, n, m);
      } else if rest != [] {
        assert Slice(log, n) == rest;
        hide Slice, LastUpTo;
        var i :| && 0 <= i < m && LastUpTo(log[..m], n, i) && log[..m][i] == rest[|rest| - 1];
        StillLast(log, n, i);
      }
    }
  }

  lemma StillLast(log: seq<Event>, n: int, i: int)
    requires log != [] && log[|log| - 1].seq_ > n && LastUpTo(log[..|log| - 1], n, i)
    ensures LastUpTo(log, n, i) && log[i] == log[..|log| - 1][i]
  {
    var m := |log| - 1;
    forall j | i < j < |log| ensures log[j].seq_ > n { assert j < m ==> log[..m][j] == log[j]; }
  }

  // An export comes out exactly when the attested position survives as the newest one up
  // to it, and it carries every event up to there, the attestation and the genesis hash.
  lemma ExportIff(log: seq<Event>, a: Attestation)
    ensures Export(log, a).Some? <==>
              exists i :: 0 <= i < |log| && log[i].seq_ == a.headSequence
                          && forall j :: i < j < |log| ==> log[j].seq_ > a.headSequence
    ensures Export(log, a).Some? ==>
              var bundle := Export(log, a).value;
              && bundle.attestation == Some(a) && bundle.genesisHash == GENESIS_HASH
              && forall e :: e in bundle.events <==> e in log && e.seq_ <= a.headSequence
  {
    SliceHolds(log, a.headSequence);
    SliceEnds(log, a.headSequence);
    var n, events := a.headSequence, Slice(log, a.headSequence);
    hide Slice;
    if events != [] {
      var k :| 0 <= k < |log| && LastUpTo(log, n, k) && log[k] == events[|events| - 1];
      forall i | 0 <= i < |log| && log[i].seq_ == n && forall j :: i < j < |log| ==> log[j].seq_ > n
        ensures i == k
      {
      }
    } else {
      forall i | 0 <= i < |log| ensures log[i].seq_ > n { assert log[i] in log; }
    }
  }
}
