// What a diagnosis and the suggestion made from it say, in terms of the log alone.

module DiagnosisReport {
  import opened CausalGraph
  import opened Collections
  import opened Diagnosis
  import opened DiagnosisLog
  import opened Prelude

  // ---- The edges -----------------------------------------------------------

  // Each kind of edge, told from the events in order.
  ghost predicate Caused(o: seq<TracedEvent>, e: Edge) {
    match e.kind
    case Sequential =>
      exists i, j :: 0 <= i < j < |o| && e.from == o[i].id && e.to == o[j].id && e.from != ""
        && e.via != "" && o[i].actor == Some(e.via) && o[j].actor == Some(e.via)
        && forall k :: i < k < j ==> o[k].actor != Some(e.via)
    case Communication =>
      exists j, p :: 0 <= j < |o| && p in o && e.from == p.id && e.to == o[j].id && e.via == p.id
        && o[j].parent == Some(p.id) && p.id != "" && p.seq_ < o[j].seq_
        && p.actor.Some? && o[j].actor.Some? && p.actor.value != o[j].actor.value
    case DataDependency =>
      exists i, j :: 0 <= i < j < |o| && e.from == o[i].id && e.to == o[j].id && e.from != e.to
        && e.via in o[i].produced && e.via in o[j].consumed
  }

  lemma CausalEdgeIff(o: seq<TracedEvent>, e: Edge)
    requires DistinctRows(o)
    ensures IsCausalEdge(o, e) <==> Caused(o, e)
  {
    match e.kind
    case Sequential => SequentialIff(o, e);
    case Communication => CommunicationIff(o, e);
    case DataDependency => DataIff(o, e);
    hide Caused, IsSequentialEdge, IsCommunicationEdge, IsDataEdge;
  }

  lemma OtherKinds(o: seq<TracedEvent>, e: Edge)
    ensures IsSequentialEdge(o, |o|, e) ==> e.kind == Sequential
    ensures IsCommunicationEdge(o, |o|, e) ==> e.kind == Communication
    ensures IsDataEdge(o, |o|, e) ==> e.kind == DataDependency
  {
  }

  lemma SequentialIff(o: seq<TracedEvent>, e: Edge)
    requires e.kind == Sequential
    ensures IsCausalEdge(o, e) <==> Caused(o, e)
  {
    OtherKinds(o, e);
    if IsSequentialEdge(o, |o|, e) {
      var i, j :| j < |o| && Consecutive(o, i, j) && e == Edge(Sequential, o[i].id, o[j].id, o[i].actor.value);
      assert e.from == o[i].id && e.to == o[j].id;
    }
    if Caused(o, e) {
      var i, j :| 0 <= i < j < |o| && e.from == o[i].id && e.to == o[j].id && e.from != ""
        && e.via != "" && o[i].actor == Some(e.via) && o[j].actor == Some(e.via)
        && forall k :: i < k < j ==> o[k].actor != Some(e.via);
      assert Consecutive(o, i, j);
    }
  }

  lemma CommunicationIff(o: seq<TracedEvent>, e: Edge)
    requires e.kind == Communication && DistinctRows(o)
    ensures IsCausalEdge(o, e) <==> Caused(o, e)
  {
    OtherKinds(o, e);
    if IsCommunicationEdge(o, |o|, e) {
      var j :| j < |o| && NamesEarlierParent(o, j)
        && e == Edge(Communication, o[j].parent.value, o[j].id, o[j].parent.value);
      var p := ById(o, o[j].parent.value).value;
      assert p in o && e.to == o[j].id && e.from == p.id;
    }
    if Caused(o, e) {
      var j, p :| 0 <= j < |o| && p in o && e.from == p.id && e.to == o[j].id && e.via == p.id
        && o[j].parent == Some(p.id) && p.id != "" && p.seq_ < o[j].seq_
        && p.actor.Some? && o[j].actor.Some? && p.actor.value != o[j].actor.value;
      ByIdIsUnique(o, p);
      assert NamesEarlierParent(o, j);
    }
  }

  lemma DataIff(o: seq<TracedEvent>, e: Edge)
    requires e.kind == DataDependency
    ensures IsCausalEdge(o, e) <==> Caused(o, e)
  {
    OtherKinds(o, e);
    if IsDataEdge(o, |o|, e) {
      var i, j, ref :| j < |o| && ReadsFrom(o, i, j, ref) && e == Edge(DataDependency, o[i].id, o[j].id, ref);
      assert e.from == o[i].id && e.to == o[j].id;
    }
    if Caused(o, e) {
      var i, j :| 0 <= i < j < |o| && e.from == o[i].id && e.to == o[j].id && e.from != e.to
        && e.via in o[i].produced && e.via in o[j].consumed;
      assert ReadsFrom(o, i, j, e.via);
    }
  }

  // ---- The report ----------------------------------------------------------

  // A way back along the edges.
  ghost predicate Back(edges: seq<Edge>, p: seq<string>) {
    |p| >= 2 && forall k | 0 <= k < |p| - 1 :: Causes(edges, p[k + 1], p[k])
  }

  ghost predicate Causes(edges: seq<Edge>, cause: string, effect: string) {
    exists e :: e in edges && e.from == cause && e.to == effect
  }

  ghost predicate LeadsTo(edges: seq<Edge>, failure: string, v: string, p: seq<string>) {
    Back(edges, p) && p[0] == failure && p[|p| - 1] == v
  }

  // An event the failure goes back to.
  ghost predicate Before(edges: seq<Edge>, failure: string, v: string) {
    v != failure && exists p :: LeadsTo(edges, failure, v, p)
  }

  lemma TraceIff(edges: seq<Edge>, failure: string, v: string, p: seq<string>)
    ensures IsTrace(edges, failure, v, None, p) <==> LeadsTo(edges, failure, v, p)
  {
    forall x, y ensures IsParent(edges, x, y) <==> Causes(edges, y, x) {}
    hide IsParent, Causes;
    if LeadsTo(edges, failure, v, p) {
      forall k | 0 <= k < |p| - 1 ensures IsParent(edges, p[k], p[k + 1]) {
        assert Causes(edges, p[k + 1], p[k]);
      }
    }
    if IsTrace(edges, failure, v, None, p) {
      forall k | 0 <= k < |p| - 1 ensures Causes(edges, p[k + 1], p[k]) {
        assert IsParent(edges, p[k], p[k + 1]);
      }
    }
  }

  lemma AncestorIff(edges: seq<Edge>, failure: string, v: string)
    ensures v in AncestorSet(edges, failure) <==> Before(edges, failure, v)
  {
    hide IsTrace, LeadsTo;
    forall p ensures IsTrace(edges, failure, v, None, p) <==> LeadsTo(edges, failure, v, p) {
      TraceIff(edges, failure, v, p);
    }
    if Upstream(edges, failure, v, None) {
      var p :| IsTrace(edges, failure, v, None, p);
      assert LeadsTo(edges, failure, v, p);
    }
    if p :| LeadsTo(edges, failure, v, p) {
      assert IsTrace(edges, failure, v, None, p);
    }
  }

  // Without c the failure would not go back to a.
  ghost predicate HingesOn(edges: seq<Edge>, failure: string, c: string, a: string) {
    && a != c && Before(edges, failure, a)
    && forall p | LeadsTo(edges, failure, a, p) :: c in p
  }

  lemma DominatedIff(edges: seq<Edge>, failure: string, c: string, a: string)
    requires Before(edges, failure, c)
    ensures a in Dominated(edges, failure, c) <==> HingesOn(edges, failure, c, a)
  {
    AncestorIff(edges, failure, c);
    AncestorIff(edges, failure, a);
    hide IsTrace, LeadsTo, IsAncestor, Before;
    forall p ensures IsTrace(edges, failure, a, None, p) <==> LeadsTo(edges, failure, a, p) {
      TraceIff(edges, failure, a, p);
    }
  }

  // What a candidate says about its event: the kind and the actor are the event's own, the
  // score counts the other ancestors that hinge on it, and a root has no cause itself.
  ghost predicate Describes(
      events: seq<TracedEvent>, edges: seq<Edge>, failure: string, c: Candidate, e: TracedEvent)
  {
    && e in events && c.id == e.id && c.kind == e.kind && c.actor == e.actor
    && Before(edges, failure, c.id)
    && (exists s: set<string> ::
         (forall a :: a in s <==> HingesOn(edges, failure, c.id, a)) && c.score == |s|)
    && (c.isRoot <==> forall f :: f in edges ==> f.to != c.id)
  }

  // Roots come first, then what more hinges on, then what came earlier.
  ghost predicate ComesFirst(c: Candidate, e: TracedEvent, d: Candidate, f: TracedEvent) {
    || (c.isRoot && !d.isRoot)
    || (c.isRoot == d.isRoot && c.score > d.score)
    || (c.isRoot == d.isRoot && c.score == d.score && e.seq_ < f.seq_)
  }

  ghost predicate IsGraphOf(events: seq<TracedEvent>, edges: seq<Edge>) {
    && DistinctRows(events)
    && forall e :: e in edges <==> IsCausalEdge(SortBySeq(events), e)
  }

  lemma CandidateDescribes(
      events: seq<TracedEvent>, edges: seq<Edge>, failure: string, c: Candidate)
    requires IsGraphOf(events, edges)
    requires c.id in AncestorSet(edges, failure) && c == CandidateFor(events, edges, failure, c.id)
    ensures exists e :: Describes(events, edges, failure, c, e) && SeqOf(events, c.id) == e.seq_
  {
    hide IsCausalEdge, SortBySeq, Forward, IsTrace, LeadsTo, HingesOn;
    AncestorIff(edges, failure, c.id);
    hide Before;
    forall a ensures a in Dominated(edges, failure, c.id) <==> HingesOn(edges, failure, c.id, a) {
      DominatedIff(edges, failure, c.id, a);
    }
    assert c.isRoot <==> forall f :: f in edges ==> f.to != c.id by { RootIff(edges, c.id); }
    GraphIsForward(events, edges);
    AncestorIsAnEvent(events, edges, failure, c.id);
    var e := ById(events, c.id).value;
    assert Describes(events, edges, failure, c, e);
  }

  lemma RootIff(edges: seq<Edge>, v: string)
    ensures HasNoParent(edges, v) <==> forall f :: f in edges ==> f.to != v
  {
    if HasNoParent(edges, v) {
      forall f | f in edges ensures f.to != v {
        assert f.to == v ==> IsParent(edges, v, f.from);
      }
    }
  }

  // The report lists the whole cone of the failure, or as much of its earliest part as the
  // budget allows, each event once and described by what the log holds, in order.
  lemma ReportSays(
      events: seq<TracedEvent>, edges: seq<Edge>, failure: string, budget: nat, r: Report,
      cone: set<string>)
    requires IsGraphOf(events, edges) && IsDiagnosis(events, edges, failure, budget, r)
    requires forall v :: v in cone <==> Before(edges, failure, v)
    ensures r.failure == failure && (r.truncated <==> |cone| > budget)
    ensures |r.candidates| == if |cone| > budget then budget else |cone|
    ensures forall i, j :: 0 <= i < j < |r.candidates| ==> r.candidates[i].id != r.candidates[j].id
    ensures forall c :: c in r.candidates ==> exists e :: Describes(events, edges, failure, c, e)
    ensures forall i, j, e, f ::
              0 <= i < j < |r.candidates|
              && Describes(events, edges, failure, r.candidates[i], e)
              && Describes(events, edges, failure, r.candidates[j], f) ==>
                ComesFirst(r.candidates[i], e, r.candidates[j], f)
    ensures forall c, e, f ::
              c in r.candidates && Describes(events, edges, failure, c, e)
              && f in events && f.id in cone && (forall d :: d in r.candidates ==> d.id != f.id) ==>
                e.seq_ < f.seq_
  {
    hide IsGraphOf, Before;
    forall v ensures v in cone <==> v in AncestorSet(edges, failure) { AncestorIff(edges, failure, v); }
    assert cone == AncestorSet(edges, failure);
    CandidatesAreDistinct(events, r.candidates);
    hide StrictlyRanked;
    forall c | c in r.candidates
      ensures c.id in cone && exists e :: Describes(events, edges, failure, c, e)
    {
      assert c.id in Ids(r.candidates);
      CandidateDescribes(events, edges, failure, c);
    }
    CountCandidates(r.candidates);
    forall c, e | c in r.candidates && Describes(events, edges, failure, c, e)
      ensures SeqOf(events, c.id) == e.seq_
    {
      SeqOfRow(events, edges, e);
    }
    forall f | f in events && f.id in cone && forall d :: d in r.candidates ==> d.id != f.id
      ensures f.id in cone - Ids(r.candidates) && SeqOf(events, f.id) == f.seq_
    {
      SeqOfRow(events, edges, f);
    }
    hide Describes, SeqOf, AncestorSet, CandidateFor;
    assert StrictlyRanked(events, r.candidates);
    forall i, j, e, f | 0 <= i < j < |r.candidates|
                        && Describes(events, edges, failure, r.candidates[i], e)
                        && Describes(events, edges, failure, r.candidates[j], f)
      ensures ComesFirst(r.candidates[i], e, r.candidates[j], f)
    {
      RankedPair(events, r.candidates, i, j);
      assert r.candidates[i] in r.candidates && r.candidates[j] in r.candidates;
    }
    forall c, e, f | c in r.candidates && Describes(events, edges, failure, c, e)
                     && f in events && f.id in cone && forall d :: d in r.candidates ==> d.id != f.id
      ensures e.seq_ < f.seq_
    {
      assert c.id in Ids(r.candidates);
    }
  }

  lemma RankedPair(events: seq<TracedEvent>, cs: seq<Candidate>, i: int, j: int)
    requires StrictlyRanked(events, cs) && 0 <= i < j < |cs|
    ensures Ahead(events, cs[i], cs[j])
  {
  }

  lemma SeqOfRow(events: seq<TracedEvent>, edges: seq<Edge>, e: TracedEvent)
    requires IsGraphOf(events, edges) && e in events
    ensures SeqOf(events, e.id) == e.seq_
  {
    hide IsCausalEdge, SortBySeq;
    ByIdIsUnique(events, e);
  }

  lemma CandidatesAreDistinct(events: seq<TracedEvent>, cs: seq<Candidate>)
    requires StrictlyRanked(events, cs)
    requires forall c, d :: c in cs && d in cs && c.id == d.id ==> c == d
    ensures forall i, j :: 0 <= i < j < |cs| ==> cs[i].id != cs[j].id
  {
    forall i, j | 0 <= i < j < |cs| ensures cs[i].id != cs[j].id {
      RankedPair(events, cs, i, j);
      assert cs[i] in cs && cs[j] in cs;
    }
  }

  lemma {:induction false} CountCandidates(cs: seq<Candidate>)
    requires forall i, j :: 0 <= i < j < |cs| ==> cs[i].id != cs[j].id
    ensures |Ids(cs)| == |cs|
  {
    if cs != [] {
      var n := |cs| - 1;
      CountCandidates(cs[..n]);
      assert cs == cs[..n] + [cs[n]];
      assert Ids(cs) == Ids(cs[..n]) + {cs[n].id};
    }
  }

  // Of two candidates that are both roots or both not, the one the other hinges on is listed
  // first.
  lemma WhatOthersHingeOnComesFirst(
      events: seq<TracedEvent>, edges: seq<Edge>, failure: string, budget: nat, r: Report, i: nat, j: nat)
    requires IsDiagnosis(events, edges, failure, budget, r)
    requires i < |r.candidates| && j < |r.candidates|
    requires r.candidates[i].isRoot == r.candidates[j].isRoot
    requires Before(edges, failure, r.candidates[i].id)
    requires HingesOn(edges, failure, r.candidates[i].id, r.candidates[j].id)
    ensures i < j
  {
    var c, d := r.candidates[i], r.candidates[j];
    AncestorIff(edges, failure, c.id);
    AncestorIff(edges, failure, d.id);
    DominatedIff(edges, failure, c.id, d.id);
    DominatorScoresHigher(edges, failure, c.id, d.id);
    assert c in r.candidates && d in r.candidates;
    hide Screened, Dominated, Before, AncestorSet;
    if j < i {
      RankedPair(events, r.candidates, j, i);
    }
  }

  // ---- The suggestion ------------------------------------------------------

  // The suggestion carries the failure, how many candidates there are, the first of them,
  // and refers to the failure and the first five.
  lemma SuggestionSays(r: Report)
    ensures var s := SuggestionOf(r);
            && s.failure == r.failure && s.candidateCount == |r.candidates|
            && s.truncated == r.truncated
            && (if r.candidates == [] then s.top == None else s.top == Some(r.candidates[0]))
            && |s.refs| == 1 + (if |r.candidates| > 5 then 5 else |r.candidates|)
            && s.refs[0] == r.failure
            && forall k :: 1 <= k < |s.refs| ==> s.refs[k] == r.candidates[k - 1].id
  {
  }

  // It is recorded right after the newest event, and says nothing the graph reads.
  lemma {:induction false} SuggestionIsNext(events: seq<TracedEvent>, id: string)
    ensures var e := SuggestedEvent(id, NextSeq(events));
            && e.id == id && e.kind == "diagnosis.suggested"
            && e.actor == None && e.parent == None && e.consumed == [] && e.produced == []
            && (forall f :: f in events ==> f.seq_ < e.seq_)
            && (e.seq_ == 1 || exists f :: f in events && e.seq_ == f.seq_ + 1)
  {
    if events != [] {
      var n := |events| - 1;
      SuggestionIsNext(events[..n], id);
      assert events == events[..n] + [events[n]];
      assert events[n] in events;
    }
  }
}
