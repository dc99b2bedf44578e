// Diagnosis over a growing log: what a diagnosis appends, and why nothing that is recorded
// later, the suggestion included, changes what a failure is diagnosed with.

module DiagnosisLog {
  import opened CausalGraph
  import opened Diagnosis
  import opened Prelude

  // ---- The log with later events -------------------------------------------

  ghost predicate Later(events: seq<TracedEvent>, later: seq<TracedEvent>) {
    forall e, f :: e in events && f in later ==> e.seq_ < f.seq_
  }

  lemma {:induction false} InsertBefore(e: TracedEvent, o: seq<TracedEvent>, rest: seq<TracedEvent>)
    requires forall f :: f in rest ==> e.seq_ <= f.seq_
    ensures InsertBySeq(e, o + rest) == InsertBySeq(e, o) + rest
  {
    if o == [] {
      assert o + rest == rest;
      assert rest != [] ==> rest[0] in rest;
    } else {
      assert (o + rest)[1..] == o[1..] + rest;
      InsertBefore(e, o[1..], rest);
    }
  }

  lemma {:induction false} SortsApart(events: seq<TracedEvent>, later: seq<TracedEvent>)
    requires Later(events, later)
    ensures SortBySeq(events + later) == SortBySeq(events) + SortBySeq(later)
  {
    if events == [] {
      assert events + later == later;
    } else {
      assert (events + later)[1..] == events[1..] + later;
      SortsApart(events[1..], later);
      forall f | f in SortBySeq(later) ensures events[0].seq_ <= f.seq_ { SameRows(later, f); }
      InsertBefore(events[0], SortBySeq(events[1..]), SortBySeq(later));
    }
  }

  lemma {:induction false} ByIdOfPart(o: seq<TracedEvent>, rest: seq<TracedEvent>, id: string)
    requires forall f :: f in rest ==> f.id != id
    ensures ById(o + rest, id) == ById(o, id)
  {
    if rest == [] {
      assert o + rest == o;
    } else {
      var n := |rest| - 1;
      assert rest[n] in rest;
      assert (o + rest)[..|o + rest| - 1] == o + rest[..n];
      ByIdOfPart(o, rest[..n], id);
    }
  }

  // Whether an edge into one of the first events is drawn depends on these alone.
  lemma EdgesIntoEarlier(o: seq<TracedEvent>, rest: seq<TracedEvent>, e: Edge)
    requires DistinctRows(o + rest) && Later(o, rest)
    requires exists f :: f in o && f.id == e.to
    ensures IsCausalEdge(o + rest, e) <==> IsCausalEdge(o, e)
  {
    SequentialIntoEarlier(o, rest, e);
    CommunicationIntoEarlier(o, rest, e);
    DataIntoEarlier(o, rest, e);
  }

  lemma IdsApart(o: seq<TracedEvent>, rest: seq<TracedEvent>, j: nat, id: string)
    requires DistinctRows(o + rest) && j < |o + rest| && (o + rest)[j].id == id
    requires exists f :: f in o && f.id == id
    ensures j < |o|
  {
    var f :| f in o && f.id == id;
    var k :| 0 <= k < |o| && o[k] == f;
    assert (o + rest)[k].id == id;
  }

  lemma SequentialIntoEarlier(o: seq<TracedEvent>, rest: seq<TracedEvent>, e: Edge)
    requires DistinctRows(o + rest) && exists f :: f in o && f.id == e.to
    ensures IsSequentialEdge(o + rest, |o + rest|, e) <==> IsSequentialEdge(o, |o|, e)
  {
    var n := o + rest;
    if IsSequentialEdge(n, |n|, e) {
      var i, j :| j < |n| && Consecutive(n, i, j) && e == Edge(Sequential, n[i].id, n[j].id, n[i].actor.value);
      IdsApart(o, rest, j, e.to);
      forall k | i < k < j ensures o[k].actor != o[i].actor { assert n[k] == o[k]; }
      assert Consecutive(o, i, j);
    }
    if IsSequentialEdge(o, |o|, e) {
      var i, j :| j < |o| && Consecutive(o, i, j) && e == Edge(Sequential, o[i].id, o[j].id, o[i].actor.value);
      assert Consecutive(n, i, j);
    }
  }

  lemma ParentIntoEarlier(o: seq<TracedEvent>, rest: seq<TracedEvent>, j: nat)
    requires DistinctRows(o + rest) && Later(o, rest) && j < |o|
    ensures NamesEarlierParent(o + rest, j) <==> NamesEarlierParent(o, j)
  {
    var n := o + rest;
    if o[j].parent.Some? {
      var id := o[j].parent.value;
      if f :| f in rest && f.id == id {
        assert f in n;
        ByIdIsUnique(n, f);
        assert o[j] in o;
        forall g | g in o ensures g.id != id {
          var k :| 0 <= k < |o| && o[k] == g;
          var m :| 0 <= m < |rest| && rest[m] == f;
          assert n[k] == g && n[|o| + m] == f;
        }
      } else {
        ByIdOfPart(o, rest, id);
      }
    }
  }

  lemma CommunicationIntoEarlier(o: seq<TracedEvent>, rest: seq<TracedEvent>, e: Edge)
    requires DistinctRows(o + rest) && Later(o, rest) && exists f :: f in o && f.id == e.to
    ensures IsCommunicationEdge(o + rest, |o + rest|, e) <==> IsCommunicationEdge(o, |o|, e)
  {
    var n := o + rest;
    forall j | 0 <= j < |o| ensures NamesEarlierParent(n, j) <==> NamesEarlierParent(o, j) {
      ParentIntoEarlier(o, rest, j);
    }
    if IsCommunicationEdge(n, |n|, e) {
      var j :| j < |n| && NamesEarlierParent(n, j)
        && e == Edge(Communication, n[j].parent.value, n[j].id, n[j].parent.value);
      IdsApart(o, rest, j, e.to);
      assert NamesEarlierParent(o, j);
    }
    if IsCommunicationEdge(o, |o|, e) {
      var j :| j < |o| && NamesEarlierParent(o, j)
        && e == Edge(Communication, o[j].parent.value, o[j].id, o[j].parent.value);
      assert NamesEarlierParent(n, j);
    }
  }

  lemma DataIntoEarlier(o: seq<TracedEvent>, rest: seq<TracedEvent>, e: Edge)
    requires DistinctRows(o + rest) && exists f :: f in o && f.id == e.to
    ensures IsDataEdge(o + rest, |o + rest|, e) <==> IsDataEdge(o, |o|, e)
  {
    var n := o + rest;
    if IsDataEdge(n, |n|, e) {
      var i, j, ref :| j < |n| && ReadsFrom(n, i, j, ref) && e == Edge(DataDependency, n[i].id, n[j].id, ref);
      IdsApart(o, rest, j, e.to);
      assert ReadsFrom(o, i, j, ref);
    }
    if IsDataEdge(o, |o|, e) {
      var i, j, ref :| j < |o| && ReadsFrom(o, i, j, ref) && e == Edge(DataDependency, o[i].id, o[j].id, ref);
      assert ReadsFrom(n, i, j, ref);
    }
  }

  // ---- The diagnosis with later events -------------------------------------

  // The graphs of a log and of the log grown by later events.
  ghost predicate Grown(
      events: seq<TracedEvent>, later: seq<TracedEvent>, edges: seq<Edge>, more: seq<Edge>)
  {
    && DistinctRows(events + later) && Later(events, later)
    && (forall e :: e in edges <==> IsCausalEdge(SortBySeq(events), e))
    && (forall e :: e in more <==> IsCausalEdge(SortBySeq(events + later), e))
  }

  ghost predicate Known(events: seq<TracedEvent>, id: string) {
    ById(events, id).Some?
  }

  lemma SortedParts(events: seq<TracedEvent>, later: seq<TracedEvent>)
    requires DistinctRows(events + later) && Later(events, later)
    ensures var o, rest := SortBySeq(events), SortBySeq(later);
            && SortBySeq(events + later) == o + rest
            && DistinctRows(o + rest) && Later(o, rest)
  {
    SortsApart(events, later);
    SortKeepsDistinct(events + later);
    var o, rest := SortBySeq(events), SortBySeq(later);
    forall e, f | e in o && f in rest ensures e.seq_ < f.seq_ {
      SameRows(events, e);
      SameRows(later, f);
    }
  }

  lemma EarlierIsDistinct(events: seq<TracedEvent>, later: seq<TracedEvent>)
    requires DistinctRows(events + later)
    ensures DistinctRows(events)
  {
    forall i, j | 0 <= i < j < |events|
      ensures events[i].id != events[j].id && events[i].seq_ != events[j].seq_
    {
      assert (events + later)[i] == events[i] && (events + later)[j] == events[j];
    }
  }

  lemma EdgesAgree(
      events: seq<TracedEvent>, later: seq<TracedEvent>, edges: seq<Edge>, more: seq<Edge>, e: Edge)
    requires Grown(events, later, edges, more) && Known(events, e.to)
    ensures e in edges <==> e in more
  {
    var o, rest := SortBySeq(events), SortBySeq(later);
    SortedParts(events, later);
    var f := ById(events, e.to).value;
    SameRows(events, f);
    hide IsCausalEdge, SortBySeq;
    EdgesIntoEarlier(o, rest, e);
  }

  lemma ParentsAgree(
      events: seq<TracedEvent>, later: seq<TracedEvent>, edges: seq<Edge>, more: seq<Edge>,
      child: string, parent: string)
    requires Grown(events, later, edges, more) && Known(events, child)
    ensures IsParent(edges, child, parent) <==> IsParent(more, child, parent)
    ensures IsParent(edges, child, parent) ==> Known(events, parent)
  {
    EarlierIsDistinct(events, later);
    GraphIsForward(events, edges);
    hide IsCausalEdge, SortBySeq, ById;
    forall e: Edge | e.to == child ensures e in edges <==> e in more {
      EdgesAgree(events, later, edges, more, e);
    }
  }

  lemma {:induction false} TraceIsKnown(
      events: seq<TracedEvent>, later: seq<TracedEvent>, edges: seq<Edge>, more: seq<Edge>,
      p: seq<string>, n: nat)
    requires Grown(events, later, edges, more) && n < |p| && Known(events, p[0])
    requires || (forall k :: 0 <= k < n ==> IsParent(edges, p[k], p[k + 1]))
             || (forall k :: 0 <= k < n ==> IsParent(more, p[k], p[k + 1]))
    ensures forall k :: 0 <= k <= n ==> Known(events, p[k])
    ensures forall k :: 0 <= k < n ==>
      IsParent(edges, p[k], p[k + 1]) && IsParent(more, p[k], p[k + 1])
  {
    hide Grown, Known, IsParent;
    if n > 0 {
      TraceIsKnown(events, later, edges, more, p, n - 1);
      ParentsAgree(events, later, edges, more, p[n - 1], p[n - 1 + 1]);
    }
  }

  lemma TracesAgree(
      events: seq<TracedEvent>, later: seq<TracedEvent>, edges: seq<Edge>, more: seq<Edge>,
      failure: string, v: string, excluded: Option<string>, p: seq<string>)
    requires Grown(events, later, edges, more) && Known(events, failure)
    ensures IsTrace(edges, failure, v, excluded, p) <==> IsTrace(more, failure, v, excluded, p)
    ensures IsTrace(edges, failure, v, excluded, p) ==> Known(events, v)
  {
    hide Grown, Known, IsParent;
    if IsTrace(edges, failure, v, excluded, p) || IsTrace(more, failure, v, excluded, p) {
      TraceIsKnown(events, later, edges, more, p, |p| - 1);
    }
  }

  lemma AncestorsAgree(
      events: seq<TracedEvent>, later: seq<TracedEvent>, edges: seq<Edge>, more: seq<Edge>,
      failure: string)
    requires Grown(events, later, edges, more) && Known(events, failure)
    ensures AncestorSet(edges, failure) == AncestorSet(more, failure)
    ensures forall v :: v in AncestorSet(edges, failure) ==> Known(events, v)
  {
    hide Grown, Known, IsTrace;
    forall v
      ensures IsAncestor(edges, failure, v) <==> IsAncestor(more, failure, v)
      ensures IsAncestor(edges, failure, v) ==> Known(events, v)
    {
      forall p ensures IsTrace(edges, failure, v, None, p) <==> IsTrace(more, failure, v, None, p)
               ensures IsTrace(edges, failure, v, None, p) ==> Known(events, v) {
        TracesAgree(events, later, edges, more, failure, v, None, p);
      }
    }
    assert forall v :: v in AncestorSet(edges, failure) <==> v in AncestorSet(more, failure);
  }

  lemma DominatedAgree(
      events: seq<TracedEvent>, later: seq<TracedEvent>, edges: seq<Edge>, more: seq<Edge>,
      failure: string, c: string)
    requires Grown(events, later, edges, more) && Known(events, failure)
    ensures Dominated(edges, failure, c) == Dominated(more, failure, c)
  {
    AncestorsAgree(events, later, edges, more, failure);
    hide Grown, Known, IsTrace, IsAncestor;
    forall a
      ensures IsAncestor(edges, failure, a) <==> IsAncestor(more, failure, a)
      ensures EveryTraceThrough(edges, failure, a, c) <==> EveryTraceThrough(more, failure, a, c)
    {
      assert IsAncestor(edges, failure, a) <==> a in AncestorSet(edges, failure);
      assert IsAncestor(more, failure, a) <==> a in AncestorSet(more, failure);
      forall p ensures IsTrace(edges, failure, a, None, p) <==> IsTrace(more, failure, a, None, p) {
        TracesAgree(events, later, edges, more, failure, a, None, p);
      }
    }
    assert forall a :: a in Dominated(edges, failure, c) <==> a in Dominated(more, failure, c);
  }

  lemma KnownReadsTheSame(events: seq<TracedEvent>, later: seq<TracedEvent>, id: string)
    requires DistinctRows(events + later) && Known(events, id)
    ensures ById(events + later, id) == ById(events, id)
  {
    var e := ById(events, id).value;
    assert e in events + later;
    ByIdIsUnique(events + later, e);
  }

  lemma CandidatesAgree(
      events: seq<TracedEvent>, later: seq<TracedEvent>, edges: seq<Edge>, more: seq<Edge>,
      failure: string, id: string)
    requires Grown(events, later, edges, more) && Known(events, failure) && Known(events, id)
    ensures CandidateFor(events, edges, failure, id) == CandidateFor(events + later, more, failure, id)
    ensures SeqOf(events, id) == SeqOf(events + later, id)
  {
    KnownReadsTheSame(events, later, id);
    DominatedAgree(events, later, edges, more, failure, id);
    hide Grown, Known, ById, IsParent;
    forall parent ensures IsParent(edges, id, parent) <==> IsParent(more, id, parent) {
      ParentsAgree(events, later, edges, more, id, parent);
    }
  }

  lemma ScreenedAgree(
      events: seq<TracedEvent>, grown: seq<TracedEvent>, ancestors: set<string>, budget: nat,
      chosen: set<string>)
    requires forall v :: v in ancestors ==> SeqOf(events, v) == SeqOf(grown, v)
    ensures Screened(events, ancestors, budget, chosen) <==> Screened(grown, ancestors, budget, chosen)
  {
    hide SeqOf;
  }

  lemma RankedAgree(events: seq<TracedEvent>, grown: seq<TracedEvent>, cs: seq<Candidate>)
    requires forall c :: c in cs ==> SeqOf(events, c.id) == SeqOf(grown, c.id)
    ensures StrictlyRanked(events, cs) <==> StrictlyRanked(grown, cs)
  {
    hide SeqOf;
    forall i, j | 0 <= i < j < |cs| ensures Ahead(events, cs[i], cs[j]) <==> Ahead(grown, cs[i], cs[j]) {
      assert cs[i] in cs && cs[j] in cs;
    }
  }

  // Whatever is recorded later, a failure is diagnosed as before.
  lemma DiagnosisIsStable(
      events: seq<TracedEvent>, later: seq<TracedEvent>, edges: seq<Edge>, more: seq<Edge>,
      failure: string, budget: nat, r: Report)
    requires Grown(events, later, edges, more) && Known(events, failure)
    ensures IsDiagnosis(events, edges, failure, budget, r) <==>
            IsDiagnosis(events + later, more, failure, budget, r)
  {
    AncestorsAgree(events, later, edges, more, failure);
    var ancestors := AncestorSet(edges, failure);
    hide Grown, Known, CandidateFor, SeqOf, StrictlyRanked, Screened;
    forall v | v in ancestors
      ensures SeqOf(events, v) == SeqOf(events + later, v)
      ensures CandidateFor(events, edges, failure, v) == CandidateFor(events + later, more, failure, v)
    {
      CandidatesAgree(events, later, edges, more, failure, v);
    }
    ScreenedAgree(events, events + later, ancestors, budget, Ids(r.candidates));
    if Ids(r.candidates) <= ancestors {
      forall c | c in r.candidates ensures c.id in ancestors { assert c.id in Ids(r.candidates); }
      RankedAgree(events, events + later, r.candidates);
    } else {
      ScreenedIsWithin(events, ancestors, budget, Ids(r.candidates));
      ScreenedIsWithin(events + later, ancestors, budget, Ids(r.candidates));
    }
  }

  lemma ScreenedIsWithin(
      events: seq<TracedEvent>, ancestors: set<string>, budget: nat, chosen: set<string>)
    ensures Screened(events, ancestors, budget, chosen) ==> chosen <= ancestors
  {
  }

  // Diagnosing a failure again gives the same report, whatever was recorded in between.
  lemma RepeatedDiagnosisAgrees(
      events: seq<TracedEvent>, later: seq<TracedEvent>, edges: seq<Edge>, more: seq<Edge>,
      failure: string, budget: nat, r: Report, again: Report)
    requires Grown(events, later, edges, more) && Known(events, failure)
    requires IsDiagnosis(events, edges, failure, budget, r)
    requires IsDiagnosis(events + later, more, failure, budget, again)
    ensures r == again
  {
    hide Grown, Known, IsDiagnosis;
    DiagnosisIsStable(events, later, edges, more, failure, budget, r);
    DiagnosisIsUnique(events + later, more, failure, budget, r, again);
  }

  // ---- The service ---------------------------------------------------------

  // What the suggestion carries besides its place in the log.
  datatype Suggestion = Suggestion(
    failure: string, candidateCount: nat, top: Option<Candidate>, truncated: bool, refs: seq<string>)

  function SuggestionOf(r: Report): Suggestion {
    var shown := if |r.candidates| <= 5 then r.candidates else r.candidates[..5];
    Suggestion(
      r.failure, |r.candidates|, if r.candidates == [] then None else Some(r.candidates[0]), r.truncated,
      [r.failure] + seq(|shown|, i requires 0 <= i < |shown| => shown[i].id))
  }

  function NextSeq(events: seq<TracedEvent>): (n: int)
    ensures n >= 1 && forall e :: e in events ==> e.seq_ < n
  {
    if events == [] then 1
    else
      var last := events[|events| - 1];
      var n := NextSeq(events[..|events| - 1]);
      assert events == events[..|events| - 1] + [last];
      if last.seq_ < n then n else last.seq_ + 1
  }

  // A suggestion names no actor, no cause and no refs that the graph reads.
  function SuggestedEvent(id: string, seq_: int): TracedEvent {
    TracedEvent(id, seq_, "diagnosis.suggested", None, None, [], [])
  }

  class DiagnosisService {
    const maxAncestors: nat
    var events: seq<TracedEvent>
    var suggestions: map<string, Suggestion>

    constructor (maxAncestors: nat, events: seq<TracedEvent>)
      ensures this.maxAncestors == maxAncestors && this.events == events && suggestions == map[]
    {
      this.maxAncestors, this.events, suggestions := maxAncestors, events, map[];
    }

    // An unknown failure changes nothing; any other is diagnosed on the log as it stands, and
    // the suggestion is appended as its latest event.
    method Diagnose(failureId: string, newId: string)
      returns (r: Result<Report, DiagnosisError>, ghost graph: Graph)
      requires DistinctRows(events) && forall e :: e in events ==> e.id != newId
      modifies this`events, this`suggestions
      ensures r.Err? <==> ById(old(events), failureId).None?
      ensures r.Err? ==> events == old(events) && suggestions == old(suggestions)
      ensures r.Ok? ==>
        && (forall e :: e in graph.edges <==> IsCausalEdge(SortBySeq(old(events)), e))
        && IsDiagnosis(old(events), graph.edges, failureId, maxAncestors, r.value)
      ensures r.Ok? ==>
        && events == old(events) + [SuggestedEvent(newId, NextSeq(old(events)))]
        && suggestions == old(suggestions)[newId := SuggestionOf(r.value)]
        && DistinctRows(events) && Later(old(events), [events[|events| - 1]])
    {
      hide IsDiagnosis, IsCausalEdge, SortBySeq, ById;
      r, graph := Diagnosis.Diagnose(events, failureId, maxAncestors);
      if r.Ok? {
        var suggested := SuggestedEvent(newId, NextSeq(events));
        events := events + [suggested];
        suggestions := suggestions[newId := SuggestionOf(r.value)];
      }
    }
  }
}
