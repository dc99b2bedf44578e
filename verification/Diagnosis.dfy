// Counterfactual diagnosis: which upstream events a failure hinges on, ranked.

module Diagnosis {
  import opened CausalGraph
  import opened Collections
  import opened Prelude

  datatype Candidate = Candidate(
    id: string,
    kind: string,
    actor: Option<string>,
    score: int,
    isRoot: bool)

  datatype Report = Report(failure: string, candidates: seq<Candidate>, truncated: bool)

  datatype DiagnosisError = FailureNotFound

  // ---- What a diagnosis should say -----------------------------------------

  ghost predicate IsAncestor(edges: seq<Edge>, failure: string, v: string) {
    v != failure && Upstream(edges, failure, v, None)
  }

  ghost function AncestorSet(edges: seq<Edge>, failure: string): (s: set<string>)
    ensures forall v :: v in s <==> IsAncestor(edges, failure, v)
  {
    assert forall v :: IsAncestor(edges, failure, v) ==> v in Sources(edges) by {
      forall v | IsAncestor(edges, failure, v) ensures v in Sources(edges) {
        UpstreamIsSource(edges, failure, v, None);
      }
    }
    set v | v in Sources(edges) && IsAncestor(edges, failure, v)
  }

  lemma UpstreamIsSource(edges: seq<Edge>, seed: string, v: string, excluded: Option<string>)
    requires Upstream(edges, seed, v, excluded)
    ensures v in Sources(edges)
  {
    var p :| IsTrace(edges, seed, v, excluded, p);
    var k := |p| - 2;
    assert IsParent(edges, p[k], p[k + 1]);
  }

  // Every way back from the failure to `a` passes through `c`.
  ghost predicate EveryTraceThrough(edges: seq<Edge>, failure: string, a: string, c: string) {
    forall p | IsTrace(edges, failure, a, None, p) :: c in p
  }

  // Removing `c` cuts the other ancestor `a` off from the failure.
  ghost predicate Dominates(edges: seq<Edge>, failure: string, c: string, a: string) {
    && IsAncestor(edges, failure, c) && IsAncestor(edges, failure, a) && a != c
    && EveryTraceThrough(edges, failure, a, c)
  }

  ghost function Dominated(edges: seq<Edge>, failure: string, c: string): (s: set<string>)
    ensures forall a :: a in s <==> Dominates(edges, failure, c, a)
  {
    set a | a in AncestorSet(edges, failure) && Dominates(edges, failure, c, a)
  }

  // ---- The counterfactual screen -------------------------------------------

  lemma AvoidingIffNotThrough(edges: seq<Edge>, failure: string, c: string, a: string)
    requires c != failure
    ensures Upstream(edges, failure, a, Some(c)) <==> !EveryTraceThrough(edges, failure, a, c)
    ensures Upstream(edges, failure, a, Some(c)) ==> Upstream(edges, failure, a, None)
    ensures a == c ==> !Upstream(edges, failure, a, Some(c))
  {
    if Upstream(edges, failure, a, Some(c)) {
      var p :| IsTrace(edges, failure, a, Some(c), p);
      assert p == [p[0]] + p[1..];
      assert IsTrace(edges, failure, a, None, p) && c !in p;
    }
    if p :| IsTrace(edges, failure, a, None, p) && c !in p {
      assert forall x :: x in p[1..] ==> x in p;
      assert IsTrace(edges, failure, a, Some(c), p);
    }
  }

  // Full cone = what survives without c, plus what c dominates, plus c; so the subtraction
  // never goes below zero and counts exactly the dominated ancestors.
  lemma ScoreCountsDominated(
      edges: seq<Edge>, failure: string, c: string, full: set<string>, without: set<string>)
    requires IsAncestor(edges, failure, c)
    requires forall v :: v in full <==> IsAncestor(edges, failure, v)
    requires forall v :: v in without <==> v != failure && Upstream(edges, failure, v, Some(c))
    ensures |full| - |without| - 1 == |Dominated(edges, failure, c)|
  {
    hide EveryTraceThrough, Upstream;
    var dominated := Dominated(edges, failure, c);
    forall v | v != failure
      ensures v in full <==> v in without || v in dominated || v == c
      ensures !(v in without && v in dominated)
      ensures v == c ==> v !in without
    {
      AvoidingIffNotThrough(edges, failure, c, v);
    }
    assert full == without + dominated + {c};
    assert without !! dominated;
    assert c !in without + dominated;
    assert |without + dominated| == |without| + |dominated|;
    assert |full| == |without + dominated| + 1;
  }

  // ---- Dominators outscore what they dominate ------------------------------

  lemma PrefixIsTrace(
      edges: seq<Edge>, failure: string, target: string, p: seq<string>, k: nat)
    requires IsTrace(edges, failure, target, None, p) && 1 <= k < |p|
    ensures IsTrace(edges, failure, p[k], None, p[..k + 1])
  {
    var q := p[..k + 1];
    forall i | 0 <= i < |q| - 1 ensures IsParent(edges, q[i], q[i + 1]) {
      assert IsParent(edges, p[i], p[i + 1]);
    }
  }

  // Two ancestors cannot each lie on every way to the other.
  lemma {:induction false} NoMutualDominance(
      edges: seq<Edge>, failure: string, c: string, d: string, p: seq<string>)
    requires Dominates(edges, failure, c, d) && Dominates(edges, failure, d, c)
    requires IsTrace(edges, failure, c, None, p)
    ensures false
    decreases |p|
  {
    var i :| 0 <= i < |p| && p[i] == d;
    PrefixIsTrace(edges, failure, c, p, i);
    var q := p[..i + 1];
    var j :| 0 <= j < |q| && q[j] == c;
    PrefixIsTrace(edges, failure, d, q, j);
    NoMutualDominance(edges, failure, c, d, q[..j + 1]);
  }

  // What a dominated ancestor dominates, its dominator dominates as well.
  lemma DominanceIsTransitive(
      edges: seq<Edge>, failure: string, c: string, d: string, a: string)
    requires Dominates(edges, failure, c, d) && Dominates(edges, failure, d, a)
    ensures Dominates(edges, failure, c, a)
  {
    forall p | IsTrace(edges, failure, a, None, p) ensures c in p {
      var i :| 0 <= i < |p| && p[i] == d;
      PrefixIsTrace(edges, failure, a, p, i);
      assert c in p[..i + 1];
    }
    if a == c {
      var p :| IsTrace(edges, failure, c, None, p);
      NoMutualDominance(edges, failure, c, d, p);
    }
  }

  // If every way to d passes through c, then c scores at least one more than d.
  lemma DominatorScoresHigher(edges: seq<Edge>, failure: string, c: string, d: string)
    requires Dominates(edges, failure, c, d)
    ensures |Dominated(edges, failure, c)| >= |Dominated(edges, failure, d)| + 1
  {
    var more, fewer := Dominated(edges, failure, c), Dominated(edges, failure, d);
    forall a | a in fewer ensures a in more {
      DominanceIsTransitive(edges, failure, c, d, a);
    }
    assert d in more && d !in fewer;
    SubsetIsSmaller(fewer + {d}, more);
  }

  // ---- Forward edges: the origin of a cone ---------------------------------

  function SeqOf(events: seq<TracedEvent>, id: string): int {
    var e := ById(events, id);
    if e.Some? then e.value.seq_ else 0
  }

  // Every edge of the graph starts at an event earlier than the one it ends at.
  ghost predicate Forward(events: seq<TracedEvent>, edges: seq<Edge>) {
    forall child, parent | IsParent(edges, child, parent) ::
      SeqOf(events, parent) < SeqOf(events, child)
  }

  lemma {:induction false} TracesGoBack(
      events: seq<TracedEvent>, edges: seq<Edge>, failure: string, p: seq<string>, k: nat)
    requires Forward(events, edges)
    requires |p| >= 2 && IsTrace(edges, failure, p[|p| - 1], None, p) && 1 <= k < |p|
    ensures SeqOf(events, p[k]) < SeqOf(events, failure)
  {
    assert IsParent(edges, p[k - 1], p[k - 1 + 1]);
    if k > 1 {
      TracesGoBack(events, edges, failure, p, k - 1);
    }
  }

  lemma AncestorsAreEarlier(
      events: seq<TracedEvent>, edges: seq<Edge>, failure: string, v: string)
    requires Forward(events, edges) && Upstream(edges, failure, v, None)
    ensures SeqOf(events, v) < SeqOf(events, failure)
  {
    var p :| IsTrace(edges, failure, v, None, p);
    TracesGoBack(events, edges, failure, p, |p| - 1);
  }

  // The parents of an ancestor are ancestors: on a forward graph none is the failure.
  lemma ParentsOfAncestors(
      events: seq<TracedEvent>, edges: seq<Edge>, failure: string, v: string, parent: string)
    requires Forward(events, edges) && IsAncestor(edges, failure, v) && IsParent(edges, v, parent)
    ensures IsAncestor(edges, failure, parent)
  {
    StepUpstream(edges, failure, v, parent, None);
    AncestorsAreEarlier(events, edges, failure, parent);
  }

  ghost predicate HasNoParent(edges: seq<Edge>, v: string) {
    forall parent :: !IsParent(edges, v, parent)
  }

  // The earliest ancestor has no incoming edge at all.
  lemma EarliestIsSource(
      events: seq<TracedEvent>, edges: seq<Edge>, failure: string, v: string)
    requires Forward(events, edges) && IsAncestor(edges, failure, v)
    requires forall w :: IsAncestor(edges, failure, w) ==> SeqOf(events, v) <= SeqOf(events, w)
    ensures HasNoParent(edges, v)
  {
    forall parent ensures !IsParent(edges, v, parent) {
      if IsParent(edges, v, parent) {
        ParentsOfAncestors(events, edges, failure, v, parent);
      }
    }
  }

  // ---- Ranking -------------------------------------------------------------

  // Sources first, then the higher score, then the earlier event.
  predicate Ahead(events: seq<TracedEvent>, l: Candidate, r: Candidate) {
    if l.isRoot != r.isRoot then l.isRoot
    else if l.score != r.score then l.score > r.score
    else SeqOf(events, l.id) < SeqOf(events, r.id)
  }

  ghost predicate Ranked(events: seq<TracedEvent>, cs: seq<Candidate>) {
    forall i, j | 0 <= i < j < |cs| :: !Ahead(events, cs[j], cs[i])
  }

  function InsertRanked(events: seq<TracedEvent>, c: Candidate, cs: seq<Candidate>)
    : (r: seq<Candidate>)
    ensures multiset(r) == multiset(cs) + multiset{c}
  {
    if cs == [] || !Ahead(events, cs[0], c) then [c] + cs
    else
      assert cs == [cs[0]] + cs[1..];
      [cs[0]] + InsertRanked(events, c, cs[1..])
  }

  function Rank(events: seq<TracedEvent>, cs: seq<Candidate>): (r: seq<Candidate>)
    ensures multiset(r) == multiset(cs)
  {
    if cs == [] then []
    else
      assert cs == [cs[0]] + cs[1..];
      InsertRanked(events, cs[0], Rank(events, cs[1..]))
  }

  lemma {:induction false} InsertKeepsRanked(
      events: seq<TracedEvent>, c: Candidate, cs: seq<Candidate>)
    requires Ranked(events, cs)
    ensures Ranked(events, InsertRanked(events, c, cs))
  {
    if cs != [] && Ahead(events, cs[0], c) {
      InsertKeepsRanked(events, c, cs[1..]);
      var rest := InsertRanked(events, c, cs[1..]);
      forall j | 0 <= j < |rest| ensures !Ahead(events, rest[j], cs[0]) {
        assert rest[j] in multiset(rest);
        assert rest[j] == c || rest[j] in cs[1..];
      }
    }
  }

  lemma {:induction false} RankIsRanked(events: seq<TracedEvent>, cs: seq<Candidate>)
    ensures Ranked(events, Rank(events, cs))
  {
    if cs != [] {
      RankIsRanked(events, cs[1..]);
      InsertKeepsRanked(events, cs[0], Rank(events, cs[1..]));
    }
  }

  // Sorting ids by the seq of the event they name.
  function InsertBySeqOf(events: seq<TracedEvent>, id: string, ids: seq<string>)
    : (r: seq<string>)
    ensures multiset(r) == multiset(ids) + multiset{id}
  {
    if ids == [] || SeqOf(events, id) <= SeqOf(events, ids[0]) then [id] + ids
    else
      assert ids == [ids[0]] + ids[1..];
      [ids[0]] + InsertBySeqOf(events, id, ids[1..])
  }

  function SortIds(events: seq<TracedEvent>, ids: seq<string>): (r: seq<string>)
    ensures multiset(r) == multiset(ids)
  {
    if ids == [] then []
    else
      assert ids == [ids[0]] + ids[1..];
      InsertBySeqOf(events, ids[0], SortIds(events, ids[1..]))
  }

  ghost predicate IdsOrdered(events: seq<TracedEvent>, ids: seq<string>) {
    forall i, j | 0 <= i < j < |ids| :: SeqOf(events, ids[i]) <= SeqOf(events, ids[j])
  }

  lemma {:induction false} InsertKeepsIdsOrdered(
      events: seq<TracedEvent>, id: string, ids: seq<string>)
    requires IdsOrdered(events, ids)
    ensures IdsOrdered(events, InsertBySeqOf(events, id, ids))
  {
    if ids != [] && SeqOf(events, id) > SeqOf(events, ids[0]) {
      InsertKeepsIdsOrdered(events, id, ids[1..]);
      var rest := InsertBySeqOf(events, id, ids[1..]);
      forall j | 0 <= j < |rest| ensures SeqOf(events, ids[0]) <= SeqOf(events, rest[j]) {
        assert rest[j] in multiset(rest);
        assert rest[j] == id || rest[j] in ids[1..];
      }
    }
  }

  lemma {:induction false} SortIdsOrdered(events: seq<TracedEvent>, ids: seq<string>)
    ensures IdsOrdered(events, SortIds(events, ids))
  {
    if ids != [] {
      SortIdsOrdered(events, ids[1..]);
      InsertKeepsIdsOrdered(events, ids[0], SortIds(events, ids[1..]));
    }
  }

  // ---- The diagnosis -------------------------------------------------------

  ghost function CandidateFor(
      events: seq<TracedEvent>, edges: seq<Edge>, failure: string, id: string)
    : (c: Candidate)
    ensures c.id == id
  {
    var e := ById(events, id);
    Candidate(
      id,
      if e.Some? then e.value.kind else "unknown",
      if e.Some? then e.value.actor else None,
      |Dominated(edges, failure, id)|,
      HasNoParent(edges, id))
  }

  // All ancestors, or with more than the budget the earliest `budget` of them.
  ghost predicate Screened(
      events: seq<TracedEvent>, ancestors: set<string>, budget: nat, chosen: set<string>)
  {
    && chosen <= ancestors
    && (|ancestors| <= budget ==> chosen == ancestors)
    && (|ancestors| > budget ==>
         && |chosen| == budget
         && forall x, y | x in chosen && y in ancestors - chosen ::
              SeqOf(events, x) < SeqOf(events, y))
  }

  ghost function Ids(cs: seq<Candidate>): set<string> {
    set c | c in cs :: c.id
  }

  ghost predicate IsDiagnosis(
      events: seq<TracedEvent>, edges: seq<Edge>, failure: string, budget: nat, r: Report)
  {
    && r.failure == failure
    && (r.truncated <==> |AncestorSet(edges, failure)| > budget)
    && Screened(events, AncestorSet(edges, failure), budget, Ids(r.candidates))
    && (forall c :: c in r.candidates ==> c == CandidateFor(events, edges, failure, c.id))
    && StrictlyRanked(events, r.candidates)
  }

  ghost predicate StrictlyRanked(events: seq<TracedEvent>, cs: seq<Candidate>) {
    forall i, j | 0 <= i < j < |cs| :: Ahead(events, cs[i], cs[j])
  }

  method ListSet(s: set<string>) returns (ids: seq<string>)
    ensures multiset(ids) == multiset(s)
  {
    ids := [];
    var rest := s;
    while rest != {}
      invariant rest <= s
      invariant multiset(ids) == multiset(s - rest)
      decreases |rest|
    {
      var id :| id in rest;
      assert s - (rest - {id}) == (s - rest) + {id};
      rest := rest - {id};
      ids := ids + [id];
    }
    assert s - rest == s;
  }

  // The ids to screen, in no particular order unless the cone exceeds the budget.
  method Screen(events: seq<TracedEvent>, ancestorSet: set<string>, budget: nat)
    returns (screened: seq<string>)
    requires forall x, y :: x in ancestorSet && y in ancestorSet && x != y ==>
               SeqOf(events, x) != SeqOf(events, y)
    ensures NoDuplicates(screened)
    ensures Screened(events, ancestorSet, budget, set id | id in screened)
  {
    var listed := ListSet(ancestorSet);
    if |ancestorSet| > budget {
      var sorted := SortIds(events, listed);
      SortIdsOrdered(events, listed);
      ListingHasNoDuplicates(sorted, ancestorSet);
      screened := sorted[..budget];
      DeepestAreScreened(events, sorted, ancestorSet, budget);
    } else {
      ListingHasNoDuplicates(listed, ancestorSet);
      screened := listed;
    }
  }

  lemma ListingHasNoDuplicates(ids: seq<string>, s: set<string>)
    requires multiset(ids) == multiset(s)
    ensures NoDuplicates(ids) && (forall id :: id in ids <==> id in s)
    ensures |ids| == |s|
  {
    assert |multiset(ids)| == |ids| && |multiset(s)| == |s|;
    forall id ensures id in ids <==> id in s {
      assert id in ids <==> id in multiset(ids);
    }
    forall i, j | 0 <= i < j < |ids| ensures ids[i] != ids[j] {
      assert ids == ids[..j] + [ids[j]] + ids[j + 1..];
      assert multiset(ids)[ids[j]] <= 1;
      assert ids[j] !in ids[..j];
      assert ids[..j][i] == ids[i];
    }
  }

  lemma DeepestAreScreened(
      events: seq<TracedEvent>, sorted: seq<string>, ancestorSet: set<string>, budget: nat)
    requires budget < |sorted| && NoDuplicates(sorted) && IdsOrdered(events, sorted)
    requires |sorted| == |ancestorSet| && forall id :: id in sorted <==> id in ancestorSet
    requires forall x, y :: x in ancestorSet && y in ancestorSet && x != y ==>
               SeqOf(events, x) != SeqOf(events, y)
    ensures Screened(events, ancestorSet, budget, set id | id in sorted[..budget])
    ensures NoDuplicates(sorted[..budget])
  {
    var chosen := set id | id in sorted[..budget];
    DistinctListSize(sorted[..budget]);
    forall x, y | x in chosen && y in ancestorSet - chosen
      ensures SeqOf(events, x) < SeqOf(events, y)
    {
      var i :| 0 <= i < budget && sorted[i] == x;
      var j :| 0 <= j < |sorted| && sorted[j] == y;
      assert forall k :: 0 <= k < budget ==> sorted[..budget][k] in chosen;
    }
  }

  // ---- Facts about the graph of a log --------------------------------------

  lemma {:induction false} InsertKeepsDistinct(e: TracedEvent, o: seq<TracedEvent>)
    requires DistinctRows(o) && forall x :: x in o ==> x.id != e.id && x.seq_ != e.seq_
    ensures DistinctRows(InsertBySeq(e, o))
  {
    if o != [] && e.seq_ > o[0].seq_ {
      InsertKeepsDistinct(e, o[1..]);
      var rest := InsertBySeq(e, o[1..]);
      forall j | 0 <= j < |rest| ensures o[0].id != rest[j].id && o[0].seq_ != rest[j].seq_ {
        assert rest[j] in multiset(rest);
        assert rest[j] == e || rest[j] in o[1..];
      }
      PrependKeepsDistinct(o[0], rest);
    }
  }

  lemma PrependKeepsDistinct(e: TracedEvent, o: seq<TracedEvent>)
    requires DistinctRows(o)
    requires forall j :: 0 <= j < |o| ==> e.id != o[j].id && e.seq_ != o[j].seq_
    ensures DistinctRows([e] + o)
  {
  }

  lemma SortKeepsDistinct(events: seq<TracedEvent>)
    requires DistinctRows(events)
    ensures StrictlyOrdered(SortBySeq(events))
  {
    SortOrdered(events);
    if events != [] {
      SortKeepsDistinct(events[1..]);
      var o := SortBySeq(events[1..]);
      forall x | x in o ensures x.id != events[0].id && x.seq_ != events[0].seq_ {
        assert x in multiset(o);
        assert x in events[1..];
      }
      InsertKeepsDistinct(events[0], o);
    }
  }

  lemma SameRows(events: seq<TracedEvent>, e: TracedEvent)
    ensures e in SortBySeq(events) <==> e in events
  {
    assert e in SortBySeq(events) <==> e in multiset(SortBySeq(events));
    assert e in events <==> e in multiset(events);
  }

  // The graph of a log with unique ids and seqs points forward, so it has no cycle.
  lemma GraphIsForward(events: seq<TracedEvent>, edges: seq<Edge>)
    requires DistinctRows(events)
    requires forall e :: e in edges <==> IsCausalEdge(SortBySeq(events), e)
    ensures Forward(events, edges)
    ensures forall child, parent :: IsParent(edges, child, parent) ==> ById(events, parent).Some?
  {
    var o := SortBySeq(events);
    SortKeepsDistinct(events);
    forall child, parent | IsParent(edges, child, parent)
      ensures SeqOf(events, parent) < SeqOf(events, child) && ById(events, parent).Some?
    {
      var e :| e in edges && e.to == child && e.from == parent;
      EdgesPointForward(o, e);
      var from, to := ById(o, parent).value, ById(o, child).value;
      SameRows(events, from);
      SameRows(events, to);
      ByIdIsUnique(events, from);
      ByIdIsUnique(events, to);
    }
  }

  lemma AncestorsHaveDistinctSeqs(
      events: seq<TracedEvent>, edges: seq<Edge>, failure: string, x: string, y: string)
    requires DistinctRows(events)
    requires forall child, parent :: IsParent(edges, child, parent) ==> ById(events, parent).Some?
    requires IsAncestor(edges, failure, x) && IsAncestor(edges, failure, y) && x != y
    ensures SeqOf(events, x) != SeqOf(events, y)
  {
    AncestorIsAnEvent(events, edges, failure, x);
    AncestorIsAnEvent(events, edges, failure, y);
    var i :| 0 <= i < |events| && events[i] == ById(events, x).value;
    var j :| 0 <= j < |events| && events[j] == ById(events, y).value;
  }

  lemma AncestorIsAnEvent(
      events: seq<TracedEvent>, edges: seq<Edge>, failure: string, x: string)
    requires forall child, parent :: IsParent(edges, child, parent) ==> ById(events, parent).Some?
    requires IsAncestor(edges, failure, x)
    ensures ById(events, x).Some?
  {
    var p :| IsTrace(edges, failure, x, None, p);
    var k := |p| - 2;
    assert IsParent(edges, p[k], p[k + 1]);
  }

  // ---- diagnose ------------------------------------------------------------

  method ScreenOne(
      events: seq<TracedEvent>, edges: seq<Edge>, incoming: map<string, seq<string>>,
      failure: string, ancestorSet: set<string>, id: string)
    returns (c: Candidate)
    requires Indexes(edges, incoming) && Forward(events, edges)
    requires forall v :: v in ancestorSet <==> IsAncestor(edges, failure, v)
    requires id in ancestorSet
    ensures c == CandidateFor(events, edges, failure, id)
  {
    var event := ById(events, id);
    var without := Trace(edges, incoming, failure, Some(id));
    ScoreCountsDominated(edges, failure, id, ancestorSet, without);
    var difference := |ancestorSet| - |without| - 1;
    var counterfactual := if difference > 0 then difference else 0;
    var parents := Get(incoming, id);
    var isRoot := !exists k :: 0 <= k < |parents| && parents[k] in ancestorSet;
    assert isRoot <==> HasNoParent(edges, id) by {
      forall parent | parent in parents ensures parent in ancestorSet {
        ParentsOfAncestors(events, edges, failure, id, parent);
      }
      if isRoot {
        forall parent ensures !IsParent(edges, id, parent) {
          assert parent in Get(incoming, id) <==> IsParent(edges, id, parent);
        }
      } else {
        var k :| 0 <= k < |parents| && parents[k] in ancestorSet;
        assert parents[k] in Get(incoming, id);
        assert IsParent(edges, id, parents[k]);
      }
    }
    c := Candidate(
      id,
      if event.Some? then event.value.kind else "unknown",
      if event.Some? then event.value.actor else None,
      counterfactual,
      isRoot);
  }

  method ScreenEach(
      events: seq<TracedEvent>, edges: seq<Edge>, incoming: map<string, seq<string>>,
      failure: string, ancestorSet: set<string>, screened: seq<string>)
    returns (candidates: seq<Candidate>)
    requires Indexes(edges, incoming) && Forward(events, edges)
    requires forall v :: v in ancestorSet <==> IsAncestor(edges, failure, v)
    requires forall id :: id in screened ==> id in ancestorSet
    ensures |candidates| == |screened|
    ensures forall k :: 0 <= k < |screened| ==>
      candidates[k] == CandidateFor(events, edges, failure, screened[k])
  {
    hide CandidateFor, Indexes, Forward, IsAncestor;
    candidates := [];
    for i := 0 to |screened|
      invariant |candidates| == i
      invariant forall k :: 0 <= k < i ==>
        candidates[k] == CandidateFor(events, edges, failure, screened[k])
    {
      var c := ScreenOne(events, edges, incoming, failure, ancestorSet, screened[i]);
      candidates := candidates + [c];
    }
  }

  lemma ScreenedAreAncestors(
      events: seq<TracedEvent>, ancestors: set<string>, budget: nat, ids: seq<string>)
    requires Screened(events, ancestors, budget, set id | id in ids)
    ensures forall id :: id in ids ==> id in ancestors
  {
    var chosen := set id | id in ids;
    assert forall id :: id in ids ==> id in chosen;
  }

  method Diagnose(events: seq<TracedEvent>, failureId: string, maxAncestors: nat)
    returns (r: Result<Report, DiagnosisError>, ghost graph: Graph)
    requires DistinctRows(events)
    ensures r.Err? <==> ById(events, failureId).None?
    ensures r.Ok? ==>
      && (forall e :: e in graph.edges <==> IsCausalEdge(SortBySeq(events), e))
      && IsDiagnosis(events, graph.edges, failureId, maxAncestors, r.value)
      && (maxAncestors >= 1 && AncestorSet(graph.edges, failureId) != {} ==>
           r.value.candidates != [] && HasNoParent(graph.edges, r.value.candidates[0].id))
  {
    hide IsCausalEdge, SortBySeq, Forward, Indexes, Screened, CandidateFor, Rank;
    hide SeqOf, StrictlyRanked, Upstream, DistinctRows, IsParent, NoDuplicates, ById;
    graph := Graph([], []);
    if ById(events, failureId).None? {
      return Err(FailureNotFound), graph;
    }
    var built := BuildCausalGraph(events);
    graph := built;
    GraphIsForward(events, built.edges);
    var incoming := BuildIncoming(built);
    var ancestorSet := Ancestors(built, failureId);
    assert ancestorSet == AncestorSet(built.edges, failureId);
    forall x, y | x in ancestorSet && y in ancestorSet && x != y
      ensures SeqOf(events, x) != SeqOf(events, y)
    {
      AncestorsHaveDistinctSeqs(events, built.edges, failureId, x, y);
    }
    var screened := Screen(events, ancestorSet, maxAncestors);
    ScreenedAreAncestors(events, ancestorSet, maxAncestors, screened);
    var candidates :=
      ScreenEach(events, built.edges, incoming, failureId, ancestorSet, screened);
    var ranked := Rank(events, candidates);
    RankedCandidates(events, built.edges, failureId, ancestorSet, screened, candidates);
    var report := Report(failureId, ranked, |ancestorSet| > maxAncestors);
    if maxAncestors >= 1 && AncestorSet(built.edges, failureId) != {} {
      FirstCandidateIsSource(events, built.edges, failureId, maxAncestors, report);
    }
    r := Ok(report);
  }

  lemma RankedCandidates(
      events: seq<TracedEvent>, edges: seq<Edge>, failure: string, ancestorSet: set<string>,
      screened: seq<string>, candidates: seq<Candidate>)
    requires NoDuplicates(screened) && (forall id :: id in screened ==> id in ancestorSet)
    requires |candidates| == |screened|
    requires forall k :: 0 <= k < |screened| ==>
      candidates[k] == CandidateFor(events, edges, failure, screened[k])
    requires forall x, y :: x in ancestorSet && y in ancestorSet && x != y ==>
               SeqOf(events, x) != SeqOf(events, y)
    ensures var ranked := Rank(events, candidates);
            && Ids(ranked) == (set id | id in screened)
            && (forall c :: c in ranked ==> c == CandidateFor(events, edges, failure, c.id))
            && StrictlyRanked(events, ranked)
  {
    hide CandidateFor, Ahead, SeqOf, Rank;
    var ranked := Rank(events, candidates);
    SameCandidates(events, candidates);
    assert Ids(ranked) == (set id | id in screened) by {
      forall id | id in screened ensures id in Ids(ranked) {
        var k :| 0 <= k < |screened| && screened[k] == id;
        assert candidates[k] in ranked;
      }
    }
    RankIsRanked(events, candidates);
    forall i, j | 0 <= i < j < |ranked| ensures Ahead(events, ranked[i], ranked[j]) {
      assert ranked[i] in ranked && ranked[j] in ranked;
      var k :| 0 <= k < |candidates| && candidates[k] == ranked[j];
      OccursOnce(events, edges, failure, screened, candidates, k);
      OccursAtOnePlace(ranked, i, j);
      assert ranked[i] in candidates;
      AheadIsTotal(events, ranked[i], ranked[j]);
    }
  }

  lemma SameCandidates(events: seq<TracedEvent>, cs: seq<Candidate>)
    ensures forall c :: c in Rank(events, cs) <==> c in cs
  {
    forall c ensures c in Rank(events, cs) <==> c in cs {
      assert c in Rank(events, cs) <==> c in multiset(Rank(events, cs));
      assert c in cs <==> c in multiset(cs);
    }
  }

  lemma OccursAtOnePlace<T>(s: seq<T>, i: nat, j: nat)
    requires i < j < |s| && multiset(s)[s[j]] == 1
    ensures s[i] != s[j]
  {
    assert s == s[..j] + [s[j]] + s[j + 1..];
    assert s[j] !in s[..j];
    assert s[..j][i] == s[i];
  }

  lemma AheadIsTotal(events: seq<TracedEvent>, l: Candidate, r: Candidate)
    requires SeqOf(events, l.id) != SeqOf(events, r.id)
    ensures Ahead(events, l, r) || Ahead(events, r, l)
  {
  }

  lemma OccursOnce(
      events: seq<TracedEvent>, edges: seq<Edge>, failure: string,
      screened: seq<string>, candidates: seq<Candidate>, k: nat)
    requires NoDuplicates(screened) && |candidates| == |screened| && k < |screened|
    requires forall k :: 0 <= k < |screened| ==>
      candidates[k] == CandidateFor(events, edges, failure, screened[k])
    ensures multiset(candidates)[candidates[k]] == 1
  {
    hide CandidateFor;
    var c := candidates[k];
    assert candidates == candidates[..k] + [c] + candidates[k + 1..];
    assert c !in candidates[..k] && c !in candidates[k + 1..];
  }

  // ---- What a diagnosis tells ----------------------------------------------

  // With any ancestor and a budget of at least one, the suggested root cause has no
  // incoming edge at all, whether or not the cone was truncated.
  lemma FirstCandidateIsSource(
      events: seq<TracedEvent>, edges: seq<Edge>, failure: string, budget: nat, r: Report)
    requires Forward(events, edges) && IsDiagnosis(events, edges, failure, budget, r)
    requires budget >= 1 && AncestorSet(edges, failure) != {}
    ensures r.candidates != [] && HasNoParent(edges, r.candidates[0].id)
  {
    var ancestors := AncestorSet(edges, failure);
    var v := Earliest(events, ancestors);
    EarliestIsSource(events, edges, failure, v);
    assert Ids(r.candidates) != {};
    var x :| x in Ids(r.candidates);
    assert v !in ancestors - Ids(r.candidates);
    var k :| 0 <= k < |r.candidates| && r.candidates[k].id == v;
    assert r.candidates[k].isRoot;
    assert r.candidates[0] in r.candidates;
  }

  lemma Earliest(events: seq<TracedEvent>, s: set<string>) returns (v: string)
    requires s != {}
    ensures v in s && forall w :: w in s ==> SeqOf(events, v) <= SeqOf(events, w)
  {
    v :| v in s;
    var rest := s - {v};
    assert s == rest + {v};
    if rest != {} {
      var w := Earliest(events, rest);
      if SeqOf(events, w) < SeqOf(events, v) { v := w; }
    }
  }

  lemma ScreenedIsUnique(
      events: seq<TracedEvent>, ancestors: set<string>, budget: nat, a: set<string>, b: set<string>)
    requires Screened(events, ancestors, budget, a) && Screened(events, ancestors, budget, b)
    ensures a == b
  {
    if |ancestors| > budget && a != b {
      DifferWhenEquallyMany(a, b);
      var x, y :| x in a - b && y in b - a;
      ScreenedAreEarlier(events, ancestors, budget, a, x, y);
      ScreenedAreEarlier(events, ancestors, budget, b, y, x);
    }
  }

  lemma ScreenedAreEarlier(
      events: seq<TracedEvent>, ancestors: set<string>, budget: nat, chosen: set<string>,
      x: string, y: string)
    requires Screened(events, ancestors, budget, chosen) && |ancestors| > budget
    requires x in chosen && y in ancestors && y !in chosen
    ensures SeqOf(events, x) < SeqOf(events, y)
  {
    assert y in ancestors - chosen;
  }

  lemma DifferWhenEquallyMany(a: set<string>, b: set<string>)
    requires |a| == |b| && a != b
    ensures exists x, y :: x in a - b && y in b - a
  {
    assert a == a * b + (a - b);
    assert b == a * b + (b - a);
    assert |a - b| == |b - a|;
    assert |a - b| + |b - a| > 0;
    var x :| x in a - b;
    var y :| y in b - a;
  }

  lemma {:induction false} StrictRankingIsUnique(
      events: seq<TracedEvent>, a: seq<Candidate>, b: seq<Candidate>)
    requires StrictlyRanked(events, a) && StrictlyRanked(events, b)
    requires forall c :: c in a <==> c in b
    ensures a == b
  {
    assert b == [] || b[0] in a;
    if a != [] {
      assert a[0] in b && b != [] && b[0] in a;
      var i :| 0 <= i < |a| && a[i] == b[0];
      var j :| 0 <= j < |b| && b[j] == a[0];
      assert a[0] == b[0];
      forall c ensures c in a[1..] <==> c in b[1..] {
        assert c in a <==> c == a[0] || c in a[1..];
        assert c in b <==> c == b[0] || c in b[1..];
        assert a[0] !in a[1..] && b[0] !in b[1..];
      }
      StrictRankingIsUnique(events, a[1..], b[1..]);
    }
  }

  // The log, the failure and the budget leave one diagnosis only: nothing depends on the
  // order in which sets of ancestors are listed.
  lemma DiagnosisIsUnique(
      events: seq<TracedEvent>, edges: seq<Edge>, failure: string, budget: nat,
      r: Report, s: Report)
    requires IsDiagnosis(events, edges, failure, budget, r)
    requires IsDiagnosis(events, edges, failure, budget, s)
    ensures r == s
  {
    ScreenedIsUnique(events, AncestorSet(edges, failure), budget, Ids(r.candidates), Ids(s.candidates));
    forall c ensures c in r.candidates <==> c in s.candidates {
      if c in r.candidates {
        assert c.id in Ids(s.candidates);
      }
      if c in s.candidates {
        assert c.id in Ids(r.candidates);
      }
    }
    StrictRankingIsUnique(events, r.candidates, s.candidates);
  }
}
