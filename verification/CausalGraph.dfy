// The causal graph of an event log: the one-pass construction of its three kinds of edges
// and backward reachability over them with an explicit stack.

module CausalGraph {
  import opened Collections
  import opened Prelude

  // An event with its causal instrumentation.
  datatype TracedEvent = TracedEvent(
    id: string,
    seq_: int,
    kind: string,
    actor: Option<string>,
    parent: Option<string>,
    consumed: seq<string>,
    produced: seq<string>)

  datatype EdgeKind = Sequential | Communication | DataDependency

  datatype Edge = Edge(kind: EdgeKind, from: string, to: string, via: string)

  datatype Graph = Graph(nodes: seq<string>, edges: seq<Edge>)

  // ---- Ordering the log ----------------------------------------------------

  ghost predicate Ordered(o: seq<TracedEvent>) {
    forall i, j | 0 <= i < j < |o| :: o[i].seq_ <= o[j].seq_
  }

  function InsertBySeq(e: TracedEvent, o: seq<TracedEvent>): (r: seq<TracedEvent>)
    ensures multiset(r) == multiset(o) + multiset{e}
  {
    if o == [] then [e]
    else if e.seq_ <= o[0].seq_ then [e] + o
    else
      assert o == [o[0]] + o[1..];
      [o[0]] + InsertBySeq(e, o[1..])
  }

  // A stable sort by sequence number.
  function SortBySeq(events: seq<TracedEvent>): (o: seq<TracedEvent>)
    ensures multiset(o) == multiset(events)
  {
    if events == [] then []
    else
      assert events == [events[0]] + events[1..];
      InsertBySeq(events[0], SortBySeq(events[1..]))
  }

  lemma {:induction false} InsertOrdered(e: TracedEvent, o: seq<TracedEvent>)
    requires Ordered(o)
    ensures Ordered(InsertBySeq(e, o))
  {
    if o != [] && e.seq_ > o[0].seq_ {
      InsertOrdered(e, o[1..]);
      var rest := InsertBySeq(e, o[1..]);
      forall j | 0 <= j < |rest| ensures o[0].seq_ <= rest[j].seq_ {
        assert rest[j] in multiset(rest);
        assert rest[j] == e || rest[j] in o[1..];
      }
    }
  }

  lemma {:induction false} SortOrdered(events: seq<TracedEvent>)
    ensures Ordered(SortBySeq(events))
  {
    if events != [] {
      SortOrdered(events[1..]);
      InsertOrdered(events[0], SortBySeq(events[1..]));
    }
  }

  // ---- The edges, declaratively --------------------------------------------

  // Events i < j are consecutive actions of one actor.
  predicate Consecutive(o: seq<TracedEvent>, i: int, j: int) {
    && 0 <= i < j < |o|
    && o[i].actor.Some? && o[i].actor.value != "" && o[j].actor == o[i].actor
    && (forall k :: i < k < j ==> o[k].actor != o[i].actor)
    && o[i].id != ""
  }

  ghost predicate IsSequentialEdge(o: seq<TracedEvent>, n: int, e: Edge) {
    exists i, j :: j < n && Consecutive(o, i, j)
      && e == Edge(Sequential, o[i].id, o[j].id, o[i].actor.value)
  }

  // The event an id names: the last one carrying it.
  function ById(o: seq<TracedEvent>, id: string): (r: Option<TracedEvent>)
    ensures r.Some? ==> r.value in o && r.value.id == id
    ensures r.None? <==> forall e :: e in o ==> e.id != id
  {
    if o == [] then None
    else if o[|o| - 1].id == id then Some(o[|o| - 1])
    else ById(o[..|o| - 1], id)
  }

  // Event j names an earlier event of a different actor as its cause.
  predicate NamesEarlierParent(o: seq<TracedEvent>, j: int) {
    && 0 <= j < |o|
    && o[j].parent.Some? && o[j].parent.value != ""
    && var p := ById(o, o[j].parent.value);
       && p.Some? && p.value.seq_ < o[j].seq_
       && p.value.actor.Some? && o[j].actor.Some? && p.value.actor != o[j].actor
  }

  ghost predicate IsCommunicationEdge(o: seq<TracedEvent>, n: int, e: Edge) {
    exists j :: j < n && NamesEarlierParent(o, j)
      && e == Edge(Communication, o[j].parent.value, o[j].id, o[j].parent.value)
  }

  // Event j reads a ref that the earlier event i wrote.
  predicate ReadsFrom(o: seq<TracedEvent>, i: int, j: int, ref: string) {
    && 0 <= i < j < |o|
    && ref in o[i].produced && ref in o[j].consumed
    && o[i].id != o[j].id
  }

  ghost predicate IsDataEdge(o: seq<TracedEvent>, n: int, e: Edge) {
    exists i, j, ref :: j < n && ReadsFrom(o, i, j, ref)
      && e == Edge(DataDependency, o[i].id, o[j].id, ref)
  }

  ghost predicate IsCausalEdge(o: seq<TracedEvent>, e: Edge) {
    IsSequentialEdge(o, |o|, e) || IsCommunicationEdge(o, |o|, e) || IsDataEdge(o, |o|, e)
  }

  // ---- The one-pass construction -------------------------------------------

  // The last of the first n events by the actor.
  function LastBy(o: seq<TracedEvent>, n: nat, actor: string): (r: Option<nat>)
    requires n <= |o|
    ensures r.Some? ==> r.value < n
  {
    if n == 0 then None
    else if o[n - 1].actor == Some(actor) then Some(n - 1)
    else LastBy(o, n - 1, actor)
  }

  lemma LastByIsLast(o: seq<TracedEvent>, n: nat, actor: string)
    requires n <= |o|
    ensures var r := LastBy(o, n, actor);
            && (r.Some? ==>
                 && o[r.value].actor == Some(actor)
                 && (forall k :: r.value < k < n ==> o[k].actor != Some(actor)))
            && (r.None? ==> forall k :: 0 <= k < n ==> o[k].actor != Some(actor))
  {
  }

  // Keeps `edges` free of duplicates and `seen` the set of what it holds.
  class EdgeList {
    var edges: seq<Edge>
    var seen: set<Edge>

    ghost predicate Valid()
      reads this
    {
      && NoDuplicates(edges)
      && (forall e :: e in edges <==> e in seen)
    }

    constructor ()
      ensures Valid() && seen == {}
    {
      edges, seen := [], {};
    }

    method AddEdge(e: Edge)
      requires Valid()
      modifies this
      ensures Valid() && seen == old(seen) + {e}
      ensures edges == if e in old(edges) then old(edges) else old(edges) + [e]
    {
      if e in seen {
        return;
      }
      seen := seen + {e};
      edges := edges + [e];
    }
  }

  ghost predicate LastKnown(o: seq<TracedEvent>, n: nat, lastByActor: map<string, string>)
    requires n <= |o|
  {
    forall a :: KnownFor(o, n, lastByActor, a)
  }

  ghost predicate KnownFor(
      o: seq<TracedEvent>, n: nat, lastByActor: map<string, string>, a: string)
    requires n <= |o|
  {
    var last := LastBy(o, n, a);
    && (a in lastByActor <==> a != "" && last.Some?)
    && (a in lastByActor ==> lastByActor[a] == o[last.value].id)
  }

  lemma LastKnownStep(o: seq<TracedEvent>, j: nat, known: map<string, string>)
    requires j < |o| && LastKnown(o, j, known)
    ensures LastKnown(o, j + 1,
              if o[j].actor.Some? && o[j].actor.value != "" then known[o[j].actor.value := o[j].id]
              else known)
  {
    var n := j + 1;
    var after :=
      if o[j].actor.Some? && o[j].actor.value != "" then known[o[j].actor.value := o[j].id]
      else known;
    forall a: string ensures KnownFor(o, n, after, a) {
      assert KnownFor(o, j, known, a);
    }
  }

  method AddSequentialEdges(o: seq<TracedEvent>, list: EdgeList)
    requires list.Valid() && list.seen == {}
    modifies list
    ensures list.Valid()
    ensures forall e :: e in list.seen <==> IsSequentialEdge(o, |o|, e)
  {
    var lastByActor: map<string, string> := map[];
    assert LastKnown(o, 0, lastByActor);
    for j := 0 to |o|
      invariant list.Valid()
      invariant LastKnown(o, j, lastByActor)
      invariant forall e :: e in list.seen <==> IsSequentialEdge(o, j, e)
    {
      var event := o[j];
      LastKnownStep(o, j, lastByActor);
      if event.actor.Some? && event.actor.value != "" {
        var a := event.actor.value;
        assert KnownFor(o, j, lastByActor, a);
        if a in lastByActor && lastByActor[a] != "" {
          list.AddEdge(Edge(Sequential, lastByActor[a], event.id, a));
        }
        lastByActor := lastByActor[a := event.id];
      }
      forall e ensures e in list.seen <==> IsSequentialEdge(o, j + 1, e) {
        SequentialStep(o, j, e);
      }
    }
  }

  // The edges into event j come from the last earlier event of its actor only.
  lemma SequentialStep(o: seq<TracedEvent>, j: nat, e: Edge)
    requires j < |o|
    ensures IsSequentialEdge(o, j + 1, e) <==>
              || IsSequentialEdge(o, j, e)
              || (&& o[j].actor.Some? && o[j].actor.value != ""
                  && var last := LastBy(o, j, o[j].actor.value);
                     && last.Some? && o[last.value].id != ""
                     && e == Edge(Sequential, o[last.value].id, o[j].id, o[j].actor.value))
  {
    if o[j].actor.Some? && o[j].actor.value != "" {
      var last := LastBy(o, j, o[j].actor.value);
      LastByIsLast(o, j, o[j].actor.value);
      if last.Some? && o[last.value].id != "" {
        assert Consecutive(o, last.value, j);
      }
      forall i | Consecutive(o, i, j) ensures last == Some(i) {
        assert o[i].actor == Some(o[j].actor.value);
      }
    }
  }

  method AddCommunicationEdges(o: seq<TracedEvent>, list: EdgeList)
    requires list.Valid()
    modifies list
    ensures list.Valid()
    ensures forall e :: e in list.seen <==> e in old(list.seen) || IsCommunicationEdge(o, |o|, e)
  {
    for j := 0 to |o|
      invariant list.Valid()
      invariant forall e :: e in list.seen <==> e in old(list.seen) || IsCommunicationEdge(o, j, e)
    {
      var event := o[j];
      if event.parent.Some? && event.parent.value != "" {
        var parent := ById(o, event.parent.value);
        if parent.Some? && parent.value.seq_ < event.seq_ {
          if event.actor.Some? && parent.value.actor.Some? && event.actor != parent.value.actor {
            assert NamesEarlierParent(o, j);
            list.AddEdge(Edge(Communication, event.parent.value, event.id, event.parent.value));
          }
        }
      }
      forall e ensures e in list.seen <==> e in old(list.seen) || IsCommunicationEdge(o, j + 1, e) {
        CommunicationStep(o, j, e);
      }
    }
  }

  lemma CommunicationStep(o: seq<TracedEvent>, j: nat, e: Edge)
    requires j < |o|
    ensures IsCommunicationEdge(o, j + 1, e) <==>
              || IsCommunicationEdge(o, j, e)
              || (NamesEarlierParent(o, j)
                  && e == Edge(Communication, o[j].parent.value, o[j].id, o[j].parent.value))
  {
    if IsCommunicationEdge(o, j + 1, e) {
      var k :| k < j + 1 && NamesEarlierParent(o, k)
        && e == Edge(Communication, o[k].parent.value, o[k].id, o[k].parent.value);
    }
  }

  // Some event among the first n, with the given id, wrote the ref.
  ghost predicate Produced(o: seq<TracedEvent>, n: nat, ref: string, id: string)
    requires n <= |o|
  {
    exists i :: 0 <= i < n && ref in o[i].produced && o[i].id == id
  }

  function Get(m: map<string, seq<string>>, key: string): seq<string> {
    if key in m then m[key] else []
  }

  ghost predicate ProducersKnown(
      o: seq<TracedEvent>, n: nat, producersByRef: map<string, seq<string>>)
    requires n <= |o|
  {
    forall ref, id :: id in Get(producersByRef, ref) <==> Produced(o, n, ref, id)
  }

  method AddDataEdges(o: seq<TracedEvent>, list: EdgeList)
    requires list.Valid()
    modifies list
    ensures list.Valid()
    ensures forall e :: e in list.seen <==> e in old(list.seen) || IsDataEdge(o, |o|, e)
  {
    var producersByRef: map<string, seq<string>> := map[];
    for j := 0 to |o|
      invariant list.Valid()
      invariant ProducersKnown(o, j, producersByRef)
      invariant forall e :: e in list.seen <==> e in old(list.seen) || IsDataEdge(o, j, e)
    {
      ghost var before := list.seen;
      AddEdgesInto(o[j], producersByRef, list);
      forall e ensures e in list.seen <==> e in old(list.seen) || IsDataEdge(o, j + 1, e) {
        DataStep(o, j, producersByRef, e);
      }
      producersByRef := RegisterProduces(o, j, producersByRef);
    }
  }

  // An edge into `event` for every consumed ref and every known producer of it.
  ghost predicate IsEdgeInto(event: TracedEvent, producersByRef: map<string, seq<string>>, e: Edge) {
    && e.kind == DataDependency && e.to == event.id && e.from != event.id
    && e.via in event.consumed && e.from in Get(producersByRef, e.via)
  }

  method AddEdgesInto(
      event: TracedEvent, producersByRef: map<string, seq<string>>, list: EdgeList)
    requires list.Valid()
    modifies list
    ensures list.Valid()
    ensures forall e :: e in list.seen <==>
              e in old(list.seen) || IsEdgeInto(event, producersByRef, e)
  {
    for r := 0 to |event.consumed|
      invariant list.Valid()
      invariant forall e :: e in list.seen <==>
        || e in old(list.seen)
        || (e.via in event.consumed[..r] && IsEdgeInto(event, producersByRef, e))
    {
      var ref := event.consumed[r];
      var producers := Get(producersByRef, ref);
      ghost var before := list.seen;
      for q := 0 to |producers|
        invariant list.Valid()
        invariant forall e :: e in list.seen <==>
          || e in before
          || (e.via == ref && e.from in producers[..q] && IsEdgeInto(event, producersByRef, e))
      {
        assert producers[..q + 1] == producers[..q] + [producers[q]];
        if producers[q] != event.id {
          list.AddEdge(Edge(DataDependency, producers[q], event.id, ref));
        }
      }
      assert producers[..|producers|] == producers;
      assert event.consumed[..r + 1] == event.consumed[..r] + [ref];
    }
    assert event.consumed[..|event.consumed|] == event.consumed;
  }

  lemma DataStep(
      o: seq<TracedEvent>, j: nat, producersByRef: map<string, seq<string>>, e: Edge)
    requires j < |o| && ProducersKnown(o, j, producersByRef)
    ensures IsDataEdge(o, j + 1, e) <==>
              IsDataEdge(o, j, e) || IsEdgeInto(o[j], producersByRef, e)
  {
    if IsEdgeInto(o[j], producersByRef, e) {
      assert Produced(o, j, e.via, e.from);
      var i :| 0 <= i < j && e.via in o[i].produced && o[i].id == e.from;
      assert ReadsFrom(o, i, j, e.via);
    }
    if IsDataEdge(o, j + 1, e) {
      var i, k, ref :| k < j + 1 && ReadsFrom(o, i, k, ref)
        && e == Edge(DataDependency, o[i].id, o[k].id, ref);
      if k == j {
        assert Produced(o, j, ref, o[i].id);
      }
    }
  }

  method RegisterProduces(
      o: seq<TracedEvent>, j: nat, producersByRef: map<string, seq<string>>)
    returns (m: map<string, seq<string>>)
    requires j < |o| && ProducersKnown(o, j, producersByRef)
    ensures ProducersKnown(o, j + 1, m)
  {
    m := producersByRef;
    var produced := o[j].produced;
    for r := 0 to |produced|
      invariant forall ref, id :: id in Get(m, ref) <==>
        || id in Get(producersByRef, ref)
        || (id == o[j].id && ref in produced[..r])
    {
      var ref := produced[r];
      assert produced[..r + 1] == produced[..r] + [ref];
      m := m[ref := Get(m, ref) + [o[j].id]];
    }
    assert produced[..|produced|] == produced;
    forall ref, id ensures id in Get(m, ref) <==> Produced(o, j + 1, ref, id) {
      assert id in Get(producersByRef, ref) <==> Produced(o, j, ref, id);
    }
  }

  // The graph of any log has exactly the declared edges, each once.
  method BuildCausalGraph(events: seq<TracedEvent>) returns (graph: Graph)
    ensures var o := SortBySeq(events);
            && |graph.nodes| == |o| && (forall i :: 0 <= i < |o| ==> graph.nodes[i] == o[i].id)
            && (forall e :: e in graph.edges <==> IsCausalEdge(o, e))
            && NoDuplicates(graph.edges)
  {
    var ordered := SortBySeq(events);
    var nodes := seq(|ordered|, i requires 0 <= i < |ordered| => ordered[i].id);
    var list := new EdgeList();
    AddSequentialEdges(ordered, list);
    AddCommunicationEdges(ordered, list);
    AddDataEdges(ordered, list);
    graph := Graph(nodes, list.edges);
  }

  // ---- Edges point forward -------------------------------------------------

  // The database's own constraints on a workspace's events: ids and seqs are unique.
  ghost predicate DistinctRows(events: seq<TracedEvent>) {
    forall i, j | 0 <= i < j < |events| ::
      events[i].id != events[j].id && events[i].seq_ != events[j].seq_
  }

  ghost predicate StrictlyOrdered(o: seq<TracedEvent>) {
    && DistinctRows(o)
    && (forall i, j | 0 <= i < j < |o| :: o[i].seq_ < o[j].seq_)
  }

  lemma ByIdIsUnique(o: seq<TracedEvent>, e: TracedEvent)
    requires DistinctRows(o) && e in o
    ensures ById(o, e.id) == Some(e)
  {
    var found := ById(o, e.id).value;
    var i :| 0 <= i < |o| && o[i] == e;
    var j :| 0 <= j < |o| && o[j] == found;
  }

  // Every edge joins two events of the log and points strictly forward in seq.
  lemma EdgesPointForward(o: seq<TracedEvent>, e: Edge)
    requires StrictlyOrdered(o) && IsCausalEdge(o, e)
    ensures var from, to := ById(o, e.from), ById(o, e.to);
            from.Some? && to.Some? && from.value.seq_ < to.value.seq_
  {
    if IsSequentialEdge(o, |o|, e) {
      var i, j :| j < |o| && Consecutive(o, i, j)
        && e == Edge(Sequential, o[i].id, o[j].id, o[i].actor.value);
      ByIdIsUnique(o, o[i]);
      ByIdIsUnique(o, o[j]);
    } else if IsCommunicationEdge(o, |o|, e) {
      var j :| j < |o| && NamesEarlierParent(o, j)
        && e == Edge(Communication, o[j].parent.value, o[j].id, o[j].parent.value);
      ByIdIsUnique(o, o[j]);
    } else {
      var i, j, ref :| j < |o| && ReadsFrom(o, i, j, ref)
        && e == Edge(DataDependency, o[i].id, o[j].id, ref);
      ByIdIsUnique(o, o[i]);
      ByIdIsUnique(o, o[j]);
    }
  }

  // ---- Backward reachability -----------------------------------------------

  ghost predicate IsParent(edges: seq<Edge>, child: string, parent: string) {
    exists e :: e in edges && e.to == child && e.from == parent
  }

  // A nonempty walk from `seed` back along the edges to `target`, never stepping onto
  // `excluded`.
  ghost predicate IsTrace(
      edges: seq<Edge>, seed: string, target: string, excluded: Option<string>, p: seq<string>)
  {
    && |p| >= 2 && p[0] == seed && p[|p| - 1] == target
    && (forall k | 0 <= k < |p| - 1 :: IsParent(edges, p[k], p[k + 1]))
    && (excluded.Some? ==> excluded.value !in p[1..])
  }

  ghost predicate Upstream(
      edges: seq<Edge>, seed: string, target: string, excluded: Option<string>)
  {
    exists p :: IsTrace(edges, seed, target, excluded, p)
  }

  lemma StepUpstream(
      edges: seq<Edge>, seed: string, current: string, parent: string, excluded: Option<string>)
    requires current == seed || Upstream(edges, seed, current, excluded)
    requires IsParent(edges, current, parent) && excluded != Some(parent)
    ensures Upstream(edges, seed, parent, excluded)
  {
    if current != seed || Upstream(edges, seed, current, excluded) {
      var p :| IsTrace(edges, seed, current, excluded, p);
      var q := p + [parent];
      forall k | 0 <= k < |q| - 1 ensures IsParent(edges, q[k], q[k + 1]) {
        if k < |p| - 1 { assert IsParent(edges, p[k], p[k + 1]); }
      }
      assert q[1..] == p[1..] + [parent];
      assert IsTrace(edges, seed, parent, excluded, q);
    } else {
      var q := [seed, parent];
      assert q[1..] == [parent];
      assert IsTrace(edges, seed, parent, excluded, q);
    }
  }

  // The parents of each event, as the traversals index them.
  ghost predicate Indexes(edges: seq<Edge>, incoming: map<string, seq<string>>) {
    forall child, parent :: parent in Get(incoming, child) <==> IsParent(edges, child, parent)
  }

  method BuildIncoming(graph: Graph) returns (incoming: map<string, seq<string>>)
    ensures Indexes(graph.edges, incoming)
  {
    incoming := map[];
    var edges := graph.edges;
    for i := 0 to |edges|
      invariant Indexes(edges[..i], incoming)
    {
      var edge := edges[i];
      ghost var before := incoming;
      incoming := incoming[edge.to := Get(incoming, edge.to) + [edge.from]];
      assert edges[..i + 1] == edges[..i] + [edge];
      forall child, parent
        ensures parent in Get(incoming, child) <==> IsParent(edges[..i + 1], child, parent)
      {
        assert parent in Get(before, child) <==> IsParent(edges[..i], child, parent);
        assert edge in edges[..i + 1];
        assert IsParent(edges[..i], child, parent) ==> IsParent(edges[..i + 1], child, parent);
      }
    }
    assert edges[..|edges|] == edges;
  }

  // Everything an edge starts from; a traversal sees nothing else.
  function Sources(edges: seq<Edge>): set<string> {
    set e | e in edges :: e.from
  }

  // What the traversal has established with `stack` still to be popped and the first q
  // parents of `current` already looked at.
  ghost predicate TraceState(
      edges: seq<Edge>, seed: string, excluded: Option<string>,
      seen: set<string>, stack: seq<string>)
  {
    && seen <= Sources(edges)
    && (forall v :: v in seen ==> Upstream(edges, seed, v, excluded))
    && (forall v :: v in stack ==> v == seed || v in seen)
  }

  ghost predicate Expanded(
      edges: seq<Edge>, excluded: Option<string>, seen: set<string>, v: string)
  {
    forall parent :: IsParent(edges, v, parent) && excluded != Some(parent) ==> parent in seen
  }

  // Everything reached and no longer on the stack has had its parents looked at.
  ghost predicate Frontier(
      edges: seq<Edge>, seed: string, excluded: Option<string>,
      seen: set<string>, stack: seq<string>)
  {
    forall v :: (v == seed || v in seen) && v !in stack ==> Expanded(edges, excluded, seen, v)
  }

  // Looks at the parents of a popped event; every push uses up an unseen node.
  method VisitParents(
      edges: seq<Edge>, parents: seq<string>, seed: string, excluded: Option<string>,
      ghost current: string, seen0: set<string>, stack0: seq<string>)
    returns (seen: set<string>, stack: seq<string>)
    requires TraceState(edges, seed, excluded, seen0, stack0)
    requires current == seed || current in seen0
    requires forall parent :: parent in parents <==> IsParent(edges, current, parent)
    ensures TraceState(edges, seed, excluded, seen, stack)
    ensures Expanded(edges, excluded, seen, current)
    ensures seen0 <= seen && stack0 <= stack
    ensures forall v :: v in seen && v !in seen0 ==> v in stack
    ensures |Sources(edges) - seen| + |stack| == |Sources(edges) - seen0| + |stack0|
  {
    seen, stack := seen0, stack0;
    for q := 0 to |parents|
      invariant TraceState(edges, seed, excluded, seen, stack)
      invariant seen0 <= seen && stack0 <= stack
      invariant forall v :: v in seen && v !in seen0 ==> v in stack
      invariant forall k :: 0 <= k < q && excluded != Some(parents[k]) ==> parents[k] in seen
      invariant |Sources(edges) - seen| + |stack| == |Sources(edges) - seen0| + |stack0|
    {
      var parent := parents[q];
      assert parent in parents;
      if excluded == Some(parent) || parent in seen {
        continue;
      }
      StepUpstream(edges, seed, current, parent, excluded);
      ParentIsSource(edges, current, parent);
      assert Sources(edges) - (seen + {parent}) == (Sources(edges) - seen) - {parent};
      seen := seen + {parent};
      stack := stack + [parent];
    }
  }

  lemma ParentIsSource(edges: seq<Edge>, child: string, parent: string)
    requires IsParent(edges, child, parent)
    ensures parent in Sources(edges)
  {
  }

  lemma FrontierMoves(
      edges: seq<Edge>, seed: string, excluded: Option<string>,
      seen0: set<string>, stack0: seq<string>, current: string,
      seen: set<string>, stack: seq<string>)
    requires Frontier(edges, seed, excluded, seen0, stack0 + [current])
    requires seen0 <= seen && stack0 <= stack
    requires forall v :: v in seen && v !in seen0 ==> v in stack
    requires Expanded(edges, excluded, seen, current)
    ensures Frontier(edges, seed, excluded, seen, stack)
  {
    forall v | (v == seed || v in seen) && v !in stack ensures Expanded(edges, excluded, seen, v) {
      if v != current {
        assert v !in stack0 + [current];
        assert Expanded(edges, excluded, seen0, v);
      }
    }
  }

  // Depth-first from the seed over any graph, cyclic or not: terminates, and returns
  // exactly the nodes upstream of the seed that a walk avoiding `excluded` reaches,
  // without the seed itself.
  method Trace(
      edges: seq<Edge>, incoming: map<string, seq<string>>, seed: string, excluded: Option<string>)
    returns (seen: set<string>)
    requires Indexes(edges, incoming)
    ensures forall v :: v in seen <==> v != seed && Upstream(edges, seed, v, excluded)
  {
    seen := {};
    var stack := [seed];
    while stack != []
      invariant TraceState(edges, seed, excluded, seen, stack)
      invariant Frontier(edges, seed, excluded, seen, stack)
      decreases |Sources(edges) - seen| + |stack|
    {
      var current := stack[|stack| - 1];
      ghost var seen0, stack0 := seen, stack[..|stack| - 1];
      assert stack == stack0 + [current];
      stack := stack[..|stack| - 1];
      seen, stack := VisitParents(edges, Get(incoming, current), seed, excluded, current, seen, stack);
      FrontierMoves(edges, seed, excluded, seen0, stack0, current, seen, stack);
    }
    forall v | Upstream(edges, seed, v, excluded) ensures v in seen {
      var p :| IsTrace(edges, seed, v, excluded, p);
      ClosedUnderTraces(edges, seed, excluded, seen, p, |p| - 1);
    }
    seen := seen - {seed};
  }

  lemma {:induction false} ClosedUnderTraces(
      edges: seq<Edge>, seed: string, excluded: Option<string>, seen: set<string>,
      p: seq<string>, k: nat)
    requires |p| >= 2 && IsTrace(edges, seed, p[|p| - 1], excluded, p) && 1 <= k < |p|
    requires Frontier(edges, seed, excluded, seen, [])
    ensures p[k] in seen
  {
    if k > 1 {
      ClosedUnderTraces(edges, seed, excluded, seen, p, k - 1);
    }
    assert p[k] in p[1..] by { assert p[1..][k - 1] == p[k]; }
    assert Expanded(edges, excluded, seen, p[k - 1]);
    assert IsParent(edges, p[k - 1], p[k - 1 + 1]);
  }

  // Every event the given event causally depends on, without itself.
  method Ancestors(graph: Graph, eventId: string) returns (seen: set<string>)
    ensures forall v :: v in seen <==> v != eventId && Upstream(graph.edges, eventId, v, None)
  {
    var incoming := BuildIncoming(graph);
    seen := Trace(graph.edges, incoming, eventId, None);
  }
}
