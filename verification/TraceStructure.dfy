/** The reference reading of a trace: one node per span, its relations, and its defects. */
module TraceStructure {
  import opened Prelude
  import opened TraceGraph
  import opened TraceSchedule

  datatype Observation = Observation(span: SpanId, parent: Option<SpanId>, interval: Option<Interval>,
                                     sampling: Sampling, selector: Byte)

  datatype Relation = Root | Child | Orphan

  datatype SpanFacts = SpanFacts(span: SpanId, parent: Option<SpanId>, relation: Relation, sampling: Sampling,
                                 conflicted: bool, cycleMember: bool)

  datatype Structure = Structure(spans: seq<SpanFacts>, nodes: Nodes, roots: seq<SpanId>, orphans: seq<SpanId>,
                                 cycles: seq<SpanId>, missingParents: U64, conflicts: U64, invalidDurations: U64,
                                 temporalInconsistencies: U64)

  function SaturatingIncrement(n: U64): U64 {
    if n == U64_MAX then n else n + 1
  }

  /** `first` is the earliest observation of its span. */
  ghost predicate IsFirst(observations: seq<Observation>, first: nat, id: SpanId) {
    && first < |observations| && observations[first].span == id
    && forall i :: 0 <= i < first ==> observations[i].span != id
  }

  predicate Agrees(node: Node, o: Observation) {
    node.parent == o.parent && node.interval == o.interval && node.sampling == o.sampling && node.selector == o.selector
  }

  /** The earliest observation of a span gives its facts, and the span is conflicted when some
      observation of it says something else. */
  ghost predicate Summarizes(observations: seq<Observation>, id: SpanId, node: Node, first: nat) {
    && IsFirst(observations, first, id)
    && Agrees(node, observations[first])
    && (node.conflicted <==> Disputed(observations, id, node))
  }

  ghost predicate Disputed(observations: seq<Observation>, id: SpanId, node: Node) {
    exists i :: 0 <= i < |observations| && observations[i].span == id && !Agrees(node, observations[i])
  }

  ghost predicate IsConsolidated(observations: seq<Observation>, nodes: Nodes) {
    && (forall i :: 0 <= i < |observations| ==> observations[i].span in nodes)
    && forall id :: id in nodes ==> exists first: nat :: Summarizes(observations, id, nodes[id], first)
  }

  method Consolidate(observations: seq<Observation>) returns (nodes: Nodes)
    ensures IsConsolidated(observations, nodes)
  {
    nodes := map[];
    for n := 0 to |observations|
      invariant IsConsolidated(observations[..n], nodes)
    {
      var o := observations[n];
      ghost var longer := observations[..n + 1];
      forall id | id in nodes
        ensures exists first: nat :: Summarizes(longer, id, Absorb(nodes[id], id, o), first)
      {
        var first: nat :| Summarizes(observations[..n], id, nodes[id], first);
        SummaryGrows(observations, n, id, nodes[id], first);
      }
      if o.span in nodes {
        nodes := nodes[o.span := Absorb(nodes[o.span], o.span, o)];
      } else {
        SummaryStarts(observations, n, nodes.Keys);
        nodes := nodes[o.span := Node(o.parent, o.interval, o.sampling, false, o.selector)];
      }
      assert longer == observations[..n] + [o];
    }
    assert observations[..|observations|] == observations;
  }

  /** What one more observation does to the node of `id`. */
  function Absorb(node: Node, id: SpanId, o: Observation): Node {
    if o.span == id then node.(conflicted := node.conflicted || !Agrees(node, o)) else node
  }

  lemma SummaryGrows(observations: seq<Observation>, n: nat, id: SpanId, node: Node, first: nat)
    requires n < |observations| && Summarizes(observations[..n], id, node, first)
    ensures Summarizes(observations[..n + 1], id, Absorb(node, id, observations[n]), first)
  {
    var o := observations[n];
    var shorter, longer := observations[..n], observations[..n + 1];
    assert longer == shorter + [o];
    var after := Absorb(node, id, o);
    if Disputed(shorter, id, node) {
      var i :| 0 <= i < |shorter| && shorter[i].span == id && !Agrees(node, shorter[i]);
      assert longer[i] == shorter[i];
      assert Disputed(longer, id, after);
    } else if o.span == id && !Agrees(node, o) {
      assert longer[n] == o;
      assert Disputed(longer, id, after);
    } else {
      assert forall i :: 0 <= i < |longer| && longer[i].span == id ==> Agrees(node, longer[i]);
    }
  }

  lemma SummaryStarts(observations: seq<Observation>, n: nat, seen: set<SpanId>)
    requires n < |observations| && observations[n].span !in seen
    requires forall i :: 0 <= i < n ==> observations[i].span in seen
    ensures
      var o := observations[n];
      Summarizes(observations[..n + 1], o.span, Node(o.parent, o.interval, o.sampling, false, o.selector), n)
  {
    var longer := observations[..n + 1];
    assert forall i :: 0 <= i < n ==> longer[i].span != observations[n].span;
  }

  /** Walks the parents of every span with an explicit trail and collects each loop it closes:
      the result is exactly the set of spans that reach themselves. */
  method CycleMembers(nodes: Nodes) returns (cycles: set<SpanId>)
    ensures forall id :: id in cycles <==> OnCycle(nodes, id)
  {
    cycles := {};
    var ids := AscendingKeys(nodes);
    for n := 0 to |ids|
      invariant forall id :: id in cycles ==> OnCycle(nodes, id)
      invariant forall i :: 0 <= i < n && OnCycle(nodes, ids[i]) ==> ids[i] in cycles
    {
      var origin := ids[n];
      var trail: seq<SpanId> := [];
      var positions: map<SpanId, nat> := map[];
      var current: Option<SpanId> := Some(origin);
      while current.Some?
        invariant IsTrail(nodes, origin, trail)
        invariant forall id :: id in positions <==> id in trail
        invariant forall id :: id in positions ==> positions[id] < |trail| && trail[positions[id]] == id
        invariant current == Up(nodes, origin, |trail|)
        invariant trail == [] ==> current == Some(origin)
        invariant trail != [] ==> trail[0] == origin
        decreases |nodes| - |trail|
      {
        var span := current.value;
        if span !in nodes {
          break;
        }
        if span in positions {
          var start := positions[span];
          LoopClosed(nodes, origin, trail, start);
          cycles := cycles + Elements(trail[start..]);
          break;
        }
        positions := positions[span := |trail|];
        trail := trail + [span];
        TrailIsBounded(nodes, origin, trail);
        current := nodes[span].parent;
      }
      if current.None? || current.value !in nodes {
        OpenWalkHasNoCycle(nodes, origin, trail);
      }
    }
    forall id | OnCycle(nodes, id)
      ensures id in cycles
    {
      assert id in ids;
    }
  }

  predicate IsOrphan(nodes: Nodes, id: SpanId) {
    id in nodes && nodes[id].parent.Some? && nodes[id].parent.value !in nodes
  }

  /** A child whose interval leaves its parent's. */
  predicate Escapes(nodes: Nodes, id: SpanId) {
    && HasTime(nodes, id) && nodes[id].parent.Some? && HasTime(nodes, nodes[id].parent.value)
    && var p := nodes[id].parent.value;
       StartOf(nodes, id) < StartOf(nodes, p) || EndOf(nodes, id) > EndOf(nodes, p)
  }

  function RelationOf(nodes: Nodes, id: SpanId): Relation
    requires id in nodes
  {
    if nodes[id].parent.None? then Root
    else if nodes[id].parent.value in nodes then Child
    else Orphan
  }

  ghost function Roots(nodes: Nodes): set<SpanId> {
    set id | id in nodes && nodes[id].parent.None?
  }

  ghost function Orphans(nodes: Nodes): set<SpanId> {
    set id | id in nodes && IsOrphan(nodes, id)
  }

  ghost function Cyclic(nodes: Nodes): set<SpanId> {
    set id | id in nodes && OnCycle(nodes, id)
  }

  ghost function Conflicted(nodes: Nodes): set<SpanId> {
    set id | id in nodes && nodes[id].conflicted
  }

  ghost function Untimed(nodes: Nodes): set<SpanId> {
    set id | id in nodes && nodes[id].interval.None?
  }

  ghost function Escaping(nodes: Nodes): set<SpanId> {
    set id | id in nodes && Escapes(nodes, id)
  }

  /** The members of `kept`, in the order in which `q` lists them. */
  ghost function Select(q: seq<SpanId>, kept: set<SpanId>): seq<SpanId> {
    if q == [] then []
    else
      var front := Select(q[..|q| - 1], kept);
      if q[|q| - 1] in kept then front + [q[|q| - 1]] else front
  }

  lemma {:induction false} SelectMembers(q: seq<SpanId>, kept: set<SpanId>)
    ensures forall x :: x in Select(q, kept) <==> x in q && x in kept
  {
    if q != [] {
      SelectMembers(q[..|q| - 1], kept);
      assert q == q[..|q| - 1] + [q[|q| - 1]];
    }
  }

  lemma SelectNext(q: seq<SpanId>, n: nat, kept: set<SpanId>)
    requires n < |q|
    ensures Select(q[..n + 1], kept) == if q[n] in kept then Select(q[..n], kept) + [q[n]] else Select(q[..n], kept)
  {
    assert q[..n + 1][..n] == q[..n];
  }

  lemma {:induction false} SelectAscending(q: seq<SpanId>, kept: set<SpanId>)
    requires StrictlyAscending(q)
    ensures StrictlyAscending(Select(q, kept))
  {
    if q != [] {
      var front := q[..|q| - 1];
      SelectAscending(front, kept);
      SelectMembers(front, kept);
      var selected := Select(front, kept);
      forall i | 0 <= i < |selected|
        ensures selected[i] < q[|q| - 1]
      {
        assert selected[i] in front;
      }
    }
  }

  lemma SelectIsEmpty(q: seq<SpanId>, kept: set<SpanId>)
    requires forall x :: x in kept ==> x in q
    ensures |Select(q, kept)| == 0 <==> kept == {}
  {
    SelectMembers(q, kept);
    if kept != {} {
      var x :| x in kept;
      assert x in Select(q, kept);
    } else if Select(q, kept) != [] {
      assert Select(q, kept)[0] in Select(q, kept);
    }
  }

  function Saturate(n: nat): U64 {
    if n <= U64_MAX then n else U64_MAX
  }

  /** The lists and counts of a structure, after the spans of `done` have been read. */
  ghost predicate Tallies(s: Structure, nodes: Nodes, done: seq<SpanId>) {
    && s.roots == Select(done, Roots(nodes))
    && s.orphans == Select(done, Orphans(nodes))
    && s.cycles == Select(done, Cyclic(nodes))
    && s.missingParents == Saturate(|Select(done, Orphans(nodes))|)
    && s.conflicts == Saturate(|Select(done, Conflicted(nodes))|)
    && s.invalidDurations == Saturate(|Select(done, Untimed(nodes))|)
    && s.temporalInconsistencies == Saturate(|Select(done, Escaping(nodes))|)
  }

  ghost predicate FactsHold(nodes: Nodes, f: SpanFacts, id: SpanId) {
    && id in nodes
    && f.span == id
    && f.parent == nodes[id].parent
    && f.relation == RelationOf(nodes, id)
    && f.sampling == nodes[id].sampling
    && f.conflicted == nodes[id].conflicted
    && (f.cycleMember <==> OnCycle(nodes, id))
  }

  /** A structure lists, in ascending order, exactly the roots, orphans and cycle members of its
      nodes, and counts exactly the defective ones. */
  ghost predicate Describes(s: Structure, order: seq<SpanId>) {
    && StrictlyAscending(order) && (forall x :: x in order <==> x in s.nodes)
    && Tallies(s, s.nodes, order)
    && |s.spans| == |order|
    && (forall i :: 0 <= i < |order| ==> FactsHold(s.nodes, s.spans[i], order[i]))
  }

  /** What reading one span adds to the lists and counts. */
  function ReadSpan(s: Structure, nodes: Nodes, id: SpanId, onCycle: bool): Structure
    requires id in nodes
  {
    var node := nodes[id];
    var relation := RelationOf(nodes, id);
    s.(roots := if relation.Root? then s.roots + [id] else s.roots,
       orphans := if relation.Orphan? then s.orphans + [id] else s.orphans,
       missingParents := if relation.Orphan? then SaturatingIncrement(s.missingParents) else s.missingParents,
       conflicts := if node.conflicted then SaturatingIncrement(s.conflicts) else s.conflicts,
       invalidDurations := if node.interval.None? then SaturatingIncrement(s.invalidDurations) else s.invalidDurations,
       temporalInconsistencies := if Escapes(nodes, id) then SaturatingIncrement(s.temporalInconsistencies)
                                  else s.temporalInconsistencies,
       cycles := if onCycle then s.cycles + [id] else s.cycles,
       spans := s.spans + [SpanFacts(id, node.parent, relation, node.sampling, node.conflicted, onCycle)])
  }

  ghost predicate ReadUpTo(s: Structure, nodes: Nodes, ids: seq<SpanId>, n: nat) {
    && n <= |ids| && Tallies(s, nodes, ids[..n])
    && |s.spans| == n && forall i :: 0 <= i < n ==> FactsHold(nodes, s.spans[i], ids[i])
  }

  lemma ReadingGrows(s: Structure, nodes: Nodes, ids: seq<SpanId>, n: nat, onCycle: bool)
    requires n < |ids| && ids[n] in nodes && ReadUpTo(s, nodes, ids, n)
    requires onCycle <==> OnCycle(nodes, ids[n])
    ensures ReadUpTo(ReadSpan(s, nodes, ids[n], onCycle), nodes, ids, n + 1)
  {
    SelectNext(ids, n, Roots(nodes));
    SelectNext(ids, n, Orphans(nodes));
    SelectNext(ids, n, Cyclic(nodes));
    SelectNext(ids, n, Conflicted(nodes));
    SelectNext(ids, n, Untimed(nodes));
    SelectNext(ids, n, Escaping(nodes));
  }

  method ExpectedStructure(observations: seq<Observation>) returns (s: Structure, ghost order: seq<SpanId>)
    ensures IsConsolidated(observations, s.nodes)
    ensures Describes(s, order)
  {
    var nodes := Consolidate(observations);
    s := Structure([], map[], [], [], [], 0, 0, 0, 0);
    var cycles := CycleMembers(nodes);
    var ids := AscendingKeys(nodes);
    order := ids;
    for n := 0 to |ids|
      invariant ReadUpTo(s, nodes, ids, n)
    {
      ReadingGrows(s, nodes, ids, n, ids[n] in cycles);
      s := ReadSpan(s, nodes, ids[n], ids[n] in cycles);
    }
    assert ids[..|ids|] == ids;
    s := s.(nodes := nodes);
  }

  /** The guards under which a critical path is defined. */
  predicate Clean(s: Structure) {
    && s.missingParents == 0 && s.conflicts == 0 && s.cycles == [] && s.invalidDurations == 0
    && s.temporalInconsistencies == 0 && |s.roots| == 1
  }

  /** Every span keeps inside the interval of its parent. */
  ghost predicate Nested(nodes: Nodes) {
    forall id :: id in nodes ==> !Escapes(nodes, id)
  }

  /** A clean structure is a timed, nested tree of agreed spans below one root. */
  ghost predicate IsTree(nodes: Nodes, root: SpanId) {
    && Timed(nodes) && Acyclic(nodes) && NoMissingParents(nodes) && Nested(nodes)
    && root in nodes && nodes[root].parent.None?
    && (forall id :: id in nodes && nodes[id].parent.None? ==> id == root)
    && (forall id :: id in nodes ==> !nodes[id].conflicted)
  }

  /** The guards hold exactly when the nodes form such a tree. */
  lemma CleanMeansTree(s: Structure, order: seq<SpanId>)
    requires Describes(s, order)
    ensures Clean(s) ==> IsTree(s.nodes, s.roots[0])
    ensures (exists root :: IsTree(s.nodes, root)) ==> Clean(s)
  {
    var n := s.nodes;
    SelectIsEmpty(order, Orphans(n));
    SelectIsEmpty(order, Cyclic(n));
    SelectIsEmpty(order, Conflicted(n));
    SelectIsEmpty(order, Untimed(n));
    SelectIsEmpty(order, Escaping(n));
    OneRoot(order, n);
    if Clean(s) {
      DefectFree(n);
    }
    if exists root :: IsTree(n, root) {
      DefectFree(n);
    }
  }

  lemma OneRoot(order: seq<SpanId>, n: Nodes)
    requires StrictlyAscending(order) && (forall x :: x in order <==> x in n)
    ensures |Select(order, Roots(n))| == 1 <==> exists root :: Roots(n) == {root}
    ensures |Select(order, Roots(n))| == 1 ==> Roots(n) == {Select(order, Roots(n))[0]}
  {
    var roots := Select(order, Roots(n));
    SelectMembers(order, Roots(n));
    SelectAscending(order, Roots(n));
    assert |roots| >= 2 ==> roots[0] < roots[1];
    if |roots| == 1 {
      assert roots == [roots[0]];
      assert Roots(n) == {roots[0]};
    }
    if exists root :: Roots(n) == {root} {
      var root :| Roots(n) == {root};
      assert root in roots;
      forall i | 0 <= i < |roots|
        ensures roots[i] == root
      {
        assert roots[i] in roots;
        assert roots[i] in Roots(n);
      }
    }
  }

  lemma DefectFree(n: Nodes)
    ensures Orphans(n) == {} <==> NoMissingParents(n)
    ensures Cyclic(n) == {} <==> Acyclic(n)
    ensures Untimed(n) == {} <==> Timed(n)
    ensures Escaping(n) == {} <==> Nested(n)
    ensures forall id :: id in n && id !in Conflicted(n) ==> !n[id].conflicted
    ensures forall root :: Roots(n) == {root} <==>
                           root in n && n[root].parent.None? && forall id :: id in n && n[id].parent.None? ==> id == root
  {
    assert forall id :: IsOrphan(n, id) <==> id in Orphans(n);
    assert NoMissingParents(n) <==> forall id :: id in n ==> !IsOrphan(n, id);
    assert forall id :: OnCycle(n, id) <==> id in Cyclic(n);
    assert forall id :: Escapes(n, id) <==> id in Escaping(n);
    assert forall id :: id in n ==> (n[id].interval.None? <==> id in Untimed(n));
    assert forall id :: id in n ==> (n[id].parent.None? <==> id in Roots(n));
  }
}
