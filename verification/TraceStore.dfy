/** The store's structural analysis of one trace, and its agreement with the reference reading. */
module TraceStore {
  import opened Prelude
  import opened TraceGraph
  import opened TraceSchedule
  import opened TraceStructure
  import opened TraceCriticalPath
  import opened TraceIndex
  import opened TraceAdjacency
  import opened TraceWalk

  datatype Report = Report(structure: Structure, cycleMembers: U64, ambiguousRoots: bool, complete: bool,
                           criticalPath: Option<(seq<Fragment>, U64)>)

  /** Counts one more defect, failing rather than wrapping. */
  function Counted(n: U64, defect: bool): Result<U64, Failure> {
    if !defect then Ok(n) else if n == U64_MAX then Err(LimitExceeded) else Ok(n + 1)
  }

  ghost function IdsOf(spans: seq<Span>): (r: seq<SpanId>)
    ensures |r| == |spans| && forall i :: 0 <= i < |spans| ==> r[i] == spans[i].id
  {
    seq(|spans|, i requires 0 <= i < |spans| => spans[i].id)
  }

  predicate LeavesParent(child: Option<Interval>, parent: Option<Interval>) {
    && child.Some? && parent.Some?
    && (child.value.start < parent.value.start || child.value.end > parent.value.end)
  }

  /** Notes down the span at `n`. */
  function NoteSpan(s: Structure, spans: seq<Span>, parents: seq<Option<nat>>, states: seq<CycleState>, n: nat):
    Result<Structure, Failure>
    requires n < |spans| == |parents| == |states|
    requires parents[n].Some? ==> parents[n].value < |spans|
  {
    var span := spans[n];
    var relation := if span.parent.None? then Root else if parents[n].Some? then Child else Orphan;
    var onCycle := relation.Child? && states[n].CycleSpan?;
    var escapes := relation.Child? && LeavesParent(span.interval, spans[parents[n].value].interval);
    var missingParents :- Counted(s.missingParents, relation.Orphan?);
    var conflicts :- Counted(s.conflicts, span.conflicted);
    var invalidDurations :- Counted(s.invalidDurations, span.interval.None?);
    var temporalInconsistencies :- Counted(s.temporalInconsistencies, escapes);
    Ok(s.(roots := if relation.Root? then s.roots + [span.id] else s.roots,
          orphans := if relation.Orphan? then s.orphans + [span.id] else s.orphans,
          missingParents := missingParents,
          conflicts := conflicts,
          invalidDurations := invalidDurations,
          temporalInconsistencies := temporalInconsistencies,
          cycles := if onCycle then s.cycles + [span.id] else s.cycles,
          spans := s.spans + [SpanFacts(span.id, span.parent, relation, span.sampling, span.conflicted, onCycle)]))
  }

  lemma {:induction false} SelectIsShorter(q: seq<SpanId>, kept: set<SpanId>)
    ensures |Select(q, kept)| <= |q|
  {
    if q != [] {
      SelectIsShorter(q[..|q| - 1], kept);
    }
  }

  /** While fewer than 2^64 spans have been read, no count is full. */
  lemma CountsHaveRoom(s: Structure, nodes: Nodes, done: seq<SpanId>)
    requires Tallies(s, nodes, done) && |done| < U64_MAX
    ensures s.missingParents < U64_MAX && s.conflicts < U64_MAX && s.invalidDurations < U64_MAX
    ensures s.temporalInconsistencies < U64_MAX
    ensures |s.cycles| <= |done|
  {
    SelectIsShorter(done, Orphans(nodes));
    SelectIsShorter(done, Conflicted(nodes));
    SelectIsShorter(done, Untimed(nodes));
    SelectIsShorter(done, Escaping(nodes));
    SelectIsShorter(done, Cyclic(nodes));
  }

  lemma CycleHasParent(nodes: Nodes, id: SpanId)
    requires OnCycle(nodes, id)
    ensures nodes[id].parent.Some? && nodes[id].parent.value in nodes
  {
    var k: nat :| k >= 1 && Up(nodes, id, k) == Some(id);
    CycleNeverLeaves(nodes, id, k, 1);
    assert Up(nodes, id, 0) == Some(id);
    assert Up(nodes, id, 1) == ParentOf(nodes, id);
  }

  /** The store notes the same facts as the reference, though it reads positions instead of maps. */
  lemma NotesAgree(s: Structure, spans: seq<Span>, parents: seq<Option<nat>>, states: seq<CycleState>, nodes: Nodes, n: nat)
    requires n < |spans| == |parents| == |states|
    requires IsIndex(spans, parents) && Represents(spans, nodes)
    requires states[n].CycleSpan? <==> OnCycle(nodes, spans[n].id)
    requires s.missingParents < U64_MAX && s.conflicts < U64_MAX && s.invalidDurations < U64_MAX
    requires s.temporalInconsistencies < U64_MAX
    ensures parents[n].Some? ==> parents[n].value < |spans|
    ensures spans[n].id in nodes
    ensures NoteSpan(s, spans, parents, states, n) == Ok(ReadSpan(s, nodes, spans[n].id, OnCycle(nodes, spans[n].id)))
  {
    var id := spans[n].id;
    assert SameSpan(spans[n], nodes[id]);
    assert Locates(spans, n, parents[n]);
    if nodes[id].parent.Some? && nodes[id].parent.value in nodes {
      assert Listed(spans, nodes[id].parent.value);
    }
    if parents[n].Some? {
      assert SameSpan(spans[parents[n].value], nodes[spans[parents[n].value].id]);
    }
    if OnCycle(nodes, id) {
      CycleHasParent(nodes, id);
    }
  }

  /** Noting one span never fails and keeps the lists and counts in step with the reference. */
  lemma NotingGrows(s: Structure, spans: seq<Span>, parents: seq<Option<nat>>, states: seq<CycleState>, nodes: Nodes,
                    n: nat)
    requires n < |spans| == |parents| == |states| <= U64_MAX
    requires IsIndex(spans, parents) && Represents(spans, nodes)
    requires states[n].CycleSpan? <==> OnCycle(nodes, spans[n].id)
    requires ReadUpTo(s, nodes, IdsOf(spans), n)
    ensures parents[n].Some? ==> parents[n].value < |spans|
    ensures var noted := NoteSpan(s, spans, parents, states, n);
            && noted.Ok? && ReadUpTo(noted.value, nodes, IdsOf(spans), n + 1)
            && |s.cycles| <= n
            && noted.value.cycles == if OnCycle(nodes, spans[n].id) then s.cycles + [spans[n].id] else s.cycles
    ensures OnCycle(nodes, spans[n].id) ==> spans[n].parent.Some? && parents[n].Some?
  {
    CountsHaveRoom(s, nodes, IdsOf(spans)[..n]);
    NotesAgree(s, spans, parents, states, nodes, n);
    ReadingGrows(s, nodes, IdsOf(spans), n, OnCycle(nodes, spans[n].id));
  }

  lemma ListsEverySpan(spans: seq<Span>, nodes: Nodes)
    requires IdsAscend(spans) && Represents(spans, nodes)
    ensures StrictlyAscending(IdsOf(spans)) && forall id :: id in IdsOf(spans) <==> id in nodes
  {
    forall id | id in nodes
      ensures id in IdsOf(spans)
    {
      assert Listed(spans, id);
      var i :| 0 <= i < |spans| && spans[i].id == id;
      assert IdsOf(spans)[i] == id;
    }
  }

  ghost predicate Coloured(spans: seq<Span>, nodes: Nodes, states: seq<CycleState>) {
    && |states| == |spans|
    && forall i :: 0 <= i < |spans| ==> (states[i].CycleSpan? <==> OnCycle(nodes, spans[i].id))
  }

  lemma ReadingEnds(s: Structure, spans: seq<Span>, nodes: Nodes)
    requires IdsAscend(spans) && Represents(spans, nodes) && ReadUpTo(s, nodes, IdsOf(spans), |spans|)
    ensures Describes(s.(nodes := nodes), IdsOf(spans))
  {
    assert IdsOf(spans)[..|spans|] == IdsOf(spans);
    ListsEverySpan(spans, nodes);
  }

  method ReadSpans(spans: seq<Span>, parents: seq<Option<nat>>, states: seq<CycleState>, ghost nodes: Nodes)
    returns (s: Structure, cycleMembers: U64)
    requires IdsAscend(spans) && IsIndex(spans, parents) && Represents(spans, nodes) && |spans| <= U64_MAX
    requires Coloured(spans, nodes, states)
    ensures Describes(s.(nodes := nodes), IdsOf(spans)) && cycleMembers == |s.cycles|
  {
    s := Structure([], map[], [], [], [], 0, 0, 0, 0);
    cycleMembers := 0;
    for n := 0 to |spans|
      invariant ReadUpTo(s, nodes, IdsOf(spans), n)
      invariant cycleMembers == |s.cycles|
    {
      s, cycleMembers := NoteNext(s, cycleMembers, spans, parents, states, nodes, n);
    }
    ReadingEnds(s, spans, nodes);
  }

  method NoteNext(before: Structure, counted: U64, spans: seq<Span>, parents: seq<Option<nat>>,
                  states: seq<CycleState>, ghost nodes: Nodes, n: nat) returns (s: Structure, cycleMembers: U64)
    requires n < |spans| == |parents| == |states| <= U64_MAX
    requires IsIndex(spans, parents) && Represents(spans, nodes) && Coloured(spans, nodes, states)
    requires ReadUpTo(before, nodes, IdsOf(spans), n) && counted == |before.cycles|
    ensures ReadUpTo(s, nodes, IdsOf(spans), n + 1) && cycleMembers == |s.cycles|
  {
    NotingGrows(before, spans, parents, states, nodes, n);
    var onCycle := spans[n].parent.Some? && parents[n].Some? && states[n].CycleSpan?;
    var noted := NoteSpan(before, spans, parents, states, n);
    s, cycleMembers := noted.value, Counted(counted, onCycle).value;
  }

  /** The store's critical path of a clean trace is the reference path, with its duration. */
  method CriticalPath(spans: seq<Span>, parents: seq<Option<nat>>, roots: seq<SpanId>, ghost nodes: Nodes)
    returns (r: Option<(seq<Fragment>, U64)>)
    requires IdsAscend(spans) && IsIndex(spans, parents) && Represents(spans, nodes)
    requires |roots| > 0 ==> IsTree(nodes, roots[0])
    ensures r.None? <==> |roots| == 0
    ensures r.Some? ==> IsCriticalPath(nodes, roots[0], r.value.0, r.value.1)
  {
    if |roots| == 0 {
      return None;
    }
    assert Listed(spans, roots[0]);
    var root := Find(spans, roots[0]);
    forall i | 0 <= i < |spans|
      ensures spans[i].interval.Some?
    {
      assert SameSpan(spans[i], nodes[spans[i].id]);
    }
    forall i | 0 <= i < |parents| && parents[i].Some?
      ensures parents[i].value < |parents|
    {
      assert Locates(spans, i, parents[i]);
    }
    var ranges, children := BuildAdjacency(RanksOf(spans), parents);
    var fragments := WalkPath(spans, nodes, parents, ranges, children, root.value);
    PathIsCritical(nodes, roots[0]);
    var duration := SumDurations(fragments);
    r := Some((fragments, duration.value));
  }

  /** The store fails on a list that is not in strictly ascending order, and otherwise reports the
      structure the reference reads, with a critical path exactly when the scan was whole and the
      spans form a clean tree: the reference's path. */
  method Analyze(spans: seq<Span>, wholeScan: bool, filtered: bool, ghost nodes: Nodes)
    returns (r: Result<Report, Failure>)
    requires IdsAscend(spans) ==> Represents(spans, nodes)
    ensures r.Ok? <==> |spans| <= U64_MAX && IdsAscend(spans)
    ensures r.Ok? ==>
              && Describes(r.value.structure.(nodes := nodes), IdsOf(spans))
              && r.value.cycleMembers == |r.value.structure.cycles|
              && (r.value.ambiguousRoots <==> |r.value.structure.roots| > 1)
    ensures r.Ok? ==> (r.value.criticalPath.Some? <==> wholeScan && !filtered && exists root :: IsTree(nodes, root))
    ensures r.Ok? && r.value.criticalPath.Some? ==>
              && |r.value.structure.roots| == 1 && IsTree(nodes, r.value.structure.roots[0])
              && IsCriticalPath(nodes, r.value.structure.roots[0], r.value.criticalPath.value.0,
                                r.value.criticalPath.value.1)
  {
    if |spans| > U64_MAX {
      return Err(LimitExceeded);
    }
    var index := BuildIndex(spans);
    if index.Err? {
      return Err(index.error);
    }
    var parents := index.value;
    var states := ClassifyCycles(spans, parents, nodes);
    var s, cycleMembers := ReadSpans(spans, parents, states, nodes);
    var ambiguousRoots := |s.roots| > 1;
    var complete := wholeScan && !filtered && Spotless(s, cycleMembers) && !ambiguousRoots;
    CleanMeansTree(s.(nodes := nodes), IdsOf(spans));
    assert Spotless(s, cycleMembers) && |s.roots| == 1 <==> Clean(s.(nodes := nodes));
    var path: Option<(seq<Fragment>, U64)> := None;
    if complete {
      path := CriticalPath(spans, parents, s.roots, nodes);
    }
    r := Ok(Report(s, cycleMembers, ambiguousRoots, complete, path));
  }

  predicate Spotless(s: Structure, cycleMembers: U64) {
    && s.missingParents == 0 && s.conflicts == 0 && cycleMembers == 0 && s.invalidDurations == 0
    && s.temporalInconsistencies == 0
  }

  /** A trace has one description: whatever describes the same spans is equal, member by member. */
  lemma DescriptionIsUnique(a: Structure, orderA: seq<SpanId>, b: Structure, orderB: seq<SpanId>)
    requires Describes(a, orderA) && Describes(b, orderB) && a.nodes == b.nodes
    ensures a == b
  {
    AscendingIsUnique(orderA, orderB);
    forall i | 0 <= i < |orderA|
      ensures a.spans[i] == b.spans[i]
    {
      assert FactsHold(a.nodes, a.spans[i], orderA[i]) && FactsHold(b.nodes, b.spans[i], orderB[i]);
    }
    assert a.spans == b.spans;
  }

  lemma RestOfAscending(p: seq<SpanId>, x: SpanId)
    requires StrictlyAscending(p) && p != []
    ensures x in p[1..] <==> x in p && x > p[0]
  {
    assert p == [p[0]] + p[1..];
  }

  lemma {:induction false} AscendingIsUnique(p: seq<SpanId>, q: seq<SpanId>)
    requires StrictlyAscending(p) && StrictlyAscending(q) && forall x :: x in p <==> x in q
    ensures p == q
  {
    assert q != [] ==> q[0] in p;
    if p != [] {
      assert p[0] in q && q[0] in p;
      assert p[0] == q[0];
      forall x
        ensures x in p[1..] <==> x in q[1..]
      {
        RestOfAscending(p, x);
        RestOfAscending(q, x);
      }
      AscendingIsUnique(p[1..], q[1..]);
    }
  }

  lemma PathsAgree(nodes: Nodes, roots: seq<SpanId>, a: Option<(seq<Fragment>, U64)>, b: Option<(seq<Fragment>, U64)>)
    requires a.Some? <==> b.Some?
    requires a.Some? ==> |roots| == 1 && IsTree(nodes, roots[0])
    requires a.Some? ==> IsCriticalPath(nodes, roots[0], a.value.0, a.value.1)
    requires b.Some? ==> IsCriticalPath(nodes, roots[0], b.value.0, b.value.1)
    ensures a == b
  {
  }

  /** The comparison the fuzz target makes on every round: whatever the consolidated spans, the
      store's report has the reference structure and a critical path exactly for a tree, and within the
      reference's size limit that path is the reference path. */
  method CompareWithReference(expected: Structure, ghost order: seq<SpanId>, spans: seq<Span>, limit: nat)
    returns (report: Report, reference: Option<Option<(seq<Fragment>, U64)>>)
    requires Describes(expected, order)
    requires IdsAscend(spans) && Represents(spans, expected.nodes) && |spans| <= U64_MAX
    ensures report.structure.(nodes := expected.nodes) == expected
    ensures report.cycleMembers == |expected.cycles| && (report.ambiguousRoots <==> |expected.roots| > 1)
    ensures report.criticalPath.Some? <==> exists root :: IsTree(expected.nodes, root)
    ensures report.criticalPath.Some? ==>
              && |expected.roots| == 1 && IsTree(expected.nodes, expected.roots[0])
              && IsCriticalPath(expected.nodes, expected.roots[0], report.criticalPath.value.0, report.criticalPath.value.1)
    ensures reference == if |expected.nodes| <= limit then Some(report.criticalPath) else None
  {
    reference := ExpectedCriticalPath(expected, order, limit);
    var result := Analyze(spans, true, false, expected.nodes);
    report := result.value;
    DescriptionIsUnique(report.structure.(nodes := expected.nodes), IdsOf(spans), expected, order);
    assert report.structure.roots == report.structure.(nodes := expected.nodes).roots;
    assert report.structure.cycles == report.structure.(nodes := expected.nodes).cycles;
    if reference.Some? {
      PathsAgree(expected.nodes, expected.roots, reference.value, report.criticalPath);
    }
  }
}
