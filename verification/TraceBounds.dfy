/** How much the walk needs: at most two fragments for every span but one, and a frame for every span. */
module TraceBounds {
  import opened Prelude
  import opened TraceGraph
  import opened TraceSchedule
  import opened TraceCriticalPath

  /** One parent step from a child. */
  lemma ChildStep(nodes: Nodes, child: SpanId, parent: SpanId)
    requires ChildOf(nodes, child, parent)
    ensures Up(nodes, child, 1) == Some(parent)
  {
    assert Up(nodes, child, 0) == Some(child);
  }

  /** If a child of a span lay above another child of it, the span would be on a cycle. */
  lemma NestedSiblingsCycle(nodes: Nodes, span: SpanId, x: SpanId, i: nat, low: SpanId, j: nat, high: SpanId)
    requires span in nodes && ChildOf(nodes, low, span) && ChildOf(nodes, high, span)
    requires Up(nodes, x, i) == Some(low) && Up(nodes, x, j) == Some(high) && i < j
    ensures OnCycle(nodes, span)
  {
    UpAdd(nodes, x, i, j - i);
    ChildStep(nodes, low, span);
    UpAdd(nodes, low, 1, j - i - 1);
    ChildStep(nodes, high, span);
    UpAdd(nodes, span, j - i - 1, 1);
    assert Up(nodes, span, j - i) == Some(span);
  }

  /** So would a span below its own child. */
  lemma BelowOwnChildCycles(nodes: Nodes, span: SpanId, child: SpanId)
    requires span in Below(nodes, child) && ChildOf(nodes, child, span)
    ensures OnCycle(nodes, span)
  {
    var k: nat :| Up(nodes, span, k) == Some(child);
    assert Up(nodes, span, k + 1) == Some(span);
  }

  /** What lies below one child lies below no other. */
  lemma ChildrenApart(nodes: Nodes, span: SpanId, c: SpanId, b: SpanId, x: SpanId)
    requires Acyclic(nodes) && span in nodes && ChildOf(nodes, c, span) && ChildOf(nodes, b, span)
    requires x in Below(nodes, c) && x in Below(nodes, b)
    ensures c == b
  {
    var i: nat :| Up(nodes, x, i) == Some(c);
    var j: nat :| Up(nodes, x, j) == Some(b);
    if i < j {
      NestedSiblingsCycle(nodes, span, x, i, c, j, b);
    } else if j < i {
      NestedSiblingsCycle(nodes, span, x, j, b, i, c);
    }
  }

  /** The spans below `span` that its path up to `cursor` enters. */
  ghost function Visited(nodes: Nodes, span: SpanId, cursor: Instant): set<SpanId>
    requires Timed(nodes) && Acyclic(nodes) && span in nodes
    decreases Below(nodes, span), cursor - I64_MIN
  {
    if HasEligible(nodes, span, cursor) then
      var child := Best(nodes, span, cursor);
      BelowShrinks(nodes, child, span);
      Visited(nodes, span, StartOf(nodes, child)) + {child} + Visited(nodes, child, EndOf(nodes, child))
    else {}
  }

  ghost predicate ViaChild(nodes: Nodes, span: SpanId, cursor: Instant, c: SpanId, x: SpanId) {
    Eligible(nodes, span, cursor, c) && x in Below(nodes, c)
  }

  /** A visited span is reached through an eligible child. */
  lemma {:induction false} VisitedViaChild(nodes: Nodes, span: SpanId, cursor: Instant, x: SpanId) returns (c: SpanId)
    requires Timed(nodes) && Acyclic(nodes) && span in nodes && x in Visited(nodes, span, cursor)
    ensures ViaChild(nodes, span, cursor, c, x)
    decreases Below(nodes, span), cursor - I64_MIN
  {
    var child := Best(nodes, span, cursor);
    BelowShrinks(nodes, child, span);
    assert Up(nodes, child, 0) == Some(child);
    if x in Visited(nodes, span, StartOf(nodes, child)) {
      c := VisitedViaChild(nodes, span, StartOf(nodes, child), x);
    } else if x == child {
      c := child;
    } else {
      var d := VisitedViaChild(nodes, child, EndOf(nodes, child), x);
      BelowShrinks(nodes, d, child);
      c := child;
    }
  }

  /** The parts of a path visit different spans. */
  lemma VisitedApart(nodes: Nodes, span: SpanId, cursor: Instant, x: SpanId)
    requires Timed(nodes) && Acyclic(nodes) && span in nodes && HasEligible(nodes, span, cursor)
    ensures var child := Best(nodes, span, cursor);
            x in Visited(nodes, span, StartOf(nodes, child)) ==>
              x != child && x !in Visited(nodes, child, EndOf(nodes, child))
  {
    var child := Best(nodes, span, cursor);
    if x in Visited(nodes, span, StartOf(nodes, child)) {
      var c := VisitedViaChild(nodes, span, StartOf(nodes, child), x);
      assert Up(nodes, child, 0) == Some(child);
      if x in Visited(nodes, child, EndOf(nodes, child)) {
        var d := VisitedViaChild(nodes, child, EndOf(nodes, child), x);
        BelowShrinks(nodes, d, child);
      }
      if x in Below(nodes, child) {
        ChildrenApart(nodes, span, c, child, x);
      }
    }
  }

  /** A span is not visited from itself. */
  lemma NotVisitedFromItself(nodes: Nodes, span: SpanId, cursor: Instant)
    requires Timed(nodes) && Acyclic(nodes) && span in nodes
    ensures span !in Visited(nodes, span, cursor)
  {
    if span in Visited(nodes, span, cursor) {
      var c := VisitedViaChild(nodes, span, cursor, span);
      BelowOwnChildCycles(nodes, span, c);
    }
  }

  lemma UnionSize<T>(a: set<T>, x: T, b: set<T>)
    requires forall y :: y in a ==> y != x && y !in b
    requires x !in b
    ensures |a + {x} + b| == |a| + 1 + |b|
  {
    assert a + {x} !! b && a !! {x};
  }

  /** A path has at most two fragments for every span it visits, and one more. */
  lemma {:induction false} FragmentsPerSpan(nodes: Nodes, span: SpanId, cursor: Instant)
    requires Timed(nodes) && Acyclic(nodes) && span in nodes
    ensures |PathUpTo(nodes, span, cursor)| <= 2 * |Visited(nodes, span, cursor)| + 1
    decreases Below(nodes, span), cursor - I64_MIN
  {
    if HasEligible(nodes, span, cursor) {
      var child := Best(nodes, span, cursor);
      BelowShrinks(nodes, child, span);
      FragmentsPerSpan(nodes, span, StartOf(nodes, child));
      FragmentsPerSpan(nodes, child, EndOf(nodes, child));
      var earlier, inner := Visited(nodes, span, StartOf(nodes, child)), Visited(nodes, child, EndOf(nodes, child));
      forall y | y in earlier
        ensures y != child && y !in inner
      {
        VisitedApart(nodes, span, cursor, y);
      }
      NotVisitedFromItself(nodes, child, EndOf(nodes, child));
      UnionSize(earlier, child, inner);
    }
  }

  lemma {:induction false} VisitedAreSpans(nodes: Nodes, span: SpanId, cursor: Instant)
    requires Timed(nodes) && Acyclic(nodes) && span in nodes
    ensures Visited(nodes, span, cursor) <= nodes.Keys - {span}
  {
    forall x | x in Visited(nodes, span, cursor)
      ensures x in nodes && x != span
    {
      var c := VisitedViaChild(nodes, span, cursor, x);
      NotVisitedFromItself(nodes, span, cursor);
    }
  }

  lemma SubsetSize<T>(a: set<T>, b: set<T>)
    requires a <= b
    ensures |a| <= |b|
  {
    if a != b {
      assert b == a + (b - a);
    }
  }

  /** The critical path of `n` spans has at most `2 n - 1` fragments. */
  lemma PathIsShort(nodes: Nodes, span: SpanId)
    requires Timed(nodes) && Acyclic(nodes) && span in nodes
    ensures |PathOf(nodes, span)| <= 2 * |nodes| - 1
  {
    FragmentsPerSpan(nodes, span, EndOf(nodes, span));
    VisitedAreSpans(nodes, span, EndOf(nodes, span));
    SubsetSize(Visited(nodes, span, EndOf(nodes, span)), nodes.Keys - {span});
  }

  /** Each span of the chain is a child of the one before it. */
  ghost predicate IsChain(nodes: Nodes, chain: seq<SpanId>) {
    forall i, j :: 0 <= i && j == i + 1 < |chain| ==> ChildOf(nodes, chain[j], chain[i])
  }

  lemma {:induction false} ChainSteps(nodes: Nodes, chain: seq<SpanId>, i: nat, j: nat)
    requires IsChain(nodes, chain) && i <= j < |chain|
    ensures Up(nodes, chain[j], j - i) == Some(chain[i])
    decreases j - i
  {
    if i < j {
      ChainSteps(nodes, chain, i + 1, j);
      assert ChildOf(nodes, chain[i + 1], chain[i]);
    }
  }

  /** A chain of parents and children never repeats a span, so it is no longer than the trace. */
  lemma ChainIsShort(nodes: Nodes, chain: seq<SpanId>)
    requires Acyclic(nodes) && IsChain(nodes, chain) && forall i :: 0 <= i < |chain| ==> chain[i] in nodes
    ensures Distinct(chain) && |chain| <= |nodes|
  {
    forall i, j | 0 <= i < j < |chain|
      ensures chain[i] != chain[j]
    {
      ChainSteps(nodes, chain, i, j);
      assert !OnCycle(nodes, chain[j]);
    }
    DistinctIsBounded(chain, nodes.Keys);
  }
}
