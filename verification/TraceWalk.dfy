/** The store's critical path: one backwards walk with an explicit stack over the arranged children.
    It produces the very fragments of the reference expansion. */
module TraceWalk {
  import opened Prelude
  import opened TraceGraph
  import opened TraceSchedule
  import opened TraceStructure
  import opened TraceCriticalPath
  import opened TraceOrder
  import opened TraceIndex
  import opened TraceAdjacency
  import opened TraceBounds

  function RanksOf(spans: seq<Span>): (r: seq<Rank>)
    requires AllTimed(spans)
    ensures |r| == |spans| && forall i :: 0 <= i < |r| ==> r[i] == Rank(spans[i].interval.value.end, spans[i].id)
  {
    seq(|spans|, i requires 0 <= i < |spans| => Rank(spans[i].interval.value.end, spans[i].id))
  }

  predicate AllTimed(spans: seq<Span>) {
    forall i :: 0 <= i < |spans| ==> spans[i].interval.Some?
  }

  /** The walk's inputs: a clean trace, its index and its adjacency. */
  ghost predicate Prepared(spans: seq<Span>, nodes: Nodes, parents: seq<Option<nat>>, ranges: seq<ChildRange>,
                           children: seq<nat>)
  {
    && IdsAscend(spans) && Represents(spans, nodes) && IsIndex(spans, parents) && AllTimed(spans)
    && IsAdjacency(RanksOf(spans), parents, ranges, children)
  }

  /** A child that starts before the cursor and has returned by it. */
  predicate Open(spans: seq<Span>, c: nat, cursor: Instant)
    requires c < |spans| && AllTimed(spans)
  {
    spans[c].interval.value.start < cursor && spans[c].interval.value.end <= cursor
  }

  /** The positions `from..to` of the child list hold no open child. */
  ghost predicate NoneOpen(spans: seq<Span>, children: seq<nat>, from: nat, to: nat, cursor: Instant)
    requires AllTimed(spans)
  {
    forall k :: from <= k < to && k < |children| && children[k] < |spans| ==> !Open(spans, children[k], cursor)
  }

  lemma RangeBounds(spans: seq<Span>, nodes: Nodes, parents: seq<Option<nat>>, ranges: seq<ChildRange>,
                    children: seq<nat>, p: nat)
    requires Prepared(spans, nodes, parents, ranges, children) && p < |spans|
    ensures p < |ranges| && ranges[p].start <= ranges[p].end <= |children|
    ensures children[ranges[p].start..ranges[p].end] == RangeOf(parents, children, p)
    ensures forall k :: ranges[p].start <= k < ranges[p].end ==> children[k] < |spans| && parents[children[k]] == Some(p)
  {
    assert Placed(parents, ranges[p], p, 0) && Arranged(RanksOf(spans), parents, children, p);
    KidsMembers(parents, p, |parents|);
    var range := RangeOf(parents, children, p);
    forall k | ranges[p].start <= k < ranges[p].end
      ensures children[k] < |spans| && parents[children[k]] == Some(p)
    {
      assert range[k - ranges[p].start] == children[k];
      assert children[k] in multiset(range);
      assert children[k] in Kids(parents, p, |parents|);
    }
  }

  /** Scans on from `next` for an open child. */
  method NextChild(spans: seq<Span>, ghost nodes: Nodes, ghost parents: seq<Option<nat>>, ranges: seq<ChildRange>,
                   children: seq<nat>, p: nat, next: nat, cursor: Instant) returns (child: Option<nat>, after: nat)
    requires Prepared(spans, nodes, parents, ranges, children)
    requires p < |spans| && p < |ranges| && ranges[p].start <= next <= ranges[p].end
    ensures next <= after <= ranges[p].end <= |children|
    ensures child.None? ==> after == ranges[p].end && NoneOpen(spans, children, next, after, cursor)
    ensures child.Some? ==>
              && next < after && child.value == children[after - 1] && child.value < |spans| && parents[child.value] == Some(p)
              && Open(spans, child.value, cursor) && NoneOpen(spans, children, next, after - 1, cursor)
  {
    RangeBounds(spans, nodes, parents, ranges, children, p);
    after := next;
    while after < ranges[p].end
      invariant next <= after <= ranges[p].end
      invariant NoneOpen(spans, children, next, after, cursor)
    {
      var position := after;
      after := after + 1;
      var c := children[position];
      if spans[c].interval.value.start < cursor && spans[c].interval.value.end <= cursor {
        return Some(c), after;
      }
    }
    child := None;
  }

  /** An eligible child of the node map stands, open, at some position of its parent's range. */
  lemma EligibleIsListed(spans: seq<Span>, nodes: Nodes, parents: seq<Option<nat>>, ranges: seq<ChildRange>,
                         children: seq<nat>, p: nat, cursor: Instant, id: SpanId) returns (k: nat)
    requires Prepared(spans, nodes, parents, ranges, children) && p < |spans|
    requires Eligible(nodes, spans[p].id, cursor, id)
    ensures p < |ranges| && ranges[p].start <= k < ranges[p].end <= |children|
    ensures children[k] < |spans| && spans[children[k]].id == id && Open(spans, children[k], cursor)
  {
    RangeBounds(spans, nodes, parents, ranges, children, p);
    assert Listed(spans, id);
    var j :| 0 <= j < |spans| && spans[j].id == id;
    assert SameSpan(spans[j], nodes[id]);
    assert Locates(spans, j, parents[j]);
    assert parents[j] == Some(p);
    assert Arranged(RanksOf(spans), parents, children, p);
    var m := KidIsArranged(RanksOf(spans), parents, children, p, j);
    k := ranges[p].start + m;
    assert children[k] == RangeOf(parents, children, p)[m];
  }

  lemma KidIsArranged(ranks: seq<Rank>, parents: seq<Option<nat>>, children: seq<nat>, p: nat, j: nat) returns (m: nat)
    requires Arranged(ranks, parents, children, p) && j < |parents| && parents[j] == Some(p)
    ensures m < |RangeOf(parents, children, p)| && RangeOf(parents, children, p)[m] == j
  {
    var range := RangeOf(parents, children, p);
    KidsMembers(parents, p, |parents|);
    assert j in multiset(Kids(parents, p, |parents|));
    assert j in range;
    m :| 0 <= m < |range| && range[m] == j;
  }

  lemma OpenIsEligible(spans: seq<Span>, nodes: Nodes, parents: seq<Option<nat>>, p: nat, c: nat, cursor: Instant)
    requires IsIndex(spans, parents) && Represents(spans, nodes) && AllTimed(spans)
    requires p < |spans| && c < |spans| && parents[c] == Some(p) && Open(spans, c, cursor)
    ensures Eligible(nodes, spans[p].id, cursor, spans[c].id)
  {
    assert Locates(spans, c, parents[c]);
    assert SameSpan(spans[c], nodes[spans[c].id]);
  }

  /** Nothing before the scan's start was open, so the first open child is the best one. */
  lemma ScanFindsBest(spans: seq<Span>, nodes: Nodes, parents: seq<Option<nat>>, ranges: seq<ChildRange>,
                      children: seq<nat>, p: nat, cursor: Instant, at: nat)
    requires Prepared(spans, nodes, parents, ranges, children) && p < |spans|
    requires p < |ranges| && ranges[p].start <= at < ranges[p].end <= |children|
    requires children[at] < |spans| && parents[children[at]] == Some(p) && Open(spans, children[at], cursor)
    requires NoneOpen(spans, children, ranges[p].start, at, cursor)
    ensures IsBest(nodes, spans[p].id, cursor, spans[children[at]].id)
  {
    var best := spans[children[at]].id;
    OpenIsEligible(spans, nodes, parents, p, children[at], cursor);
    forall o | Eligible(nodes, spans[p].id, cursor, o) && o != best
      ensures Better(nodes, best, o)
    {
      var k := EligibleIsListed(spans, nodes, parents, ranges, children, p, cursor, o);
      assert k > at;
      RangeBounds(spans, nodes, parents, ranges, children, p);
      assert Arranged(RanksOf(spans), parents, children, p);
      var range := RangeOf(parents, children, p);
      var i, j := at - ranges[p].start, k - ranges[p].start;
      assert range[i] == children[at] && range[j] == children[k];
      assert !Precedes(RanksOf(spans)[range[j]], RanksOf(spans)[range[i]]);
      assert SameSpan(spans[children[k]], nodes[o]) && SameSpan(spans[children[at]], nodes[best]);
    }
  }

  lemma ScanFindsNone(spans: seq<Span>, nodes: Nodes, parents: seq<Option<nat>>, ranges: seq<ChildRange>,
                      children: seq<nat>, p: nat, cursor: Instant)
    requires Prepared(spans, nodes, parents, ranges, children) && p < |spans| && p < |ranges|
    requires NoneOpen(spans, children, ranges[p].start, ranges[p].end, cursor)
    ensures !HasEligible(nodes, spans[p].id, cursor)
  {
    forall id | Eligible(nodes, spans[p].id, cursor, id)
      ensures false
    {
      var k := EligibleIsListed(spans, nodes, parents, ranges, children, p, cursor, id);
    }
  }

  datatype Frame = Frame(span: nat, start: Instant, cursor: Instant, next: nat)

  /** A frame covers its span up to the cursor, and every child it has scanned past is closed. */
  ghost predicate Framed(spans: seq<Span>, nodes: Nodes, ranges: seq<ChildRange>, children: seq<nat>, f: Frame)
    requires AllTimed(spans)
  {
    && f.span < |spans| && f.span < |ranges| && HasTime(nodes, spans[f.span].id)
    && f.start == StartOf(nodes, spans[f.span].id) <= f.cursor <= EndOf(nodes, spans[f.span].id)
    && ranges[f.span].start <= f.next <= ranges[f.span].end
    && NoneOpen(spans, children, ranges[f.span].start, f.next, f.cursor)
  }

  ghost predicate AllFramed(spans: seq<Span>, nodes: Nodes, ranges: seq<ChildRange>, children: seq<nat>, stack: seq<Frame>)
    requires AllTimed(spans)
  {
    forall i :: 0 <= i < |stack| ==> Framed(spans, nodes, ranges, children, stack[i])
  }

  /** The number of turns the walk takes for the part of `span` up to `cursor`. */
  ghost function Turns(nodes: Nodes, span: SpanId, cursor: Instant): nat
    requires Timed(nodes) && Acyclic(nodes) && span in nodes
    decreases Below(nodes, span), cursor - I64_MIN
  {
    if HasEligible(nodes, span, cursor) then
      var child := Best(nodes, span, cursor);
      BelowShrinks(nodes, child, span);
      1 + Turns(nodes, span, StartOf(nodes, child)) + Turns(nodes, child, EndOf(nodes, child))
    else 1
  }

  ghost predicate Known(spans: seq<Span>, nodes: Nodes, stack: seq<Frame>) {
    forall i :: 0 <= i < |stack| ==> stack[i].span < |spans| && spans[stack[i].span].id in nodes
  }

  /** The fragments a stack still has to write, latest first. */
  ghost function Pending(spans: seq<Span>, nodes: Nodes, stack: seq<Frame>): seq<Fragment>
    requires Timed(nodes) && Acyclic(nodes) && Known(spans, nodes, stack)
  {
    if stack == [] then []
    else
      var top := stack[|stack| - 1];
      Reverse(PathUpTo(nodes, spans[top.span].id, top.cursor)) + Pending(spans, nodes, stack[..|stack| - 1])
  }

  ghost function Remaining(spans: seq<Span>, nodes: Nodes, stack: seq<Frame>): nat
    requires Timed(nodes) && Acyclic(nodes) && Known(spans, nodes, stack)
  {
    if stack == [] then 0
    else
      var top := stack[|stack| - 1];
      Turns(nodes, spans[top.span].id, top.cursor) + Remaining(spans, nodes, stack[..|stack| - 1])
  }

  lemma ReverseGap(span: SpanId, start: Instant, end: Instant)
    ensures Reverse(Gap(span, start, end)) == Gap(span, start, end)
  {
    if start < end {
      assert Reverse([Fragment(span, start, end)]) == [Fragment(span, start, end)];
    }
  }

  /** The latest-first path of a span with an eligible child. */
  lemma {:induction false} PathReversed(nodes: Nodes, span: SpanId, cursor: Instant, child: SpanId)
    requires Timed(nodes) && Acyclic(nodes) && span in nodes && IsBest(nodes, span, cursor, child)
    ensures Turns(nodes, span, cursor) ==
            1 + Turns(nodes, span, StartOf(nodes, child)) + Turns(nodes, child, EndOf(nodes, child))
    ensures Reverse(PathUpTo(nodes, span, cursor)) ==
            Gap(span, EndOf(nodes, child), cursor) + Reverse(PathOf(nodes, child)) +
            Reverse(PathUpTo(nodes, span, StartOf(nodes, child)))
  {
    assert Best(nodes, span, cursor) == child;
    var earlier, inside := PathUpTo(nodes, span, StartOf(nodes, child)), PathOf(nodes, child);
    var gap := Gap(span, EndOf(nodes, child), cursor);
    ReverseConcat(earlier + inside, gap);
    ReverseConcat(earlier, inside);
    ReverseGap(span, EndOf(nodes, child), cursor);
    assert gap + (Reverse(inside) + Reverse(earlier)) == gap + Reverse(inside) + Reverse(earlier);
  }

  method AppendFragment(fragments: seq<Fragment>, span: SpanId, start: Instant, end: Instant)
    returns (r: Result<seq<Fragment>, Failure>)
    ensures r == if end < start then Err(InvalidInput) else Ok(fragments + Gap(span, start, end))
  {
    if end < start {
      return Err(InvalidInput);
    }
    assert fragments + [] == fragments;
    r := Ok(if end > start then fragments + [Fragment(span, start, end)] else fragments);
  }

  function NewFrame(spans: seq<Span>, ranges: seq<ChildRange>, p: nat): Frame
    requires AllTimed(spans) && p < |spans| && p < |ranges|
  {
    Frame(p, spans[p].interval.value.start, spans[p].interval.value.end, ranges[p].start)
  }

  /** Entering a child: its frame goes on the stack and its parent's cursor moves to the child's start. */
  lemma Descend(spans: seq<Span>, nodes: Nodes, parents: seq<Option<nat>>, ranges: seq<ChildRange>,
                children: seq<nat>, f: Frame, c: nat, after: nat)
    requires Prepared(spans, nodes, parents, ranges, children) && Timed(nodes) && Acyclic(nodes) && Nested(nodes)
    requires Framed(spans, nodes, ranges, children, f)
    requires f.next < after <= ranges[f.span].end <= |children|
    requires c == children[after - 1] && c < |spans| && parents[c] == Some(f.span) && Open(spans, c, f.cursor)
    requires NoneOpen(spans, children, f.next, after - 1, f.cursor)
    ensures c < |ranges| && HasTime(nodes, spans[c].id)
    ensures IsBest(nodes, spans[f.span].id, f.cursor, spans[c].id)
    ensures spans[c].interval.value == nodes[spans[c].id].interval.value
    ensures Framed(spans, nodes, ranges, children, f.(cursor := StartOf(nodes, spans[c].id), next := after))
    ensures Framed(spans, nodes, ranges, children, NewFrame(spans, ranges, c))
  {
    ScanFindsBest(spans, nodes, parents, ranges, children, f.span, f.cursor, after - 1);
    RangeBounds(spans, nodes, parents, ranges, children, c);
    assert SameSpan(spans[c], nodes[spans[c].id]);
    assert !Escapes(nodes, spans[c].id);
  }

  ghost predicate Walkable(nodes: Nodes) {
    Timed(nodes) && Acyclic(nodes) && Nested(nodes)
  }

  lemma {:induction false} Pushed(spans: seq<Span>, nodes: Nodes, stack: seq<Frame>, f: Frame)
    requires Timed(nodes) && Acyclic(nodes) && Known(spans, nodes, stack)
    requires f.span < |spans| && spans[f.span].id in nodes
    ensures Known(spans, nodes, stack + [f])
    ensures Remaining(spans, nodes, stack + [f]) ==
            Turns(nodes, spans[f.span].id, f.cursor) + Remaining(spans, nodes, stack)
    ensures Pending(spans, nodes, stack + [f]) ==
            Reverse(PathUpTo(nodes, spans[f.span].id, f.cursor)) + Pending(spans, nodes, stack)
  {
    assert (stack + [f])[..|stack|] == stack;
  }

  /** Entering the best child leaves the same path to write, one turn shorter. */
  lemma {:induction false} DescendsThePath(spans: seq<Span>, nodes: Nodes, rest: seq<Frame>, top: Frame, lower: Frame,
                                           upper: Frame)
    requires Timed(nodes) && Acyclic(nodes) && Known(spans, nodes, rest + [top])
    requires lower.span == top.span && upper.span < |spans| && spans[upper.span].id in nodes
    requires (rest + [top])[|rest|] == top
    requires IsBest(nodes, spans[top.span].id, top.cursor, spans[upper.span].id)
    requires lower.cursor == StartOf(nodes, spans[upper.span].id) && upper.cursor == EndOf(nodes, spans[upper.span].id)
    ensures Known(spans, nodes, rest + [lower] + [upper])
    ensures Remaining(spans, nodes, rest + [lower] + [upper]) < Remaining(spans, nodes, rest + [top])
    ensures Pending(spans, nodes, rest + [top]) ==
            Gap(spans[top.span].id, upper.cursor, top.cursor) + Pending(spans, nodes, rest + [lower] + [upper])
  {
    assert Known(spans, nodes, rest) by {
      assert forall i :: 0 <= i < |rest| ==> (rest + [top])[i] == rest[i];
    }
    Pushed(spans, nodes, rest, top);
    Pushed(spans, nodes, rest, lower);
    Pushed(spans, nodes, rest + [lower], upper);
    PathReversed(nodes, spans[top.span].id, top.cursor, spans[upper.span].id);
    Regrouped(Gap(spans[top.span].id, upper.cursor, top.cursor), Reverse(PathOf(nodes, spans[upper.span].id)),
              Reverse(PathUpTo(nodes, spans[top.span].id, lower.cursor)), Pending(spans, nodes, rest));
  }

  lemma Regrouped(a: seq<Fragment>, b: seq<Fragment>, c: seq<Fragment>, d: seq<Fragment>)
    ensures (a + b + c) + d == a + (b + (c + d))
  {
  }

  /** Leaving a span without an eligible child writes its remaining time. */
  lemma {:induction false} LeavesThePath(spans: seq<Span>, nodes: Nodes, rest: seq<Frame>, top: Frame)
    requires Timed(nodes) && Acyclic(nodes) && Known(spans, nodes, rest) && top.span < |spans| && spans[top.span].id in nodes
    requires !HasEligible(nodes, spans[top.span].id, top.cursor)
    ensures Known(spans, nodes, rest + [top])
    ensures Remaining(spans, nodes, rest) < Remaining(spans, nodes, rest + [top])
    ensures Pending(spans, nodes, rest + [top]) ==
            Gap(spans[top.span].id, StartOf(nodes, spans[top.span].id), top.cursor) + Pending(spans, nodes, rest)
  {
    Pushed(spans, nodes, rest, top);
    ReverseGap(spans[top.span].id, StartOf(nodes, spans[top.span].id), top.cursor);
  }

  /** What the walk keeps: the fragments written and those the stack still owes are the path. */
  ghost predicate Owes(spans: seq<Span>, nodes: Nodes, stack: seq<Frame>, fragments: seq<Fragment>, path: seq<Fragment>)
  {
    && Timed(nodes) && Acyclic(nodes) && Known(spans, nodes, stack)
    && path == fragments + Pending(spans, nodes, stack)
  }

  lemma {:induction false} OwesAfterEntering(spans: seq<Span>, nodes: Nodes, rest: seq<Frame>, top: Frame, lower: Frame,
                                             upper: Frame, fragments: seq<Fragment>, path: seq<Fragment>)
    requires Owes(spans, nodes, rest + [top], fragments, path) && (rest + [top])[|rest|] == top
    requires lower.span == top.span && upper.span < |spans| && spans[upper.span].id in nodes
    requires IsBest(nodes, spans[top.span].id, top.cursor, spans[upper.span].id)
    requires lower.cursor == StartOf(nodes, spans[upper.span].id) && upper.cursor == EndOf(nodes, spans[upper.span].id)
    ensures Owes(spans, nodes, rest + [lower] + [upper], fragments + Gap(spans[top.span].id, upper.cursor, top.cursor), path)
    ensures Remaining(spans, nodes, rest + [lower] + [upper]) < Remaining(spans, nodes, rest + [top])
  {
    DescendsThePath(spans, nodes, rest, top, lower, upper);
    var gap := Gap(spans[top.span].id, upper.cursor, top.cursor);
    assert fragments + (gap + Pending(spans, nodes, rest + [lower] + [upper]))
           == (fragments + gap) + Pending(spans, nodes, rest + [lower] + [upper]);
  }

  lemma {:induction false} OwesAfterLeaving(spans: seq<Span>, nodes: Nodes, rest: seq<Frame>, top: Frame,
                                            fragments: seq<Fragment>, path: seq<Fragment>)
    requires Owes(spans, nodes, rest + [top], fragments, path) && (rest + [top])[|rest|] == top
    requires !HasEligible(nodes, spans[top.span].id, top.cursor)
    ensures Owes(spans, nodes, rest,
                 fragments + Gap(spans[top.span].id, StartOf(nodes, spans[top.span].id), top.cursor), path)
    ensures Remaining(spans, nodes, rest) < Remaining(spans, nodes, rest + [top])
  {
    assert Known(spans, nodes, rest) by {
      assert forall i :: 0 <= i < |rest| ==> (rest + [top])[i] == rest[i];
    }
    LeavesThePath(spans, nodes, rest, top);
    var gap := Gap(spans[top.span].id, StartOf(nodes, spans[top.span].id), top.cursor);
    assert fragments + (gap + Pending(spans, nodes, rest)) == (fragments + gap) + Pending(spans, nodes, rest);
  }

  lemma {:induction false} EnterChild(spans: seq<Span>, nodes: Nodes, parents: seq<Option<nat>>, ranges: seq<ChildRange>,
                                      children: seq<nat>, rest: seq<Frame>, top: Frame, c: nat, after: nat,
                                      fragments: seq<Fragment>, path: seq<Fragment>)
    requires Prepared(spans, nodes, parents, ranges, children) && Walkable(nodes)
    requires AllFramed(spans, nodes, ranges, children, rest) && Framed(spans, nodes, ranges, children, top)
    requires Owes(spans, nodes, rest + [top], fragments, path)
    requires top.next < after <= ranges[top.span].end <= |children|
    requires c == children[after - 1] && c < |spans| && parents[c] == Some(top.span) && Open(spans, c, top.cursor)
    requires NoneOpen(spans, children, top.next, after - 1, top.cursor)
    ensures c < |ranges|
    ensures var lower := top.(cursor := spans[c].interval.value.start, next := after);
            var stack := rest + [lower] + [NewFrame(spans, ranges, c)];
            && AllFramed(spans, nodes, ranges, children, stack)
            && Owes(spans, nodes, stack,
                    fragments + Gap(spans[top.span].id, spans[c].interval.value.end, top.cursor), path)
            && Remaining(spans, nodes, stack) < Remaining(spans, nodes, rest + [top])
  {
    Descend(spans, nodes, parents, ranges, children, top, c, after);
    var lower := top.(cursor := spans[c].interval.value.start, next := after);
    OwesAfterEntering(spans, nodes, rest, top, lower, NewFrame(spans, ranges, c), fragments, path);
  }

  lemma {:induction false} LeaveSpan(spans: seq<Span>, nodes: Nodes, parents: seq<Option<nat>>, ranges: seq<ChildRange>,
                                     children: seq<nat>, rest: seq<Frame>, top: Frame, fragments: seq<Fragment>,
                                     path: seq<Fragment>)
    requires Prepared(spans, nodes, parents, ranges, children) && Walkable(nodes)
    requires Framed(spans, nodes, ranges, children, top) && Owes(spans, nodes, rest + [top], fragments, path)
    requires NoneOpen(spans, children, top.next, ranges[top.span].end, top.cursor)
    ensures Owes(spans, nodes, rest, fragments + Gap(spans[top.span].id, top.start, top.cursor), path)
    ensures Remaining(spans, nodes, rest) < Remaining(spans, nodes, rest + [top])
  {
    ScanFindsNone(spans, nodes, parents, ranges, children, top.span, top.cursor);
    OwesAfterLeaving(spans, nodes, rest, top, fragments, path);
  }

  /** The spans on the stack, the root first. */
  ghost function StackIds(spans: seq<Span>, stack: seq<Frame>): (r: seq<SpanId>)
    requires forall i :: 0 <= i < |stack| ==> stack[i].span < |spans|
    ensures |r| == |stack| && forall i :: 0 <= i < |stack| ==> r[i] == spans[stack[i].span].id
  {
    seq(|stack|, i requires 0 <= i < |stack| => spans[stack[i].span].id)
  }

  /** Every frame's span is a child of the span of the frame below it. */
  ghost predicate Nests(spans: seq<Span>, nodes: Nodes, stack: seq<Frame>) {
    Known(spans, nodes, stack) && IsChain(nodes, StackIds(spans, stack))
  }

  /** The stack after a child was entered. */
  lemma NestsDeeper(spans: seq<Span>, nodes: Nodes, rest: seq<Frame>, top: Frame, lower: Frame, upper: Frame)
    requires Nests(spans, nodes, rest + [top]) && lower.span == top.span && upper.span < |spans|
    requires top.span < |spans| && ChildOf(nodes, spans[upper.span].id, spans[top.span].id)
    ensures Nests(spans, nodes, rest + [lower] + [upper])
  {
    var before, after := rest + [top], rest + [lower] + [upper];
    assert forall i :: 0 <= i < |before| ==> after[i].span == before[i].span;
    assert after[|rest|] == lower && after[|rest| + 1] == upper && before[|rest|] == top;
    var a, b := StackIds(spans, before), StackIds(spans, after);
    assert forall i :: 0 <= i < |a| ==> b[i] == a[i];
  }

  /** And after one was left. */
  lemma NestsStill(spans: seq<Span>, nodes: Nodes, rest: seq<Frame>, top: Frame)
    requires Nests(spans, nodes, rest + [top])
    ensures Nests(spans, nodes, rest)
  {
    var before := rest + [top];
    assert forall i :: 0 <= i < |rest| ==> before[i] == rest[i];
    var a, b := StackIds(spans, before), StackIds(spans, rest);
    assert forall i :: 0 <= i < |b| ==> b[i] == a[i];
  }

  /** As many spans as nodes. */
  lemma SpansAreNodes(spans: seq<Span>, nodes: Nodes)
    requires IdsAscend(spans) && Represents(spans, nodes)
    ensures |nodes| == |spans|
  {
    var ids := seq(|spans|, i requires 0 <= i < |spans| => spans[i].id);
    assert forall i :: 0 <= i < |ids| ==> ids[i] == spans[i].id;
    assert forall id :: id in nodes ==> Listed(spans, id);
    assert Elements(ids) == nodes.Keys;
    DistinctIsCounted(ids);
  }

  /** The stack never holds more frames than there are spans. */
  lemma StackIsShort(spans: seq<Span>, nodes: Nodes, stack: seq<Frame>)
    requires IdsAscend(spans) && Represents(spans, nodes) && Acyclic(nodes) && Nests(spans, nodes, stack)
    ensures |stack| <= |spans|
  {
    ChainIsShort(nodes, StackIds(spans, stack));
    SpansAreNodes(spans, nodes);
  }

  /** One turn: writes the time after the next child, or after the start, and enters or leaves. */
  method Turn(spans: seq<Span>, ghost nodes: Nodes, ghost parents: seq<Option<nat>>, ranges: seq<ChildRange>,
              children: seq<nat>, before: seq<Fragment>, rest: seq<Frame>, top: Frame, ghost path: seq<Fragment>)
    returns (fragments: seq<Fragment>, stack: seq<Frame>)
    requires Prepared(spans, nodes, parents, ranges, children) && Walkable(nodes)
    requires AllFramed(spans, nodes, ranges, children, rest) && Framed(spans, nodes, ranges, children, top)
    requires Owes(spans, nodes, rest + [top], before, path) && Nests(spans, nodes, rest + [top])
    ensures AllFramed(spans, nodes, ranges, children, stack) && Owes(spans, nodes, stack, fragments, path)
    ensures Remaining(spans, nodes, stack) < Remaining(spans, nodes, rest + [top])
    ensures Nests(spans, nodes, stack)
  {
    var span := spans[top.span].id;
    var child, after := NextChild(spans, nodes, parents, ranges, children, top.span, top.next, top.cursor);
    if child.Some? {
      var c := child.value;
      EnterChild(spans, nodes, parents, ranges, children, rest, top, c, after, before, path);
      var appended := AppendFragment(before, span, spans[c].interval.value.end, top.cursor);
      var lower := top.(cursor := spans[c].interval.value.start, next := after);
      fragments, stack := appended.value, rest + [lower] + [NewFrame(spans, ranges, c)];
      ChildIsChild(spans, nodes, parents, c, top.span);
      NestsDeeper(spans, nodes, rest, top, lower, NewFrame(spans, ranges, c));
    } else {
      LeaveSpan(spans, nodes, parents, ranges, children, rest, top, before, path);
      var appended := AppendFragment(before, span, top.start, top.cursor);
      fragments, stack := appended.value, rest;
      NestsStill(spans, nodes, rest, top);
    }
  }

  lemma ChildIsChild(spans: seq<Span>, nodes: Nodes, parents: seq<Option<nat>>, c: nat, p: nat)
    requires IsIndex(spans, parents) && Represents(spans, nodes) && c < |spans| && p < |spans| && parents[c] == Some(p)
    ensures ChildOf(nodes, spans[c].id, spans[p].id)
  {
    assert Locates(spans, c, parents[c]);
    assert SameSpan(spans[c], nodes[spans[c].id]);
  }

  lemma {:induction false} FirstFrame(spans: seq<Span>, nodes: Nodes, parents: seq<Option<nat>>, ranges: seq<ChildRange>,
                                      children: seq<nat>, root: nat)
    requires Prepared(spans, nodes, parents, ranges, children) && root < |spans|
    ensures root < |ranges| && HasTime(nodes, spans[root].id)
    ensures NewFrame(spans, ranges, root).cursor == EndOf(nodes, spans[root].id)
    ensures Framed(spans, nodes, ranges, children, NewFrame(spans, ranges, root))
  {
    RangeBounds(spans, nodes, parents, ranges, children, root);
    assert SameSpan(spans[root], nodes[spans[root].id]);
  }

  lemma {:induction false} OwesAtFirst(spans: seq<Span>, nodes: Nodes, f: Frame)
    requires Timed(nodes) && Acyclic(nodes) && f.span < |spans| && spans[f.span].id in nodes
    ensures Owes(spans, nodes, [f], [], Reverse(PathUpTo(nodes, spans[f.span].id, f.cursor)))
  {
    assert [] + [f] == [f];
    Pushed(spans, nodes, [], f);
    assert Pending(spans, nodes, []) == [];
    var owed := Reverse(PathUpTo(nodes, spans[f.span].id, f.cursor));
    assert [] + (owed + []) == owed;
  }

  /** The walk writes the reference path, and none of its checks fails. */
  method WalkPath(spans: seq<Span>, ghost nodes: Nodes, ghost parents: seq<Option<nat>>, ranges: seq<ChildRange>,
                  children: seq<nat>, root: nat) returns (fragments: seq<Fragment>)
    requires Prepared(spans, nodes, parents, ranges, children) && Walkable(nodes) && root < |spans|
    ensures spans[root].id in nodes && fragments == PathOf(nodes, spans[root].id)
    ensures |fragments| <= 2 * |spans| - 1
  {
    PathIsShort(nodes, spans[root].id);
    SpansAreNodes(spans, nodes);
    FirstFrame(spans, nodes, parents, ranges, children, root);
    ghost var path := Reverse(PathOf(nodes, spans[root].id));
    fragments := [];
    var stack := [NewFrame(spans, ranges, root)];
    OwesAtFirst(spans, nodes, stack[0]);
    while stack != []
      invariant AllFramed(spans, nodes, ranges, children, stack)
      invariant Owes(spans, nodes, stack, fragments, path) && Nests(spans, nodes, stack)
      invariant |fragments| <= 2 * |spans| - 1 && |stack| <= |spans|
      decreases Remaining(spans, nodes, stack)
    {
      var rest, top := stack[..|stack| - 1], stack[|stack| - 1];
      assert stack == rest + [top];
      fragments, stack := Turn(spans, nodes, parents, ranges, children, fragments, rest, top, path);
      StackIsShort(spans, nodes, stack);
    }
    assert path == fragments;
    ReverseTwice(PathOf(nodes, spans[root].id));
    fragments := Reverse(fragments);
  }
}
