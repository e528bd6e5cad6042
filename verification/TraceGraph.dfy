/** Parent graphs of a trace: spans, parent steps, cycles and descendants. */
module TraceGraph {
  import opened Prelude

  /** Eight identifier bytes, ordered as the big-endian number they spell. */
  type SpanId = id: nat | id <= 0xFFFF_FFFF_FFFF_FFFF

  /** Nanoseconds since the Unix epoch in a signed 64-bit integer. */
  type Instant = t: int | I64_MIN <= t <= I64_MAX

  datatype RawInterval = Interval(start: Instant, end: Instant)

  /** A usable interval never ends before it starts. */
  type Interval = i: RawInterval | i.start <= i.end witness Interval(0, 0)

  datatype Sampling = Unknown | NotSampled | Sampled

  datatype Node = Node(parent: Option<SpanId>, interval: Option<Interval>, sampling: Sampling,
                       conflicted: bool, selector: Byte)

  type Nodes = map<SpanId, Node>

  function ParentOf(nodes: Nodes, id: SpanId): Option<SpanId> {
    if id in nodes then nodes[id].parent else None
  }

  /** The span reached from `id` by exactly `k` parent steps, if there is one. */
  ghost function Up(nodes: Nodes, id: SpanId, k: nat): Option<SpanId> {
    if k == 0 then Some(id)
    else
      match Up(nodes, id, k - 1)
      case None => None
      case Some(x) => ParentOf(nodes, x)
  }

  ghost predicate OnCycle(nodes: Nodes, id: SpanId) {
    id in nodes && exists k: nat :: k >= 1 && Up(nodes, id, k) == Some(id)
  }

  ghost predicate Acyclic(nodes: Nodes) {
    forall id :: id in nodes ==> !OnCycle(nodes, id)
  }

  ghost predicate Reaches(nodes: Nodes, id: SpanId, target: SpanId) {
    exists k: nat :: Up(nodes, id, k) == Some(target)
  }

  /** Every span whose parent chain passes through `id`, `id` included. */
  ghost function Below(nodes: Nodes, id: SpanId): set<SpanId> {
    set x | x in nodes && Reaches(nodes, x, id)
  }

  ghost predicate ChildOf(nodes: Nodes, child: SpanId, parent: SpanId) {
    child in nodes && nodes[child].parent == Some(parent)
  }

  lemma {:induction false} UpAdd(nodes: Nodes, id: SpanId, a: nat, b: nat)
    ensures Up(nodes, id, a).None? ==> Up(nodes, id, a + b).None?
    ensures Up(nodes, id, a).Some? ==> Up(nodes, id, a + b) == Up(nodes, Up(nodes, id, a).value, b)
  {
    if b > 0 {
      UpAdd(nodes, id, a, b - 1);
      assert a + b - 1 == a + (b - 1);
    }
  }

  /** A child's descendants are strictly fewer than its parent's. */
  lemma BelowShrinks(nodes: Nodes, child: SpanId, parent: SpanId)
    requires Acyclic(nodes)
    requires parent in nodes && ChildOf(nodes, child, parent)
    ensures Below(nodes, child) < Below(nodes, parent)
  {
    forall x | x in Below(nodes, child)
      ensures x in Below(nodes, parent)
    {
      var k: nat :| Up(nodes, x, k) == Some(child);
      assert Up(nodes, x, k + 1) == Some(parent);
    }
    assert Up(nodes, parent, 0) == Some(parent);
    assert parent in Below(nodes, parent);
    forall k: nat
      ensures Up(nodes, parent, k) != Some(child)
    {
      assert Up(nodes, parent, k) == Some(child) ==> Up(nodes, parent, k + 1) == Some(parent);
    }
  }

  /** A span on a cycle never runs out of parents. */
  lemma {:induction false} CycleNeverLeaves(nodes: Nodes, id: SpanId, k: nat, m: nat)
    requires id in nodes && k >= 1 && Up(nodes, id, k) == Some(id)
    ensures Up(nodes, id, m).Some? && Up(nodes, id, m).value in nodes
    decreases m
  {
    if m >= k {
      UpAdd(nodes, id, k, m - k);
      CycleNeverLeaves(nodes, id, k, m - k);
    } else {
      UpAdd(nodes, id, m, k - m);
      var x := Up(nodes, id, m).value;
      UpAdd(nodes, x, 1, k - m - 1);
      assert Up(nodes, x, 1) == ParentOf(nodes, x) by {
        assert Up(nodes, x, 0) == Some(x);
      }
    }
  }

  /** A span on a cycle comes back to itself after every multiple of the period. */
  lemma {:induction false} CycleRepeats(nodes: Nodes, id: SpanId, k: nat, t: nat)
    requires k >= 1 && Up(nodes, id, k) == Some(id)
    ensures Up(nodes, id, k * t) == Some(id)
  {
    if t > 0 {
      CycleRepeats(nodes, id, k, t - 1);
      UpAdd(nodes, id, k * (t - 1), k);
      assert k * t == k * (t - 1) + k;
    }
  }

  /** Every span above a cyclic span leads back to it. */
  lemma CycleReturns(nodes: Nodes, id: SpanId, m: nat, x: SpanId) returns (t: nat)
    requires OnCycle(nodes, id) && Up(nodes, id, m) == Some(x)
    ensures Up(nodes, x, t) == Some(id)
  {
    var k: nat :| k >= 1 && Up(nodes, id, k) == Some(id);
    CycleRepeats(nodes, id, k, m);
    MulAtLeast(k, m);
    t := k * m - m;
    UpAdd(nodes, id, m, t);
  }

  /** The trail of parents walked so far: `trail[i]` is `i` steps above `origin`. */
  ghost predicate IsTrail(nodes: Nodes, origin: SpanId, trail: seq<SpanId>) {
    && Distinct(trail)
    && (forall i :: 0 <= i < |trail| ==> trail[i] in nodes && Up(nodes, origin, i) == Some(trail[i]))
  }

  lemma TrailIsBounded(nodes: Nodes, origin: SpanId, trail: seq<SpanId>)
    requires IsTrail(nodes, origin, trail)
    ensures |trail| <= |nodes|
  {
    assert forall x :: x in trail ==> x in nodes.Keys;
    DistinctIsBounded(trail, nodes.Keys);
    assert |nodes.Keys| == |nodes|;
  }

  /** Once a walk re-enters its trail at `start`, it stays in `trail[start..]` for ever. */
  lemma {:induction false} WalkStaysInLoop(nodes: Nodes, origin: SpanId, trail: seq<SpanId>, start: nat, m: nat)
    requires IsTrail(nodes, origin, trail)
    requires start < |trail| && Up(nodes, origin, |trail|) == Some(trail[start])
    requires m >= start
    ensures Up(nodes, origin, m).Some? && Up(nodes, origin, m).value in trail[start..]
    decreases m
  {
    if m >= |trail| {
      var period := |trail| - start;
      UpAdd(nodes, origin, |trail|, m - |trail|);
      UpAdd(nodes, origin, start, m - |trail|);
      assert start + (m - |trail|) == m - period;
      WalkStaysInLoop(nodes, origin, trail, start, m - period);
    } else {
      assert trail[start..][m - start] == trail[m];
    }
  }

  /** When a walk re-enters its trail at `start`, exactly the spans from `start` on
      are shown to be cyclic, and if the origin is cyclic then `start` is zero. */
  lemma LoopClosed(nodes: Nodes, origin: SpanId, trail: seq<SpanId>, start: nat)
    requires IsTrail(nodes, origin, trail)
    requires start < |trail| && Up(nodes, origin, |trail|) == Some(trail[start])
    ensures forall i :: start <= i < |trail| ==> OnCycle(nodes, trail[i])
    ensures OnCycle(nodes, origin) ==> start == 0
    ensures forall i :: 0 <= i < start ==> !OnCycle(nodes, trail[i])
  {
    var period := |trail| - start;
    forall i | start <= i < |trail|
      ensures OnCycle(nodes, trail[i])
    {
      UpAdd(nodes, origin, |trail|, i - start);
      UpAdd(nodes, origin, start, i - start);
      UpAdd(nodes, origin, i, period);
      assert Up(nodes, trail[i], period) == Some(trail[i]);
    }
    forall i | 0 <= i < start
      ensures !OnCycle(nodes, trail[i])
    {
      if OnCycle(nodes, trail[i]) {
        var k: nat :| k >= 1 && Up(nodes, trail[i], k) == Some(trail[i]);
        CycleRepeats(nodes, trail[i], k, |trail|);
        UpAdd(nodes, origin, i, k * |trail|);
        assert k * |trail| >= |trail| by { MulAtLeast(k, |trail|); }
        WalkStaysInLoop(nodes, origin, trail, start, i + k * |trail|);
        assert false;
      }
    }
    assert origin == trail[0];
  }

  lemma MulAtLeast(k: nat, n: nat)
    requires k >= 1
    ensures k * n >= n
  {
    assert k * n == (k - 1) * n + n;
  }

  /** A walk that runs out of known parents meets no cyclic span. */
  lemma OpenWalkHasNoCycle(nodes: Nodes, origin: SpanId, trail: seq<SpanId>)
    requires IsTrail(nodes, origin, trail)
    requires Up(nodes, origin, |trail|).None? || Up(nodes, origin, |trail|).value !in nodes
    ensures forall i :: 0 <= i < |trail| ==> !OnCycle(nodes, trail[i])
  {
    forall i | 0 <= i < |trail|
      ensures !OnCycle(nodes, trail[i])
    {
      if OnCycle(nodes, trail[i]) {
        var k: nat :| k >= 1 && Up(nodes, trail[i], k) == Some(trail[i]);
        UpAdd(nodes, origin, i, |trail| - i);
        CycleNeverLeaves(nodes, trail[i], k, |trail| - i);
      }
    }
  }

  ghost predicate NoMissingParents(nodes: Nodes) {
    forall id :: id in nodes && nodes[id].parent.Some? ==> nodes[id].parent.value in nodes
  }

  /** Walks from `origin` to a parentless span, collecting the trail. */
  lemma {:induction false} WalkToRoot(nodes: Nodes, origin: SpanId, trail: seq<SpanId>) returns (full: seq<SpanId>)
    requires Acyclic(nodes) && NoMissingParents(nodes)
    requires |trail| > 0 && IsTrail(nodes, origin, trail)
    ensures |full| > 0 && IsTrail(nodes, origin, full)
    ensures nodes[full[|full| - 1]].parent.None?
    decreases |nodes| - |trail|
  {
    TrailIsBounded(nodes, origin, trail);
    var last := trail[|trail| - 1];
    if nodes[last].parent.None? {
      full := trail;
    } else {
      var next := nodes[last].parent.value;
      assert Up(nodes, origin, |trail|) == Some(next);
      if next in trail {
        var start :| 0 <= start < |trail| && trail[start] == next;
        LoopClosed(nodes, origin, trail, start);
        assert false;
      }
      TrailIsBounded(nodes, origin, trail + [next]);
      full := WalkToRoot(nodes, origin, trail + [next]);
    }
  }

  /** With no cycle, no missing parent and one root, every span reaches that root in
      fewer parent steps than there are spans. */
  lemma EverySpanReachesTheRoot(nodes: Nodes, root: SpanId, id: SpanId)
    requires Acyclic(nodes) && NoMissingParents(nodes)
    requires forall r :: r in nodes && nodes[r].parent.None? ==> r == root
    requires id in nodes
    ensures exists k: nat :: k < |nodes| && Up(nodes, id, k) == Some(root)
  {
    assert Up(nodes, id, 0) == Some(id);
    var trail := WalkToRoot(nodes, id, [id]);
    TrailIsBounded(nodes, id, trail);
    assert Up(nodes, id, |trail| - 1) == Some(root);
  }
}
