/** The store's own reading of a trace: parent positions found by binary search, and cycles found
    by one colouring pass over those positions. */
module TraceIndex {
  import opened Prelude
  import opened TraceGraph

  datatype Failure = InvalidInput | LimitExceeded

  datatype Span = Span(id: SpanId, parent: Option<SpanId>, interval: Option<Interval>, sampling: Sampling,
                       conflicted: bool)

  predicate IdsAscend(spans: seq<Span>) {
    forall i, j :: 0 <= i < j < |spans| ==> spans[i].id < spans[j].id
  }

  /** `nodes` holds the same spans as the store's list. */
  ghost predicate Represents(spans: seq<Span>, nodes: Nodes) {
    && (forall i :: 0 <= i < |spans| ==> spans[i].id in nodes && SameSpan(spans[i], nodes[spans[i].id]))
    && (forall id {:trigger Listed(spans, id)} :: id in nodes ==> Listed(spans, id))
  }

  ghost predicate Listed(spans: seq<Span>, id: SpanId) {
    exists i :: 0 <= i < |spans| && spans[i].id == id
  }

  ghost predicate SameSpan(span: Span, node: Node) {
    && span.parent == node.parent && span.interval == node.interval
    && span.sampling == node.sampling && span.conflicted == node.conflicted
  }

  method Find(spans: seq<Span>, id: SpanId) returns (r: Option<nat>)
    requires IdsAscend(spans)
    ensures r.Some? ==> r.value < |spans| && spans[r.value].id == id
    ensures r.None? ==> forall i :: 0 <= i < |spans| ==> spans[i].id != id
  {
    var low, high := 0, |spans|;
    while low < high
      invariant 0 <= low <= high <= |spans|
      invariant forall i :: 0 <= i < |spans| && !(low <= i < high) ==> spans[i].id != id
    {
      var middle := low + (high - low) / 2;
      if spans[middle].id < id {
        low := middle + 1;
      } else if spans[middle].id > id {
        high := middle;
      } else {
        return Some(middle);
      }
    }
    r := None;
  }

  /** The position of each span's parent, where that parent is in the list. */
  ghost predicate IsIndex(spans: seq<Span>, parents: seq<Option<nat>>) {
    && |parents| == |spans|
    && forall i :: 0 <= i < |spans| ==> Locates(spans, i, parents[i])
  }

  ghost predicate Locates(spans: seq<Span>, i: nat, parent: Option<nat>)
    requires i < |spans|
  {
    match parent
    case Some(j) => j < |spans| && spans[i].parent == Some(spans[j].id)
    case None => spans[i].parent.None? || forall j :: 0 <= j < |spans| ==> spans[j].id != spans[i].parent.value
  }

  method BuildIndex(spans: seq<Span>) returns (r: Result<seq<Option<nat>>, Failure>)
    ensures r.Ok? <==> IdsAscend(spans)
    ensures r.Ok? ==> IsIndex(spans, r.value)
  {
    for n := 0 to |spans|
      invariant forall i, j :: 0 <= i < j < n ==> spans[i].id < spans[j].id
    {
      if n > 0 && spans[n - 1].id >= spans[n].id {
        return Err(InvalidInput);
      }
    }
    var parents: seq<Option<nat>> := [];
    for n := 0 to |spans|
      invariant |parents| == n
      invariant forall i :: 0 <= i < n ==> Locates(spans, i, parents[i])
    {
      var located: Option<nat> := None;
      if spans[n].parent.Some? {
        located := Find(spans, spans[n].parent.value);
      }
      parents := parents + [located];
    }
    r := Ok(parents);
  }

  datatype CycleState = Unseen | Visiting | AcyclicSpan | CycleSpan

  predicate Settled(state: CycleState) {
    state.AcyclicSpan? || state.CycleSpan?
  }

  ghost function Ids(spans: seq<Span>, positions: seq<nat>): (r: seq<SpanId>)
    requires forall i :: 0 <= i < |positions| ==> positions[i] < |spans|
    ensures |r| == |positions| && forall i :: 0 <= i < |positions| ==> r[i] == spans[positions[i]].id
  {
    seq(|positions|, i requires 0 <= i < |positions| => spans[positions[i]].id)
  }

  /** Settled spans are classified rightly, and the parent of a settled span is settled. */
  ghost predicate Classified(spans: seq<Span>, parents: seq<Option<nat>>, nodes: Nodes, states: seq<CycleState>)
    requires IsIndex(spans, parents)
  {
    && |states| == |spans|
    && (forall i :: 0 <= i < |states| && Settled(states[i]) ==> (states[i].CycleSpan? <==> OnCycle(nodes, spans[i].id)))
    && (forall i {:trigger ParentSettled(parents, states, i)} :: 0 <= i < |states| ==> ParentSettled(parents, states, i))
  }

  ghost predicate ParentSettled(parents: seq<Option<nat>>, states: seq<CycleState>, i: nat)
    requires i < |parents| == |states|
  {
    Settled(states[i]) && parents[i].Some? ==> parents[i].value < |states| && Settled(states[parents[i].value])
  }

  ghost predicate Linked(parents: seq<Option<nat>>, trail: seq<nat>, n: nat)
    requires n + 1 < |trail|
  {
    trail[n] < |parents| && parents[trail[n]] == Some(trail[n + 1])
  }

  ghost predicate AllLinked(parents: seq<Option<nat>>, trail: seq<nat>) {
    forall n {:trigger Linked(parents, trail, n)} :: 0 <= n < |trail| - 1 ==> Linked(parents, trail, n)
  }

  /** Above a settled span there are only settled spans. */
  lemma {:induction false} SettledAbove(spans: seq<Span>, parents: seq<Option<nat>>, nodes: Nodes,
                                        states: seq<CycleState>, x: nat, t: nat) returns (y: nat)
    requires IdsAscend(spans) && IsIndex(spans, parents) && Represents(spans, nodes)
    requires Classified(spans, parents, nodes, states)
    requires x < |spans| && Settled(states[x])
    requires Up(nodes, spans[x].id, t).Some? && Up(nodes, spans[x].id, t).value in nodes
    ensures y < |spans| && Settled(states[y]) && Up(nodes, spans[x].id, t) == Some(spans[y].id)
    decreases t
  {
    if t == 0 {
      y := x;
    } else {
      assert Up(nodes, spans[x].id, t - 1).Some? && Up(nodes, spans[x].id, t - 1).value in nodes;
      var z := SettledAbove(spans, parents, nodes, states, x, t - 1);
      assert Locates(spans, z, parents[z]);
      assert Up(nodes, spans[x].id, t) == spans[z].parent;
      assert Listed(spans, Up(nodes, spans[x].id, t).value);
      assert ParentSettled(parents, states, z);
      y := parents[z].value;
    }
  }

  /** A walk that runs into a settled span found no cycle on its way. */
  lemma SettledEndsTheWalk(spans: seq<Span>, parents: seq<Option<nat>>, nodes: Nodes, states: seq<CycleState>,
                           trail: seq<nat>, x: nat, i: nat)
    requires IdsAscend(spans) && IsIndex(spans, parents) && Represents(spans, nodes)
    requires Classified(spans, parents, nodes, states)
    requires i < |trail| && (forall k :: 0 <= k < |trail| ==> trail[k] < |spans|) && !Settled(states[trail[i]])
    requires IsTrail(nodes, spans[trail[0]].id, Ids(spans, trail))
    requires x < |spans| && Settled(states[x])
    requires Up(nodes, spans[trail[0]].id, |trail|) == Some(spans[x].id)
    ensures !OnCycle(nodes, spans[trail[i]].id)
  {
    assert Ids(spans, trail)[i] == spans[trail[i]].id;
    UpAdd(nodes, spans[trail[0]].id, i, |trail| - i);
    if OnCycle(nodes, spans[trail[i]].id) {
      SettledOnNoOpenCycle(spans, parents, nodes, states, trail[i], |trail| - i, x);
    }
  }

  lemma SettledOnNoOpenCycle(spans: seq<Span>, parents: seq<Option<nat>>, nodes: Nodes, states: seq<CycleState>,
                             i: nat, m: nat, x: nat)
    requires IdsAscend(spans) && IsIndex(spans, parents) && Represents(spans, nodes)
    requires Classified(spans, parents, nodes, states)
    requires i < |spans| && x < |spans| && Settled(states[x])
    requires OnCycle(nodes, spans[i].id) && Up(nodes, spans[i].id, m) == Some(spans[x].id)
    ensures Settled(states[i])
  {
    var t := CycleReturns(nodes, spans[i].id, m, spans[x].id);
    var y := SettledAbove(spans, parents, nodes, states, x, t);
  }

  method ClassifyCycles(spans: seq<Span>, parents: seq<Option<nat>>, ghost nodes: Nodes)
    returns (states: seq<CycleState>)
    requires IdsAscend(spans) && IsIndex(spans, parents) && Represents(spans, nodes)
    ensures |states| == |spans|
    ensures forall i :: 0 <= i < |spans| ==> Settled(states[i])
    ensures forall i :: 0 <= i < |spans| ==> (states[i].CycleSpan? <==> OnCycle(nodes, spans[i].id))
  {
    states := seq(|parents|, _ => Unseen);
    for start := 0 to |parents|
      invariant Classified(spans, parents, nodes, states)
      invariant forall i :: 0 <= i < |states| ==> !states[i].Visiting?
      invariant forall i :: 0 <= i < start ==> Settled(states[i])
    {
      if states[start].Unseen? {
        states := ClassifyFrom(spans, parents, nodes, states, start);
      }
    }
  }

  /** The positions walked from `start` so far. */
  ghost predicate Walked(spans: seq<Span>, parents: seq<Option<nat>>, nodes: Nodes, start: nat, trail: seq<nat>)
    requires start < |spans|
  {
    && (forall i :: 0 <= i < |trail| ==> trail[i] < |spans|)
    && (trail != [] ==> trail[0] == start)
    && AllLinked(parents, trail)
    && IsTrail(nodes, spans[start].id, Ids(spans, trail))
  }

  /** The visiting positions are exactly the walked ones; nothing else changed. */
  ghost predicate Marked(before: seq<CycleState>, states: seq<CycleState>, trail: seq<nat>) {
    && |states| == |before|
    && (forall i :: 0 <= i < |trail| ==> trail[i] < |before| && before[trail[i]].Unseen?)
    && (forall i :: 0 <= i < |states| ==> states[i] == if i in trail then Visiting else before[i])
  }

  /** Where the walk stands: at the position its next step up leads to, or nowhere. */
  ghost predicate StandsAt(spans: seq<Span>, nodes: Nodes, start: nat, steps: nat, current: Option<nat>)
    requires start < |spans|
  {
    match current
    case Some(at) => at < |spans| && Up(nodes, spans[start].id, steps) == Some(spans[at].id)
    case None => Up(nodes, spans[start].id, steps).None? || Up(nodes, spans[start].id, steps).value !in nodes
  }

  ghost predicate Stepped(parents: seq<Option<nat>>, start: nat, trail: seq<nat>, current: Option<nat>)
    requires forall i :: 0 <= i < |trail| ==> trail[i] < |parents|
  {
    if trail == [] then current == Some(start) else current == parents[trail[|trail| - 1]]
  }

  method ClassifyFrom(spans: seq<Span>, parents: seq<Option<nat>>, ghost nodes: Nodes,
                      before: seq<CycleState>, start: nat) returns (states: seq<CycleState>)
    requires IdsAscend(spans) && IsIndex(spans, parents) && Represents(spans, nodes)
    requires Classified(spans, parents, nodes, before)
    requires forall i :: 0 <= i < |before| ==> !before[i].Visiting?
    requires start < |before| && before[start].Unseen?
    ensures Classified(spans, parents, nodes, states)
    ensures forall i :: 0 <= i < |states| ==> !states[i].Visiting?
    ensures forall i :: 0 <= i < |states| && Settled(before[i]) ==> states[i] == before[i]
    ensures Settled(states[start])
  {
    var trail, current, cycleStart;
    states, trail, current, cycleStart := WalkUp(spans, parents, nodes, before, start);
    WalkEnds(spans, parents, nodes, before, states, start, trail, current, cycleStart);
    DistinctPositions(spans, trail);
    states := Repaint(before, states, trail, cycleStart);
    assert states[trail[0]] == StateAt(0, cycleStart);
    WalkSettled(spans, parents, nodes, before, states, trail, current, cycleStart);
  }

  /** Gives every span of the trail its final state. */
  method Repaint(ghost before: seq<CycleState>, walked: seq<CycleState>, trail: seq<nat>, cycleStart: Option<nat>)
    returns (states: seq<CycleState>)
    requires Distinct(trail) && Marked(before, walked, trail)
    ensures |states| == |before|
    ensures forall m :: 0 <= m < |trail| ==> states[trail[m]] == StateAt(m, cycleStart)
    ensures forall i :: 0 <= i < |states| && i !in trail ==> states[i] == before[i]
  {
    states := walked;
    for n := 0 to |trail|
      invariant |states| == |walked|
      invariant forall m :: 0 <= m < n ==> states[trail[m]] == StateAt(m, cycleStart)
      invariant forall i :: 0 <= i < |states| && i !in trail ==> states[i] == before[i]
    {
      states := states[trail[n] := StateAt(n, cycleStart)];
    }
  }

  /** Walks up from an unseen span until the walk leaves the list, meets itself, or meets a settled span. */
  method WalkUp(spans: seq<Span>, parents: seq<Option<nat>>, ghost nodes: Nodes, before: seq<CycleState>, start: nat)
    returns (states: seq<CycleState>, trail: seq<nat>, current: Option<nat>, cycleStart: Option<nat>)
    requires IdsAscend(spans) && IsIndex(spans, parents) && Represents(spans, nodes)
    requires |before| == |spans| && forall i :: 0 <= i < |before| ==> !before[i].Visiting?
    requires start < |before| && before[start].Unseen?
    ensures Walked(spans, parents, nodes, start, trail) && Marked(before, states, trail) && trail != []
    ensures StandsAt(spans, nodes, start, |trail|, current) && Stepped(parents, start, trail, current)
    ensures cycleStart.Some? ==> current.Some? && cycleStart.value < |trail| && trail[cycleStart.value] == current.value
    ensures cycleStart.None? && current.Some? ==> Settled(states[current.value])
  {
    states := before;
    trail := [];
    current := Some(start);
    cycleStart := None;
    while current.Some?
      invariant Walked(spans, parents, nodes, start, trail) && Marked(before, states, trail)
      invariant StandsAt(spans, nodes, start, |trail|, current) && Stepped(parents, start, trail, current)
      decreases |nodes| - |trail|
    {
      var at := current.value;
      if states[at].Unseen? {
        assert at !in trail;
        WalkGrows(spans, parents, nodes, start, trail, at);
        StepsUp(spans, parents, nodes, start, |trail|, at);
        states := states[at := Visiting];
        trail := trail + [at];
        current := parents[at];
      } else if states[at].Visiting? {
        var position := Position(trail, at);
        cycleStart := Some(position);
        break;
      } else {
        break;
      }
    }
  }

  /** The state a finished walk gives to the `n`-th span of its trail. */
  function StateAt(n: nat, cycleStart: Option<nat>): CycleState {
    if cycleStart.Some? && n >= cycleStart.value then CycleSpan else AcyclicSpan
  }

  lemma DistinctPositions(spans: seq<Span>, trail: seq<nat>)
    requires forall i :: 0 <= i < |trail| ==> trail[i] < |spans|
    requires Distinct(Ids(spans, trail))
    ensures Distinct(trail)
  {
    forall i, j | 0 <= i < j < |trail|
      ensures trail[i] != trail[j]
    {
      assert Ids(spans, trail)[i] != Ids(spans, trail)[j];
    }
  }

  lemma WalkGrows(spans: seq<Span>, parents: seq<Option<nat>>, nodes: Nodes, start: nat, trail: seq<nat>, at: nat)
    requires IdsAscend(spans) && IsIndex(spans, parents) && Represents(spans, nodes)
    requires start < |spans| && Walked(spans, parents, nodes, start, trail)
    requires at < |spans| && at !in trail && Stepped(parents, start, trail, Some(at))
    requires Up(nodes, spans[start].id, |trail|) == Some(spans[at].id)
    ensures Walked(spans, parents, nodes, start, trail + [at])
    ensures |trail| < |nodes|
  {
    var longer := trail + [at];
    var ids := Ids(spans, trail);
    assert Ids(spans, longer) == ids + [spans[at].id];
    forall i | 0 <= i < |ids|
      ensures ids[i] != spans[at].id
    {
      assert trail[i] != at;
    }
    TrailGrows(nodes, spans[start].id, ids, spans[at].id);
    LinksGrow(parents, trail, at);
  }

  lemma TrailGrows(nodes: Nodes, origin: SpanId, trail: seq<SpanId>, next: SpanId)
    requires IsTrail(nodes, origin, trail)
    requires next in nodes && next !in trail && Up(nodes, origin, |trail|) == Some(next)
    ensures IsTrail(nodes, origin, trail + [next])
    ensures |trail| < |nodes|
  {
    assert IsTrail(nodes, origin, trail + [next]);
    TrailIsBounded(nodes, origin, trail + [next]);
  }

  lemma LinksGrow(parents: seq<Option<nat>>, trail: seq<nat>, at: nat)
    requires AllLinked(parents, trail) && forall i :: 0 <= i < |trail| ==> trail[i] < |parents|
    requires trail != [] ==> parents[trail[|trail| - 1]] == Some(at)
    ensures AllLinked(parents, trail + [at])
  {
    forall n | 0 <= n < |trail|
      ensures Linked(parents, trail + [at], n)
    {
      assert n < |trail| - 1 ==> Linked(parents, trail, n);
    }
  }

  lemma StepsUp(spans: seq<Span>, parents: seq<Option<nat>>, nodes: Nodes, start: nat, steps: nat, at: nat)
    requires IsIndex(spans, parents) && Represents(spans, nodes)
    requires start < |spans| && at < |spans| && StandsAt(spans, nodes, start, steps, Some(at))
    ensures StandsAt(spans, nodes, start, steps + 1, parents[at])
  {
    assert Locates(spans, at, parents[at]);
    assert Up(nodes, spans[start].id, steps + 1) == spans[at].parent;
    assert spans[at].parent.Some? && spans[at].parent.value in nodes ==> Listed(spans, spans[at].parent.value);
  }

  /** What the end of the walk shows: exactly the spans from the closing position on are cyclic. */
  lemma WalkEnds(spans: seq<Span>, parents: seq<Option<nat>>, nodes: Nodes, before: seq<CycleState>,
                 states: seq<CycleState>, start: nat, trail: seq<nat>, current: Option<nat>, cycleStart: Option<nat>)
    requires IdsAscend(spans) && IsIndex(spans, parents) && Represents(spans, nodes)
    requires Classified(spans, parents, nodes, before)
    requires start < |spans| && Walked(spans, parents, nodes, start, trail) && Marked(before, states, trail)
    requires trail != [] && StandsAt(spans, nodes, start, |trail|, current)
    requires cycleStart.Some? ==> current.Some? && cycleStart.value < |trail| && trail[cycleStart.value] == current.value
    requires cycleStart.None? && current.Some? ==> Settled(states[current.value])
    ensures forall n :: 0 <= n < |trail| ==>
              (StateAt(n, cycleStart).CycleSpan? <==> OnCycle(nodes, spans[trail[n]].id))
  {
    var ids := Ids(spans, trail);
    if cycleStart.Some? {
      LoopClosed(nodes, spans[start].id, ids, cycleStart.value);
    } else if current.None? {
      OpenWalkHasNoCycle(nodes, spans[start].id, ids);
    } else {
      assert current.value !in trail;
      forall n | 0 <= n < |trail|
        ensures !OnCycle(nodes, spans[trail[n]].id)
      {
        SettledEndsTheWalk(spans, parents, nodes, before, trail, current.value, n);
      }
    }
    assert forall n :: 0 <= n < |trail| ==> ids[n] == spans[trail[n]].id;
  }

  lemma WalkSettled(spans: seq<Span>, parents: seq<Option<nat>>, nodes: Nodes, before: seq<CycleState>,
                    states: seq<CycleState>, trail: seq<nat>, current: Option<nat>, cycleStart: Option<nat>)
    requires IsIndex(spans, parents) && |states| == |before| && Classified(spans, parents, nodes, before)
    requires trail != [] && forall i :: 0 <= i < |trail| ==> trail[i] < |spans|
    requires forall n :: 0 <= n < |trail| ==> states[trail[n]] == StateAt(n, cycleStart)
                                              && (StateAt(n, cycleStart).CycleSpan? <==> OnCycle(nodes, spans[trail[n]].id))
    requires forall i :: 0 <= i < |states| && i !in trail ==> states[i] == before[i]
    requires AllLinked(parents, trail)
    requires parents[trail[|trail| - 1]] == current
    requires current.Some? ==> current.value < |spans| && (current.value in trail || Settled(before[current.value]))
    ensures Classified(spans, parents, nodes, states)
  {
    forall i | 0 <= i < |states| && Settled(states[i])
      ensures states[i].CycleSpan? <==> OnCycle(nodes, spans[i].id)
      ensures ParentSettled(parents, states, i)
    {
      if i in trail {
        var n :| 0 <= n < |trail| && trail[n] == i;
        if n < |trail| - 1 {
          assert Linked(parents, trail, n);
          assert states[trail[n + 1]] == StateAt(n + 1, cycleStart);
        } else if current.Some? && current.value in trail {
          var m :| 0 <= m < |trail| && trail[m] == current.value;
          assert states[trail[m]] == StateAt(m, cycleStart);
        }
      } else {
        assert states[i] == before[i] && ParentSettled(parents, before, i);
        if parents[i].Some? && parents[i].value in trail {
          var m :| 0 <= m < |trail| && trail[m] == parents[i].value;
          assert states[trail[m]] == StateAt(m, cycleStart);
        }
      }
    }
  }

  method Position(trail: seq<nat>, at: nat) returns (r: nat)
    requires at in trail
    ensures r < |trail| && trail[r] == at
  {
    r := 0;
    while trail[r] != at
      invariant r < |trail| && at !in trail[..r]
      decreases |trail| - r
    {
      assert trail == trail[..r] + [trail[r]] + trail[r + 1..];
      r := r + 1;
    }
  }
}
