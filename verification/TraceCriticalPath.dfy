/** The temporal critical path of a trace: its meaning, and the reference expansion of the
    preferred child schedules. */
module TraceCriticalPath {
  import opened Prelude
  import opened TraceGraph
  import opened TraceSchedule
  import opened TraceStructure

  datatype Fragment = Fragment(span: SpanId, start: Instant, end: Instant)

  /** Time the span spends waiting on no child; an empty stretch leaves no fragment. */
  function Gap(span: SpanId, start: Instant, end: Instant): seq<Fragment> {
    if start < end then [Fragment(span, start, end)] else []
  }

  /** The path of `span` up to `cursor`, in time order: the child that returned last, what went
      before that child started, and the parent's own time in between. */
  ghost function PathUpTo(nodes: Nodes, span: SpanId, cursor: Instant): seq<Fragment>
    requires Timed(nodes) && Acyclic(nodes) && span in nodes
    decreases Below(nodes, span), cursor - I64_MIN
  {
    if HasEligible(nodes, span, cursor) then
      var child := Best(nodes, span, cursor);
      BelowShrinks(nodes, child, span);
      PathUpTo(nodes, span, StartOf(nodes, child)) +
      PathUpTo(nodes, child, EndOf(nodes, child)) +
      Gap(span, EndOf(nodes, child), cursor)
    else
      Gap(span, StartOf(nodes, span), cursor)
  }

  /** The path of a whole span. */
  ghost function PathOf(nodes: Nodes, span: SpanId): seq<Fragment>
    requires Timed(nodes) && Acyclic(nodes) && span in nodes
  {
    PathUpTo(nodes, span, EndOf(nodes, span))
  }

  /** Non-empty fragments that follow each other without gap or overlap from `from` to `to`. */
  ghost predicate Tiles(fragments: seq<Fragment>, from: Instant, to: Instant)
    decreases |fragments|
  {
    if fragments == [] then from == to
    else fragments[0].start == from < fragments[0].end && Tiles(fragments[1..], fragments[0].end, to)
  }

  /** Every fragment lies inside the interval of the span it is attributed to. */
  ghost predicate Attributed(nodes: Nodes, fragments: seq<Fragment>) {
    forall f :: f in fragments ==>
                  HasTime(nodes, f.span) && StartOf(nodes, f.span) <= f.start && f.end <= EndOf(nodes, f.span)
  }

  lemma {:induction false} TilesConcat(a: seq<Fragment>, b: seq<Fragment>, from: Instant, mid: Instant, to: Instant)
    requires Tiles(a, from, mid) && Tiles(b, mid, to)
    ensures Tiles(a + b, from, to)
    decreases |a|
  {
    if a == [] {
      assert a + b == b;
    } else {
      TilesConcat(a[1..], b, a[0].end, mid, to);
      assert (a + b)[1..] == a[1..] + b;
    }
  }

  /** The path of a span tiles its interval exactly, and attributes every moment to a span that
      was running. */
  lemma {:induction false} PathTiles(nodes: Nodes, span: SpanId, cursor: Instant)
    requires Timed(nodes) && Acyclic(nodes) && Nested(nodes) && span in nodes
    requires StartOf(nodes, span) <= cursor <= EndOf(nodes, span)
    ensures Tiles(PathUpTo(nodes, span, cursor), StartOf(nodes, span), cursor)
    ensures Attributed(nodes, PathUpTo(nodes, span, cursor))
    decreases Below(nodes, span), cursor - I64_MIN
  {
    if HasEligible(nodes, span, cursor) {
      var child := Best(nodes, span, cursor);
      var start, end := StartOf(nodes, child), EndOf(nodes, child);
      BelowShrinks(nodes, child, span);
      assert !Escapes(nodes, child);
      PathTiles(nodes, span, start);
      PathTiles(nodes, child, end);
      var earlier, inside := PathUpTo(nodes, span, start), PathUpTo(nodes, child, end);
      var gap := Gap(span, end, cursor);
      TilesConcat(earlier, inside, StartOf(nodes, span), start, end);
      assert Tiles(gap, end, cursor);
      TilesConcat(earlier + inside, gap, StartOf(nodes, span), end, cursor);
    }
  }

  /** The sum of the fragment lengths. */
  ghost function Length(fragments: seq<Fragment>): int {
    if fragments == [] then 0
    else Length(fragments[..|fragments| - 1]) + (fragments[|fragments| - 1].end - fragments[|fragments| - 1].start)
  }

  lemma {:induction false} TilesSplit(fragments: seq<Fragment>, from: Instant, to: Instant, n: nat) returns (at: Instant)
    requires Tiles(fragments, from, to) && n <= |fragments|
    ensures Tiles(fragments[..n], from, at) && Tiles(fragments[n..], at, to)
  {
    if n == 0 {
      at := from;
      assert fragments[0..] == fragments;
    } else {
      at := TilesSplit(fragments[1..], fragments[0].end, to, n - 1);
      assert fragments[..n][1..] == fragments[1..][..n - 1];
      assert fragments[1..][n - 1..] == fragments[n..];
    }
  }

  lemma {:induction false} TilesOrdered(fragments: seq<Fragment>, from: Instant, to: Instant)
    requires Tiles(fragments, from, to)
    ensures from <= to
    ensures fragments != [] ==> fragments[|fragments| - 1].end == to
    decreases |fragments|
  {
    if fragments != [] {
      TilesOrdered(fragments[1..], fragments[0].end, to);
    }
  }

  /** Tiling fragments add up to the tiled interval. */
  lemma {:induction false} TilesLength(fragments: seq<Fragment>, from: Instant, to: Instant)
    requires Tiles(fragments, from, to)
    ensures Length(fragments) == to - from
    decreases |fragments|
  {
    if fragments != [] {
      var n := |fragments| - 1;
      var at := TilesSplit(fragments, from, to, n);
      TilesLength(fragments[..n], from, at);
      assert fragments[n..] == [fragments[n]];
      assert Tiles([fragments[n]], at, to);
      assert [fragments[n]][1..] == [];
    }
  }

  /** Adds up durations in a 64-bit unsigned integer, failing on a negative part or on overflow. */
  method SumDurations(fragments: seq<Fragment>) returns (total: Option<U64>)
    ensures forall from: Instant, to: Instant :: Tiles(fragments, from, to) ==> total == Some(to - from)
  {
    var sum: U64 := 0;
    for n := 0 to |fragments|
      invariant sum == Length(fragments[..n])
    {
      var part: int := fragments[n].end - fragments[n].start;
      if part < 0 || part > U64_MAX || sum + part > U64_MAX {
        forall from: Instant, to: Instant | Tiles(fragments, from, to)
          ensures false
        {
          PrefixFits(fragments, from, to, n);
        }
        return None;
      }
      sum := sum + part;
      assert fragments[..n + 1][..n] == fragments[..n];
    }
    assert fragments[..|fragments|] == fragments;
    forall from: Instant, to: Instant | Tiles(fragments, from, to)
      ensures sum == to - from
    {
      TilesLength(fragments, from, to);
    }
    total := Some(sum);
  }

  lemma PrefixFits(fragments: seq<Fragment>, from: Instant, to: Instant, n: nat)
    requires Tiles(fragments, from, to) && n < |fragments|
    ensures 0 <= fragments[n].end - fragments[n].start
    ensures 0 <= Length(fragments[..n]) <= Length(fragments[..n]) + fragments[n].end - fragments[n].start <= U64_MAX
  {
    var at := TilesSplit(fragments, from, to, n);
    TilesLength(fragments[..n], from, at);
    TilesOrdered(fragments[..n], from, at);
    assert fragments[n..][0] == fragments[n];
    TilesOrdered(fragments[n..][1..], fragments[n].end, to);
  }

  /** The greedy schedule from its `n`-th element on is the greedy schedule from the point
      where the element before it started. */
  ghost function CursorBefore(nodes: Nodes, schedule: seq<SpanId>, n: nat, end: Instant): Instant
    requires n <= |schedule| && forall c :: c in schedule ==> HasTime(nodes, c)
  {
    if n == 0 then end else StartOf(nodes, schedule[n - 1])
  }

  lemma {:induction false} GreedySuffix(nodes: Nodes, span: SpanId, cursor: Instant, n: nat)
    requires n <= |Greedy(nodes, span, cursor)|
    ensures forall c :: c in Greedy(nodes, span, cursor) ==> HasTime(nodes, c)
    ensures Greedy(nodes, span, cursor)[n..] ==
            Greedy(nodes, span, CursorBefore(nodes, Greedy(nodes, span, cursor), n, cursor))
    decreases |Greedy(nodes, span, cursor)|
  {
    var greedy := Greedy(nodes, span, cursor);
    if HasEligible(nodes, span, cursor) {
      var start := StartOf(nodes, greedy[0]);
      var rest := Greedy(nodes, span, start);
      assert greedy == [greedy[0]] + rest;
      GreedySuffix(nodes, span, start, if n == 0 then 0 else n - 1);
      if n > 0 {
        assert greedy[n..] == rest[n - 1..];
        assert CursorBefore(nodes, greedy, n, cursor) == CursorBefore(nodes, rest, n - 1, start);
      }
    }
    assert greedy[0..] == greedy;
  }

  /** Expands the preferred schedule of a span in time order, recursing into each child. */
  method ReferenceFragments(nodes: Nodes, span: SpanId) returns (r: Option<seq<Fragment>>)
    requires Acyclic(nodes)
    ensures r.Some? <==> Timed(nodes) && span in nodes
    ensures r.Some? ==> r.value == PathOf(nodes, span)
    decreases Below(nodes, span)
  {
    if span !in nodes || nodes[span].interval.None? {
      return None;
    }
    var start, end := StartOf(nodes, span), EndOf(nodes, span);
    var preferred := PreferredSchedule(nodes, span, end);
    if preferred.None? {
      return None;
    }
    var schedule := preferred.value;
    GreedySuffix(nodes, span, end, 0);
    var fragments: seq<Fragment> := [];
    var cursor := start;
    var n := |schedule|;
    GreedySuffix(nodes, span, end, n);
    while n > 0
      invariant 0 <= n <= |schedule|
      invariant cursor == if n == |schedule| then start else EndOf(nodes, schedule[n])
      invariant var until := CursorBefore(nodes, schedule, n, end);
                PathUpTo(nodes, span, until) == fragments + Gap(span, cursor, until)
    {
      n := n - 1;
      var child := schedule[n];
      ghost var until := CursorBefore(nodes, schedule, n, end);
      GreedySuffix(nodes, span, end, n);
      assert schedule[n..][0] == child;
      assert Best(nodes, span, until) == child;
      BelowShrinks(nodes, child, span);
      if StartOf(nodes, child) > cursor {
        fragments := fragments + [Fragment(span, cursor, StartOf(nodes, child))];
      }
      assert fragments == PathUpTo(nodes, span, StartOf(nodes, child));
      var inside := ReferenceFragments(nodes, child);
      fragments := fragments + inside.value;
      cursor := EndOf(nodes, child);
    }
    if end > cursor {
      fragments := fragments + [Fragment(span, cursor, end)];
    }
    r := Some(fragments);
  }

  /** What the reference reports for a clean trace, and only for one: fragments that tile the root's
      interval, attributed to running spans, whose durations add up to its length in 64 bits. */
  ghost predicate IsCriticalPath(nodes: Nodes, root: SpanId, fragments: seq<Fragment>, duration: int)
    requires IsTree(nodes, root)
  {
    && fragments == PathOf(nodes, root)
    && Tiles(fragments, StartOf(nodes, root), EndOf(nodes, root))
    && Attributed(nodes, fragments)
    && duration == EndOf(nodes, root) - StartOf(nodes, root)
  }

  lemma PathIsCritical(nodes: Nodes, root: SpanId)
    requires IsTree(nodes, root)
    ensures IsCriticalPath(nodes, root, PathOf(nodes, root), EndOf(nodes, root) - StartOf(nodes, root))
  {
    PathTiles(nodes, root, EndOf(nodes, root));
  }

  /** The reference answer: nothing beyond `limit` spans, no path for a defective trace, and
      otherwise the path with its duration. The fuzz target bounds itself to six spans. */
  method ExpectedCriticalPath(s: Structure, ghost order: seq<SpanId>, limit: nat)
    returns (r: Option<Option<(seq<Fragment>, U64)>>)
    requires Describes(s, order)
    ensures r.None? <==> |s.nodes| > limit
    ensures r.Some? && r.value.Some? <==> |s.nodes| <= limit && exists root :: IsTree(s.nodes, root)
    ensures r.Some? && r.value.Some? ==>
              && |s.roots| == 1 && IsTree(s.nodes, s.roots[0])
              && IsCriticalPath(s.nodes, s.roots[0], r.value.value.0, r.value.value.1)
  {
    CleanMeansTree(s, order);
    if |s.nodes| > limit {
      return None;
    }
    if !Clean(s) {
      return Some(None);
    }
    var root := s.roots[0];
    PathIsCritical(s.nodes, root);
    var fragments := ReferenceFragments(s.nodes, root);
    var duration := SumDurations(fragments.value);
    r := Some(Some((fragments.value, duration.value)));
  }
}
