/** Children laid out in one list, one range per parent, each range in critical-path order. */
module TraceAdjacency {
  import opened Prelude
  import opened TraceOrder

  datatype ChildRange = ChildRange(start: nat, end: nat, next: nat)

  /** The positions below `n` whose parent is `p`, in ascending order. */
  ghost function Kids(parents: seq<Option<nat>>, p: nat, n: nat): (r: seq<nat>)
    requires n <= |parents|
  {
    if n == 0 then []
    else if parents[n - 1] == Some(p) then Kids(parents, p, n - 1) + [n - 1]
    else Kids(parents, p, n - 1)
  }

  lemma {:induction false} KidsMembers(parents: seq<Option<nat>>, p: nat, n: nat)
    requires n <= |parents|
    ensures forall c :: c in Kids(parents, p, n) <==> 0 <= c < n && parents[c] == Some(p)
  {
    if n > 0 {
      KidsMembers(parents, p, n - 1);
    }
  }

  lemma {:induction false} KidsGrow(parents: seq<Option<nat>>, p: nat, n: nat, m: nat)
    requires n <= m <= |parents|
    ensures |Kids(parents, p, n)| <= |Kids(parents, p, m)|
    decreases m
  {
    if n < m {
      KidsGrow(parents, p, n, m - 1);
    }
  }

  /** Where the range of `p` starts: after the children of all smaller positions. */
  ghost function Offset(parents: seq<Option<nat>>, p: nat): nat {
    if p == 0 then 0 else Offset(parents, p - 1) + |Kids(parents, p - 1, |parents|)|
  }

  lemma {:induction false} OffsetAscends(parents: seq<Option<nat>>, p: nat, q: nat)
    requires p < q
    ensures Offset(parents, p) + |Kids(parents, p, |parents|)| <= Offset(parents, q)
    decreases q
  {
    if p < q - 1 {
      OffsetAscends(parents, p, q - 1);
    }
  }

  ghost predicate Bounded(parents: seq<Option<nat>>) {
    forall i :: 0 <= i < |parents| && parents[i].Some? ==> parents[i].value < |parents|
  }

  method CountChildren(parents: seq<Option<nat>>) returns (ranges: seq<ChildRange>)
    requires Bounded(parents)
    ensures |ranges| == |parents|
    ensures forall p :: 0 <= p < |ranges| ==> ranges[p].end == |Kids(parents, p, |parents|)|
  {
    ranges := seq(|parents|, _ => ChildRange(0, 0, 0));
    for n := 0 to |parents|
      invariant |ranges| == |parents|
      invariant forall p :: 0 <= p < |ranges| ==> ranges[p].end == |Kids(parents, p, n)|
    {
      if parents[n].Some? {
        var p := parents[n].value;
        ranges := ranges[p := ranges[p].(end := ranges[p].end + 1)];
      }
    }
  }

  /** The range of `p` once `n` spans have been placed. */
  ghost predicate Placed(parents: seq<Option<nat>>, range: ChildRange, p: nat, n: nat)
    requires n <= |parents|
  {
    && range.start == Offset(parents, p)
    && range.end == Offset(parents, p) + |Kids(parents, p, |parents|)|
    && range.next == Offset(parents, p) + |Kids(parents, p, n)|
  }

  method LayoutRanges(parents: seq<Option<nat>>, counted: seq<ChildRange>)
    returns (ranges: seq<ChildRange>, total: nat)
    requires |counted| == |parents|
    requires forall p :: 0 <= p < |counted| ==> counted[p].end == |Kids(parents, p, |parents|)|
    ensures |ranges| == |parents| && total == Offset(parents, |parents|)
    ensures forall p :: 0 <= p < |ranges| ==> Placed(parents, ranges[p], p, 0)
  {
    ranges := [];
    total := 0;
    for q := 0 to |counted|
      invariant |ranges| == q && total == Offset(parents, q)
      invariant forall p :: 0 <= p < q ==> Placed(parents, ranges[p], p, 0)
    {
      var count := counted[q].end;
      ranges := ranges + [ChildRange(total, total + count, total)];
      total := total + count;
    }
  }

  /** The first `n` spans stand in the ranges of their parents, in ascending order. */
  ghost predicate Filled(parents: seq<Option<nat>>, children: seq<nat>, p: nat, n: nat)
    requires n <= |parents|
  {
    && Offset(parents, p) + |Kids(parents, p, |parents|)| <= |children|
    && |Kids(parents, p, n)| <= |Kids(parents, p, |parents|)|
    && children[Offset(parents, p)..Offset(parents, p) + |Kids(parents, p, n)|] == Kids(parents, p, n)
  }

  lemma PlacingOne(parents: seq<Option<nat>>, children: seq<nat>, p: nat, n: nat, q: nat)
    requires n < |parents| && parents[n] == Some(p) && p < |parents| && q < |parents|
    requires Filled(parents, children, p, n) && Filled(parents, children, q, n)
    ensures Offset(parents, p) + |Kids(parents, p, n)| < |children|
    ensures Filled(parents, children[Offset(parents, p) + |Kids(parents, p, n)| := n], q, n + 1)
  {
    KidsGrow(parents, p, n + 1, |parents|);
    KidsGrow(parents, q, n + 1, |parents|);
    var at := Offset(parents, p) + |Kids(parents, p, n)|;
    var after := children[at := n];
    var from := Offset(parents, q);
    if q == p {
      assert after[from..at + 1] == children[from..at] + [n];
    } else {
      if q < p {
        OffsetAscends(parents, q, p);
      } else {
        OffsetAscends(parents, p, q);
      }
      var to := from + |Kids(parents, q, n)|;
      assert after[from..to] == children[from..to];
    }
  }

  method PlaceChildren(parents: seq<Option<nat>>, laid: seq<ChildRange>, total: nat)
    returns (ranges: seq<ChildRange>, children: seq<nat>)
    requires Bounded(parents) && |laid| == |parents| && total == Offset(parents, |parents|)
    requires forall p :: 0 <= p < |laid| ==> Placed(parents, laid[p], p, 0)
    ensures |ranges| == |parents| && |children| == total
    ensures forall p :: 0 <= p < |ranges| ==> Placed(parents, ranges[p], p, |parents|)
    ensures forall p :: 0 <= p < |ranges| ==> Filled(parents, children, p, |parents|)
  {
    ranges := laid;
    children := seq(total, _ => U64_MAX);
    forall p | 0 <= p < |parents|
      ensures Filled(parents, children, p, 0)
    {
      OffsetAscends(parents, p, |parents|);
    }
    for n := 0 to |parents|
      invariant |ranges| == |parents| && |children| == total
      invariant AllPlaced(parents, ranges, n) && AllFilled(parents, children, n)
    {
      if parents[n].Some? {
        var p := parents[n].value;
        var position := ranges[p].next;
        PlaceNext(parents, ranges, children, n, p);
        children := children[position := n];
        ranges := ranges[p := ranges[p].(next := position + 1)];
      } else {
        SkipNext(parents, ranges, children, n);
      }
    }
  }

  ghost predicate AllPlaced(parents: seq<Option<nat>>, ranges: seq<ChildRange>, n: nat)
    requires n <= |parents|
  {
    forall p :: 0 <= p < |ranges| ==> Placed(parents, ranges[p], p, n)
  }

  ghost predicate AllFilled(parents: seq<Option<nat>>, children: seq<nat>, n: nat)
    requires n <= |parents|
  {
    forall p :: 0 <= p < |parents| ==> Filled(parents, children, p, n)
  }

  /** A child goes to the next free place of its parent's range. */
  lemma PlaceNext(parents: seq<Option<nat>>, ranges: seq<ChildRange>, children: seq<nat>, n: nat, p: nat)
    requires |ranges| == |parents| && n < |parents| && parents[n] == Some(p) && p < |parents|
    requires AllPlaced(parents, ranges, n) && AllFilled(parents, children, n)
    ensures ranges[p].next < |children|
    ensures AllPlaced(parents, ranges[p := ranges[p].(next := ranges[p].next + 1)], n + 1)
    ensures AllFilled(parents, children[ranges[p].next := n], n + 1)
  {
    PlacingOne(parents, children, p, n, p);
    var done, placed := n + 1, children[ranges[p].next := n];
    forall q | 0 <= q < |parents|
      ensures Filled(parents, placed, q, done)
    {
      PlacingOne(parents, children, p, n, q);
    }
  }

  /** A span without a listed parent takes no place. */
  lemma SkipNext(parents: seq<Option<nat>>, ranges: seq<ChildRange>, children: seq<nat>, n: nat)
    requires n < |parents| && parents[n].None? && AllPlaced(parents, ranges, n) && AllFilled(parents, children, n)
    ensures AllPlaced(parents, ranges, n + 1) && AllFilled(parents, children, n + 1)
  {
    var done := n + 1;
    forall q | 0 <= q < |parents|
      ensures Filled(parents, children, q, done)
    {
      assert Filled(parents, children, q, n);
    }
  }

  /** The part of `children` that belongs to `p`. */
  ghost function RangeOf(parents: seq<Option<nat>>, children: seq<nat>, p: nat): (r: seq<nat>)
    requires Offset(parents, p) + |Kids(parents, p, |parents|)| <= |children|
  {
    children[Offset(parents, p)..Offset(parents, p) + |Kids(parents, p, |parents|)|]
  }

  /** The range of `p` holds exactly its children, the one that returned last first. */
  ghost predicate Arranged(ranks: seq<Rank>, parents: seq<Option<nat>>, children: seq<nat>, p: nat) {
    && Offset(parents, p) + |Kids(parents, p, |parents|)| <= |children|
    && var range := RangeOf(parents, children, p);
       && multiset(range) == multiset(Kids(parents, p, |parents|))
       && Ranked(ranks, range) && Ordered(ranks, range)
  }

  /** Nothing outside the range of `p` changed. */
  ghost predicate OthersKept(parents: seq<Option<nat>>, before: seq<nat>, after: seq<nat>, p: nat)
    requires |before| == |after|
  {
    forall i :: 0 <= i < |before| &&
                !(Offset(parents, p) <= i < Offset(parents, p) + |Kids(parents, p, |parents|)|) ==>
                before[i] == after[i]
  }

  lemma RangesApart(parents: seq<Option<nat>>, before: seq<nat>, after: seq<nat>, p: nat, q: nat)
    requires p < |parents| && q < |parents| && p != q
    requires Offset(parents, |parents|) == |before| == |after|
    requires OthersKept(parents, before, after, p)
    ensures Offset(parents, q) + |Kids(parents, q, |parents|)| <= |before|
    ensures RangeOf(parents, after, q) == RangeOf(parents, before, q)
  {
    OffsetAscends(parents, q, |parents|);
    if q < p {
      OffsetAscends(parents, q, p);
    } else {
      OffsetAscends(parents, p, q);
    }
  }

  lemma StaysArranged(ranks: seq<Rank>, parents: seq<Option<nat>>, before: seq<nat>, after: seq<nat>, p: nat, q: nat)
    requires p < |parents| && q < |parents| && p != q
    requires Offset(parents, |parents|) == |before| == |after| && OthersKept(parents, before, after, p)
    requires Arranged(ranks, parents, before, q)
    ensures Arranged(ranks, parents, after, q)
  {
    RangesApart(parents, before, after, p, q);
  }

  lemma StaysFilled(parents: seq<Option<nat>>, before: seq<nat>, after: seq<nat>, p: nat, q: nat)
    requires p < |parents| && q < |parents| && p != q
    requires Offset(parents, |parents|) == |before| == |after| && OthersKept(parents, before, after, p)
    requires Filled(parents, before, q, |parents|)
    ensures Filled(parents, after, q, |parents|)
  {
    RangesApart(parents, before, after, p, q);
  }

  method OrderRange(ranks: seq<Rank>, ghost parents: seq<Option<nat>>, range: ChildRange, before: seq<nat>, ghost p: nat)
    returns (children: seq<nat>)
    requires p < |parents| && |ranks| == |parents| && Placed(parents, range, p, |parents|)
    requires forall i, j :: 0 <= i < j < |ranks| ==> ranks[i].id != ranks[j].id
    requires Filled(parents, before, p, |parents|)
    ensures |children| == |before| && Arranged(ranks, parents, children, p)
    ensures OthersKept(parents, before, children, p)
  {
    KidsMembers(parents, p, |parents|);
    var slice := before[range.start..range.end];
    assert forall i :: 0 <= i < |slice| ==> slice[i] in slice;
    var ordered := new nat[|slice|](i requires 0 <= i < |slice| => slice[i]);
    assert ordered[..] == slice;
    OrderChildren(ranks, ordered);
    children := before[..range.start] + ordered[..] + before[range.end..];
    assert RangeOf(parents, children, p) == ordered[..];
  }

  method OrderRanges(ranks: seq<Rank>, ghost parents: seq<Option<nat>>, placed: seq<ChildRange>, filled: seq<nat>)
    returns (ranges: seq<ChildRange>, children: seq<nat>)
    requires |placed| == |parents| == |ranks|
    requires forall i, j :: 0 <= i < j < |ranks| ==> ranks[i].id != ranks[j].id
    requires |filled| == Offset(parents, |parents|)
    requires forall p :: 0 <= p < |placed| ==> Placed(parents, placed[p], p, |parents|)
    requires forall p :: 0 <= p < |placed| ==> Filled(parents, filled, p, |parents|)
    ensures IsAdjacency(ranks, parents, ranges, children)
  {
    ranges, children := [], filled;
    for n := 0 to |placed|
      invariant |ranges| == n && |children| == |filled|
      invariant forall p :: 0 <= p < n ==> Placed(parents, ranges[p], p, 0)
      invariant forall p :: 0 <= p < n ==> Arranged(ranks, parents, children, p)
      invariant forall p :: n <= p < |placed| ==> Filled(parents, children, p, |parents|)
    {
      var after := OrderRange(ranks, parents, placed[n], children, n);
      forall q | 0 <= q < n
        ensures Arranged(ranks, parents, after, q)
      {
        StaysArranged(ranks, parents, children, after, n, q);
      }
      forall q | n < q < |placed|
        ensures Filled(parents, after, q, |parents|)
      {
        StaysFilled(parents, children, after, n, q);
      }
      children := after;
      ranges := ranges + [placed[n].(next := placed[n].start)];
    }
  }

  /** Every range starts, ends and is arranged as its parent's children ask. */
  ghost predicate IsAdjacency(ranks: seq<Rank>, parents: seq<Option<nat>>, ranges: seq<ChildRange>, children: seq<nat>) {
    && |ranges| == |parents| == |ranks|
    && (forall p :: 0 <= p < |ranges| ==> Placed(parents, ranges[p], p, 0))
    && (forall p :: 0 <= p < |ranges| ==> Arranged(ranks, parents, children, p))
  }

  method BuildAdjacency(ranks: seq<Rank>, parents: seq<Option<nat>>)
    returns (ranges: seq<ChildRange>, children: seq<nat>)
    requires Bounded(parents) && |ranks| == |parents|
    requires forall i, j :: 0 <= i < j < |ranks| ==> ranks[i].id != ranks[j].id
    ensures IsAdjacency(ranks, parents, ranges, children)
  {
    var counted := CountChildren(parents);
    var laid, total := LayoutRanges(parents, counted);
    var placed, filled := PlaceChildren(parents, laid, total);
    ranges, children := OrderRanges(ranks, parents, placed, filled);
  }
}
