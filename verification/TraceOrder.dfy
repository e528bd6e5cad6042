/** In-place ordering of sibling spans: latest return first, then the smaller identifier. */
module TraceOrder {
  import opened TraceGraph

  /** What the ordering reads of a span. */
  datatype Rank = Rank(end: Instant, id: SpanId)

  predicate Precedes(left: Rank, right: Rank) {
    left.end > right.end || (left.end == right.end && left.id < right.id)
  }

  /** The positions `a` orders are positions of `ranks`, and no two of those share an identifier. */
  ghost predicate Ranked(ranks: seq<Rank>, a: seq<nat>) {
    && (forall i :: 0 <= i < |a| ==> a[i] < |ranks|)
    && (forall i, j :: 0 <= i < j < |ranks| ==> ranks[i].id != ranks[j].id)
  }

  ghost predicate Ordered(ranks: seq<Rank>, a: seq<nat>)
    requires Ranked(ranks, a)
  {
    forall i, j :: 0 <= i < j < |a| ==> !Precedes(ranks[a[j]], ranks[a[i]])
  }

  function HeapParent(c: nat): nat
    requires c > 0
  {
    (c - 1) / 2
  }

  /** The element at `c` does not rank above the element at `p`. */
  ghost predicate Under(ranks: seq<Rank>, a: seq<nat>, c: nat, p: nat)
    requires Ranked(ranks, a) && c < |a| && p < |a|
  {
    !Precedes(ranks[a[c]], ranks[a[p]])
  }

  /** Nothing in the first `end` ranks above its heap parent, where that parent is at least `from`. */
  ghost predicate Heap(ranks: seq<Rank>, a: seq<nat>, from: nat, end: nat)
    requires Ranked(ranks, a) && end <= |a|
  {
    forall c :: 0 < c < end && HeapParent(c) >= from ==> Under(ranks, a, c, HeapParent(c))
  }

  /** The heap with a possibly misplaced element at `hole`, whose children still rank below
      the parent of `hole`. */
  ghost predicate HeapExcept(ranks: seq<Rank>, a: seq<nat>, from: nat, end: nat, hole: nat)
    requires Ranked(ranks, a) && end <= |a| && hole < end
  {
    && (forall c :: 0 < c < end && HeapParent(c) >= from && HeapParent(c) != hole ==>
                      Under(ranks, a, c, HeapParent(c)))
    && (hole > 0 && HeapParent(hole) >= from ==>
          forall c :: 0 < c < end && HeapParent(c) == hole ==> Under(ranks, a, c, HeapParent(hole)))
  }

  method Swap(a: array<nat>, i: nat, j: nat)
    requires i < a.Length && j < a.Length
    modifies a
    ensures a[..] == old(a[..])[i := old(a[j])][j := old(a[i])]
    ensures multiset(a[..]) == multiset(old(a[..]))
  {
    a[i], a[j] := a[j], a[i];
  }

  /** `after` rearranges the first `end` elements of `before` and keeps the others. */
  ghost predicate Rearranged(before: seq<nat>, after: seq<nat>, end: nat) {
    && end <= |before| == |after|
    && multiset(after[..end]) == multiset(before[..end])
    && after[end..] == before[end..]
  }

  lemma RearrangedWhole(before: seq<nat>, after: seq<nat>, end: nat)
    requires Rearranged(before, after, end)
    ensures multiset(after) == multiset(before)
  {
    assert before == before[..end] + before[end..];
    assert after == after[..end] + after[end..];
  }

  lemma SwapRearranges(before: seq<nat>, after: seq<nat>, i: nat, j: nat, end: nat)
    requires i < end <= |before| && j < end
    requires after == before[i := before[j]][j := before[i]]
    ensures Rearranged(before, after, end)
  {
    assert after[..end] == before[..end][i := before[j]][j := before[i]];
  }

  /** Sinks the element at `top` until both its children rank below it. */
  method SiftChildHeap(ranks: seq<Rank>, a: array<nat>, top: nat, end: nat)
    requires Ranked(ranks, a[..]) && top < end <= a.Length
    requires Heap(ranks, a[..], top + 1, end)
    modifies a
    ensures Ranked(ranks, a[..]) && Heap(ranks, a[..], top, end)
    ensures Rearranged(old(a[..]), a[..], end)
  {
    var root := top;
    while true
      invariant top <= root < end
      invariant Ranked(ranks, a[..]) && HeapExcept(ranks, a[..], top, end, root)
      invariant Rearranged(old(a[..]), a[..], end)
      decreases end - root
    {
      if 2 * root + 1 >= end {
        return;
      }
      var highest := HighestChild(ranks, a, end, root);
      if !Precedes(ranks[a[highest]], ranks[a[root]]) {
        return;
      }
      ghost var before := a[..];
      Swap(a, root, highest);
      SwapRearranges(before, a[..], root, highest, end);
      Sunk(ranks, before, a[..], top, end, root, highest);
      root := highest;
    }
  }

  /** The child that goes before the other one. */
  method HighestChild(ranks: seq<Rank>, a: array<nat>, end: nat, root: nat) returns (highest: nat)
    requires Ranked(ranks, a[..]) && 2 * root + 1 < end <= a.Length
    ensures root < highest < end && IsHighest(ranks, a[..], end, root, highest)
  {
    var left := 2 * root + 1;
    var right := left + 1;
    highest := left;
    if right < end && Precedes(ranks[a[right]], ranks[a[left]]) {
      highest := right;
    }
    HighestLeads(ranks, a[..], end, root, highest);
  }

  ghost predicate IsHighest(ranks: seq<Rank>, a: seq<nat>, end: nat, root: nat, highest: nat)
    requires Ranked(ranks, a) && root < highest < end <= |a|
  {
    && HeapParent(highest) == root
    && forall c :: 0 < c < end && HeapParent(c) == root ==> Under(ranks, a, c, highest)
  }

  lemma HighestLeads(ranks: seq<Rank>, a: seq<nat>, end: nat, root: nat, highest: nat)
    requires Ranked(ranks, a) && 2 * root + 1 < end <= |a|
    requires
      var left, right := 2 * root + 1, 2 * root + 2;
      highest == if right < end && Precedes(ranks[a[right]], ranks[a[left]]) then right else left
    ensures IsHighest(ranks, a, end, root, highest)
  {
    assert forall c :: 0 < c < end && HeapParent(c) == root ==> c == 2 * root + 1 || c == 2 * root + 2;
  }

  lemma Sunk(ranks: seq<Rank>, before: seq<nat>, after: seq<nat>, top: nat, end: nat, root: nat, highest: nat)
    requires Ranked(ranks, before) && top <= root < highest < end <= |before|
    requires IsHighest(ranks, before, end, root, highest) && HeapExcept(ranks, before, top, end, root)
    requires !Under(ranks, before, highest, root)
    requires after == before[root := before[highest]][highest := before[root]]
    ensures Ranked(ranks, after) && HeapExcept(ranks, after, top, end, highest)
  {
    assert Ranked(ranks, after);
    forall c | 0 < c < end && HeapParent(c) >= top && HeapParent(c) != highest
      ensures Under(ranks, after, c, HeapParent(c))
    {
      var p := HeapParent(c);
      if p == root {
        assert Under(ranks, before, c, highest);
      } else if c == root {
        assert Under(ranks, before, highest, p);
      } else {
        assert Under(ranks, before, c, p);
      }
    }
    forall c | 0 < c < end && HeapParent(c) == highest
      ensures Under(ranks, after, c, root)
    {
      assert Under(ranks, before, c, highest);
    }
  }

  /** The root of a heap ranks above every member. */
  lemma {:induction false} RootLeads(ranks: seq<Rank>, a: seq<nat>, end: nat, i: nat)
    requires Ranked(ranks, a) && end <= |a| && i < end && Heap(ranks, a, 0, end)
    ensures !Precedes(ranks[a[i]], ranks[a[0]])
  {
    if i > 0 {
      RootLeads(ranks, a, end, HeapParent(i));
      assert Under(ranks, a, i, HeapParent(i));
    }
  }

  /** The tail from `end` on is in reverse order and outranks everything before it. */
  ghost predicate TailLeads(ranks: seq<Rank>, a: seq<nat>, end: nat)
    requires Ranked(ranks, a)
  {
    forall i, j :: 0 <= i < j < |a| && end <= j ==> !Precedes(ranks[a[i]], ranks[a[j]])
  }

  lemma TailGrows(ranks: seq<Rank>, before: seq<nat>, after: seq<nat>, end: nat)
    requires Ranked(ranks, before) && Ranked(ranks, after) && 0 < end < |before| == |after|
    requires Heap(ranks, before, 0, end + 1) && TailLeads(ranks, before, end + 1)
    requires after == before[0 := before[end]][end := before[0]]
    ensures TailLeads(ranks, after, end) && Heap(ranks, after, 1, end)
  {
    forall i, j | 0 <= i < j < |after| && end <= j
      ensures !Precedes(ranks[after[i]], ranks[after[j]])
    {
      if j == end {
        RootLeads(ranks, before, end + 1, if i == 0 then end else i);
      } else {
        var source := if i == 0 then end else if i == end then 0 else i;
        assert after[i] == before[source] && after[j] == before[j];
      }
    }
    forall c | 0 < c < end && HeapParent(c) >= 1
      ensures Under(ranks, after, c, HeapParent(c))
    {
      assert Under(ranks, before, c, HeapParent(c));
    }
  }

  /** Rearranging the part below `end` keeps the tail in the lead. */
  lemma TailKept(ranks: seq<Rank>, before: seq<nat>, after: seq<nat>, end: nat)
    requires Ranked(ranks, before) && Ranked(ranks, after) && end <= |before| == |after|
    requires TailLeads(ranks, before, end) && Rearranged(before, after, end)
    ensures TailLeads(ranks, after, end)
  {
    forall i, j | 0 <= i < j < |after| && end <= j
      ensures !Precedes(ranks[after[i]], ranks[after[j]])
    {
      assert after[j] == after[end..][j - end] == before[end..][j - end] == before[j];
      if i < end {
        assert after[i] in multiset(after[..end]) by { assert after[i] in after[..end]; }
        assert after[i] in before[..end];
        var k :| 0 <= k < end && before[..end][k] == after[i];
        assert before[k] == after[i];
      } else {
        assert after[i] == after[end..][i - end] == before[end..][i - end] == before[i];
      }
    }
  }

  /** Heap-sorts the siblings and reverses them: a permutation of the same positions in which
      nothing is preceded by a later element. */
  method OrderChildren(ranks: seq<Rank>, a: array<nat>)
    requires Ranked(ranks, a[..])
    modifies a
    ensures Ranked(ranks, a[..]) && Ordered(ranks, a[..])
    ensures multiset(a[..]) == multiset(old(a[..]))
  {
    var length := a.Length;
    if length < 2 {
      return;
    }
    BuildHeap(ranks, a);
    DrainHeap(ranks, a);
    ghost var drained := a[..];
    ReverseInPlace(a);
  }

  method BuildHeap(ranks: seq<Rank>, a: array<nat>)
    requires a.Length >= 2 && Ranked(ranks, a[..])
    modifies a
    ensures Ranked(ranks, a[..]) && Heap(ranks, a[..], 0, a.Length)
    ensures multiset(a[..]) == multiset(old(a[..]))
  {
    var root := (a.Length - 2) / 2 + 1;
    while root > 0
      invariant 0 <= root <= (a.Length - 2) / 2 + 1
      invariant Ranked(ranks, a[..]) && Heap(ranks, a[..], root, a.Length)
      invariant multiset(a[..]) == multiset(old(a[..]))
    {
      root := root - 1;
      ghost var before := a[..];
      SiftChildHeap(ranks, a, root, a.Length);
      RearrangedWhole(before, a[..], a.Length);
    }
  }

  method DrainHeap(ranks: seq<Rank>, a: array<nat>)
    requires a.Length >= 2 && Ranked(ranks, a[..]) && Heap(ranks, a[..], 0, a.Length)
    modifies a
    ensures Ranked(ranks, a[..]) && TailLeads(ranks, a[..], 1)
    ensures multiset(a[..]) == multiset(old(a[..]))
  {
    var end := a.Length;
    while end > 1
      invariant 1 <= end <= a.Length
      invariant Ranked(ranks, a[..]) && Heap(ranks, a[..], 0, end) && TailLeads(ranks, a[..], end)
      invariant multiset(a[..]) == multiset(old(a[..]))
    {
      end := end - 1;
      ghost var before := a[..];
      Swap(a, 0, end);
      TailGrows(ranks, before, a[..], end);
      ghost var swapped := a[..];
      SiftChildHeap(ranks, a, 0, end);
      RearrangedWhole(swapped, a[..], end);
      TailKept(ranks, swapped, a[..], end);
    }
  }

  method ReverseInPlace(a: array<nat>)
    modifies a
    ensures forall i :: 0 <= i < a.Length ==> a[i] == old(a[a.Length - 1 - i])
    ensures multiset(a[..]) == multiset(old(a[..]))
  {
    var n := a.Length;
    for i := 0 to n / 2
      invariant forall k :: 0 <= k < i ==> a[k] == old(a[n - 1 - k]) && a[n - 1 - k] == old(a[k])
      invariant forall k :: i <= k < n - i ==> a[k] == old(a[k])
      invariant multiset(a[..]) == multiset(old(a[..]))
    {
      Swap(a, i, n - 1 - i);
    }
  }
}
