/** Child schedules of one span: the exhaustive enumeration that takes the greatest
    compatible schedule, and the greedy backwards walk it is compared with. */
module TraceSchedule {
  import opened Prelude
  import opened TraceGraph

  predicate Timed(nodes: Nodes) {
    forall id :: id in nodes ==> nodes[id].interval.Some?
  }

  predicate HasTime(nodes: Nodes, id: SpanId) {
    id in nodes && nodes[id].interval.Some?
  }

  function StartOf(nodes: Nodes, id: SpanId): Instant
    requires HasTime(nodes, id)
  {
    nodes[id].interval.value.start
  }

  function EndOf(nodes: Nodes, id: SpanId): Instant
    requires HasTime(nodes, id)
  {
    nodes[id].interval.value.end
  }

  /** A direct child that starts before the cursor and has returned by it. */
  predicate Eligible(nodes: Nodes, parent: SpanId, cursor: Instant, id: SpanId) {
    HasTime(nodes, id) && nodes[id].parent == Some(parent) && StartOf(nodes, id) < cursor && EndOf(nodes, id) <= cursor
  }

  /** A latest-first list of children in which each one has returned before the next one starts. */
  ghost predicate Compatible(nodes: Nodes, parent: SpanId, cursor: Instant, schedule: seq<SpanId>)
    decreases |schedule|
  {
    schedule == [] ||
    (Eligible(nodes, parent, cursor, schedule[0]) &&
     Compatible(nodes, parent, StartOf(nodes, schedule[0]), schedule[1..]))
  }

  function TimedEnd(nodes: Nodes, id: SpanId): Option<Instant> {
    if HasTime(nodes, id) then Some(EndOf(nodes, id)) else None
  }

  /** Absent ends sort first; equal ends are broken in favour of the smaller identifier. */
  function CompareSpans(nodes: Nodes, left: SpanId, right: SpanId): Ordering {
    match (TimedEnd(nodes, left), TimedEnd(nodes, right))
    case (None, Some(_)) => Less
    case (Some(_), None) => Greater
    case (None, None) => CompareIds(right, left)
    case (Some(l), Some(r)) => if l < r then Less else if l > r then Greater else CompareIds(right, left)
  }

  function CompareIds(left: SpanId, right: SpanId): Ordering {
    if left < right then Less else if left > right then Greater else Equal
  }

  function CompareSchedules(nodes: Nodes, left: seq<SpanId>, right: seq<SpanId>): Ordering {
    if left == [] || right == [] then
      if |left| < |right| then Less else if |left| > |right| then Greater else Equal
    else
      match CompareSpans(nodes, left[0], right[0])
      case Equal => CompareSchedules(nodes, left[1..], right[1..])
      case order => order
  }

  lemma {:induction false} LeastOf(s: set<SpanId>) returns (m: SpanId)
    requires s != {}
    ensures m in s && forall x :: x in s ==> m <= x
  {
    m :| m in s;
    var rest := s - {m};
    assert forall x :: x in s ==> x == m || x in rest;
    if rest != {} {
      var other := LeastOf(rest);
      if other < m {
        m := other;
      }
    }
  }

  ghost predicate IsLeast(s: set<SpanId>, m: SpanId) {
    m in s && forall x :: x in s ==> m <= x
  }

  lemma LeastExists(s: set<SpanId>)
    requires s != {}
    ensures exists m :: IsLeast(s, m)
  {
    var m := LeastOf(s);
    assert IsLeast(s, m);
  }

  predicate StrictlyAscending(q: seq<SpanId>) {
    forall i, j :: 0 <= i < j < |q| ==> q[i] < q[j]
  }

  /** The keys of a map, in the ascending order in which it is walked. */
  method AscendingKeys(nodes: Nodes) returns (r: seq<SpanId>)
    ensures StrictlyAscending(r)
    ensures forall x :: x in r <==> x in nodes
  {
    var rest := nodes.Keys;
    r := [];
    while rest != {}
      invariant rest <= nodes.Keys
      invariant StrictlyAscending(r)
      invariant forall x :: x in nodes <==> x in r || x in rest
      invariant forall x, y :: x in r && y in rest ==> x < y
      decreases rest
    {
      LeastExists(rest);
      var least :| least in rest && forall x :: x in rest ==> least <= x;
      forall k | 0 <= k < |r|
        ensures r[k] < least
      {
        assert r[k] in r;
      }
      r := r + [least];
      rest := rest - {least};
    }
  }

  /** The schedules that begin with `child` and go on with one of `suffixes`. */
  method Prepend(child: SpanId, suffixes: seq<seq<SpanId>>) returns (r: seq<seq<SpanId>>)
    ensures forall s :: s in r <==> s != [] && s[0] == child && s[1..] in suffixes
  {
    r := [];
    for j := 0 to |suffixes|
      invariant |r| == j
      invariant forall k :: 0 <= k < j ==> r[k] == [child] + suffixes[k]
    {
      r := r + [[child] + suffixes[j]];
    }
    forall s | s != [] && s[0] == child && s[1..] in suffixes
      ensures s in r
    {
      var k :| 0 <= k < |suffixes| && suffixes[k] == s[1..];
      assert s == [s[0]] + s[1..];
      assert r[k] == s;
    }
  }

  /** `schedules` holds exactly the compatible schedules that are empty or begin in `firsts`. */
  ghost predicate Enumerates(nodes: Nodes, parent: SpanId, cursor: Instant, firsts: seq<SpanId>,
                             schedules: seq<seq<SpanId>>)
  {
    forall s :: s in schedules <==> Compatible(nodes, parent, cursor, s) && (s == [] || s[0] in firsts)
  }

  /** Enumerates every compatible schedule, recursing on the start of each eligible child. */
  method PreferredScheduleOptions(nodes: Nodes, parent: SpanId, cursor: Instant)
    returns (r: Option<seq<seq<SpanId>>>)
    ensures r.Some? <==> Timed(nodes)
    ensures r.Some? ==> forall s :: s in r.value <==> Compatible(nodes, parent, cursor, s)
    decreases cursor - I64_MIN
  {
    var ids := AscendingKeys(nodes);
    var schedules: seq<seq<SpanId>> := [[]];
    for i := 0 to |ids|
      invariant forall j :: 0 <= j < i ==> HasTime(nodes, ids[j])
      invariant Enumerates(nodes, parent, cursor, ids[..i], schedules)
    {
      var child := ids[i];
      if nodes[child].interval.None? {
        return None;
      }
      var added := [];
      if Eligible(nodes, parent, cursor, child) {
        var suffixes := PreferredScheduleOptions(nodes, parent, StartOf(nodes, child));
        if suffixes.None? {
          return None;
        }
        added := Prepend(child, suffixes.value);
      }
      assert forall s :: s in added <==> Compatible(nodes, parent, cursor, s) && s != [] && s[0] == child;
      EnumerationGrows(nodes, parent, cursor, ids, i, schedules, added);
      schedules := schedules + added;
    }
    assert ids[..|ids|] == ids;
    forall s | Compatible(nodes, parent, cursor, s) && s != []
      ensures s[0] in ids
    {
      assert s[0] in nodes;
    }
    r := Some(schedules);
  }

  lemma EnumerationGrows(nodes: Nodes, parent: SpanId, cursor: Instant, ids: seq<SpanId>, i: nat,
                         schedules: seq<seq<SpanId>>, added: seq<seq<SpanId>>)
    requires i < |ids| && Enumerates(nodes, parent, cursor, ids[..i], schedules)
    requires forall s :: s in added <==> Compatible(nodes, parent, cursor, s) && s != [] && s[0] == ids[i]
    ensures Enumerates(nodes, parent, cursor, ids[..i + 1], schedules + added)
  {
    assert ids[..i + 1] == ids[..i] + [ids[i]];
    assert forall s :: s in schedules + added <==> s in schedules || s in added;
  }

  /** Ranks strictly: a later end, then a smaller identifier. */
  predicate Better(nodes: Nodes, a: SpanId, b: SpanId)
    requires HasTime(nodes, a) && HasTime(nodes, b)
  {
    EndOf(nodes, a) > EndOf(nodes, b) || (EndOf(nodes, a) == EndOf(nodes, b) && a < b)
  }

  ghost predicate IsBest(nodes: Nodes, parent: SpanId, cursor: Instant, id: SpanId) {
    && Eligible(nodes, parent, cursor, id)
    && forall o :: Eligible(nodes, parent, cursor, o) && o != id ==> Better(nodes, id, o)
  }

  ghost predicate HasEligible(nodes: Nodes, parent: SpanId, cursor: Instant) {
    exists id :: Eligible(nodes, parent, cursor, id)
  }

  lemma {:induction false} BestOf(nodes: Nodes, s: set<SpanId>) returns (best: SpanId)
    requires s != {} && forall x :: x in s ==> HasTime(nodes, x)
    ensures best in s && forall o :: o in s && o != best ==> Better(nodes, best, o)
  {
    best :| best in s;
    var rest := s - {best};
    assert forall x :: x in s ==> x == best || x in rest;
    if rest != {} {
      var other := BestOf(nodes, rest);
      if Better(nodes, other, best) {
        best := other;
      }
    }
  }

  lemma BestExists(nodes: Nodes, parent: SpanId, cursor: Instant)
    requires HasEligible(nodes, parent, cursor)
    ensures exists id :: IsBest(nodes, parent, cursor, id)
  {
    var s := set id | id in nodes && Eligible(nodes, parent, cursor, id);
    var id :| Eligible(nodes, parent, cursor, id);
    assert id in s;
    var best := BestOf(nodes, s);
    assert IsBest(nodes, parent, cursor, best);
  }

  ghost function Best(nodes: Nodes, parent: SpanId, cursor: Instant): (id: SpanId)
    requires HasEligible(nodes, parent, cursor)
    ensures IsBest(nodes, parent, cursor, id)
  {
    BestExists(nodes, parent, cursor);
    var best :| IsBest(nodes, parent, cursor, best);
    best
  }

  /** Repeatedly takes the eligible child that returned last, until none is eligible. */
  ghost function Greedy(nodes: Nodes, parent: SpanId, cursor: Instant): seq<SpanId>
    decreases cursor - I64_MIN
  {
    if HasEligible(nodes, parent, cursor) then
      var best := Best(nodes, parent, cursor);
      [best] + Greedy(nodes, parent, StartOf(nodes, best))
    else []
  }

  lemma {:induction false} GreedyIsCompatible(nodes: Nodes, parent: SpanId, cursor: Instant)
    ensures Compatible(nodes, parent, cursor, Greedy(nodes, parent, cursor))
    decreases cursor - I64_MIN
  {
    if HasEligible(nodes, parent, cursor) {
      GreedyIsCompatible(nodes, parent, StartOf(nodes, Best(nodes, parent, cursor)));
    }
  }

  /** Every other compatible schedule compares below the greedy one, so the maximum of the
      enumeration is unique and is the greedy walk. */
  lemma {:induction false} GreedyIsTheMaximum(nodes: Nodes, parent: SpanId, cursor: Instant, s: seq<SpanId>)
    requires Compatible(nodes, parent, cursor, s)
    ensures s == Greedy(nodes, parent, cursor) ==>
              CompareSchedules(nodes, s, Greedy(nodes, parent, cursor)) == Equal
    ensures s != Greedy(nodes, parent, cursor) ==>
              && CompareSchedules(nodes, s, Greedy(nodes, parent, cursor)) == Less
              && CompareSchedules(nodes, Greedy(nodes, parent, cursor), s) == Greater
    decreases |s|
  {
    var greedy := Greedy(nodes, parent, cursor);
    if s == [] {
    } else {
      assert Eligible(nodes, parent, cursor, s[0]);
      assert HasEligible(nodes, parent, cursor);
      var best := Best(nodes, parent, cursor);
      assert greedy[1..] == Greedy(nodes, parent, StartOf(nodes, best));
      if s[0] == best {
        GreedyIsTheMaximum(nodes, parent, StartOf(nodes, best), s[1..]);
        assert s == [s[0]] + s[1..];
      } else {
        assert Better(nodes, best, s[0]);
      }
    }
  }

  /** The enumeration picks exactly the schedule of the greedy backwards walk, for every finite
      span set and every cursor. */
  method PreferredSchedule(nodes: Nodes, parent: SpanId, cursor: Instant) returns (r: Option<seq<SpanId>>)
    ensures r.Some? <==> Timed(nodes)
    ensures r.Some? ==> r.value == Greedy(nodes, parent, cursor)
  {
    var options := PreferredScheduleOptions(nodes, parent, cursor);
    if options.None? {
      return None;
    }
    var schedules := options.value;
    ghost var greedy := Greedy(nodes, parent, cursor);
    GreedyIsCompatible(nodes, parent, cursor);
    assert [] in schedules;
    var best := schedules[0];
    for i := 1 to |schedules|
      invariant best in schedules[..i]
      invariant greedy in schedules[..i] ==> best == greedy
    {
      assert schedules[i] in schedules;
      GreedyIsTheMaximum(nodes, parent, cursor, schedules[i]);
      GreedyIsTheMaximum(nodes, parent, cursor, best);
      if CompareSchedules(nodes, best, schedules[i]) != Greater {
        best := schedules[i];
      }
      assert schedules[..i + 1] == schedules[..i] + [schedules[i]];
    }
    assert schedules[..|schedules|] == schedules;
    r := Some(best);
  }
}
