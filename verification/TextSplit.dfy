/** Splitting text at a separator and joining it again. */
module TextSplit {
  import opened Prelude

  predicate Free(t: Bytes, mark: Byte) {
    forall i :: 0 <= i < |t| ==> t[i] != mark
  }

  /** The pieces between the separators, one more than there are separators. */
  function Split(t: Bytes, mark: Byte): (parts: seq<Bytes>)
    ensures |parts| >= 1
  {
    if t == [] then [[]]
    else
      var front := Split(t[..|t| - 1], mark);
      var last := t[|t| - 1];
      if last == mark then front + [[]]
      else front[|front| - 1 := front[|front| - 1] + [last]]
  }

  function Join(parts: seq<Bytes>, mark: Byte): (t: Bytes) {
    if parts == [] then []
    else if |parts| == 1 then parts[0]
    else Join(parts[..|parts| - 1], mark) + [mark] + parts[|parts| - 1]
  }

  lemma {:induction false} SplitFree(t: Bytes, mark: Byte)
    requires Free(t, mark)
    ensures Split(t, mark) == [t]
  {
    if t != [] {
      SplitFree(t[..|t| - 1], mark);
      assert t == t[..|t| - 1] + [t[|t| - 1]];
    }
  }

  lemma {:induction false} SplitAppend(a: Bytes, b: Bytes, mark: Byte)
    requires Free(b, mark)
    ensures Split(a + [mark] + b, mark) == Split(a, mark) + [b]
    decreases |b|
  {
    var whole := a + [mark] + b;
    if b == [] {
      assert whole[..|whole| - 1] == a;
    } else {
      var shorter := b[..|b| - 1];
      SplitAppend(a, shorter, mark);
      assert whole[..|whole| - 1] == a + [mark] + shorter;
      assert b == shorter + [b[|b| - 1]];
    }
  }

  /** Splitting undoes joining, when no part holds the separator. */
  lemma {:induction false} SplitUndoesJoin(parts: seq<Bytes>, mark: Byte)
    requires |parts| >= 1 && forall i :: 0 <= i < |parts| ==> Free(parts[i], mark)
    ensures Split(Join(parts, mark), mark) == parts
  {
    var n := |parts| - 1;
    if n == 0 {
      SplitFree(parts[0], mark);
    } else {
      var front := parts[..n];
      SplitUndoesJoin(front, mark);
      SplitAppend(Join(front, mark), parts[n], mark);
      assert parts == front + [parts[n]];
    }
  }

  /** Joined text determines its parts, when these are not empty and free of the separator. */
  lemma {:induction false} JoinInjective(a: seq<Bytes>, b: seq<Bytes>, mark: Byte)
    requires forall i :: 0 <= i < |a| ==> a[i] != [] && Free(a[i], mark)
    requires forall i :: 0 <= i < |b| ==> b[i] != [] && Free(b[i], mark)
    requires Join(a, mark) == Join(b, mark)
    ensures a == b
  {
    if a != [] && b != [] {
      SplitUndoesJoin(a, mark);
      SplitUndoesJoin(b, mark);
    }
  }

  /** What stands before and after the first mark. */
  function Cut(t: Bytes, mark: Byte): (r: Option<(Bytes, Bytes)>)
    ensures r.None? <==> Free(t, mark)
    ensures r.Some? ==> t == r.value.0 + [mark] + r.value.1 && Free(r.value.0, mark)
  {
    if t == [] then None
    else if t[0] == mark then Some(([], t[1..]))
    else
      match Cut(t[1..], mark)
      case None => None
      case Some((a, b)) => Some(([t[0]] + a, b))
  }

  /** A text splits at its first mark in one way only. */
  lemma FirstSplitIsUnique(a: Bytes, b: Bytes, c: Bytes, d: Bytes, mark: Byte)
    requires a + [mark] + b == c + [mark] + d && Free(a, mark) && Free(c, mark)
    ensures a == c && b == d
  {
    var t := a + [mark] + b;
    MarkComesFirst(a, b, mark);
    MarkComesFirst(c, d, mark);
    assert |a| == |c|;
    assert a == t[..|a|] == c;
    assert b == t[|a| + 1..] == d;
  }

  lemma MarkComesFirst(a: Bytes, b: Bytes, mark: Byte)
    requires Free(a, mark)
    ensures (a + [mark] + b)[|a|] == mark && forall i :: 0 <= i < |a| ==> (a + [mark] + b)[i] != mark
  {
  }
}
