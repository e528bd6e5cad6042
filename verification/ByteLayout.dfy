/** Buffers that are written part after part and read back by offset. */
module ByteLayout {
  import opened Prelude

  function Joined(parts: seq<Bytes>): (r: Bytes) {
    if parts == [] then [] else parts[0] + Joined(parts[1..])
  }

  /** Where the part `k` starts. */
  function Offset(parts: seq<Bytes>, k: nat): (r: nat)
    requires k <= |parts|
  {
    if k == 0 then 0 else Offset(parts, k - 1) + |parts[k - 1]|
  }

  lemma {:induction false} OffsetOfRest(parts: seq<Bytes>, k: nat)
    requires 0 < k <= |parts|
    ensures Offset(parts, k) == |parts[0]| + Offset(parts[1..], k - 1)
    decreases k
  {
    if k > 1 {
      OffsetOfRest(parts, k - 1);
      assert parts[1..][k - 2] == parts[k - 1];
    }
  }

  lemma {:induction false} JoinedLength(parts: seq<Bytes>)
    ensures |Joined(parts)| == Offset(parts, |parts|)
    decreases |parts|
  {
    if parts != [] {
      JoinedLength(parts[1..]);
      OffsetOfRest(parts, |parts|);
    }
  }

  /** Every part is read back from its own offset. */
  lemma {:induction false} PartAt(parts: seq<Bytes>, k: nat)
    requires k < |parts|
    ensures Offset(parts, k) + |parts[k]| <= |Joined(parts)|
    ensures Joined(parts)[Offset(parts, k)..Offset(parts, k) + |parts[k]|] == parts[k]
    decreases k
  {
    var rest := Joined(parts[1..]);
    if k > 0 {
      PartAt(parts[1..], k - 1);
      OffsetOfRest(parts, k);
      var from := Offset(parts[1..], k - 1);
      assert (parts[0] + rest)[|parts[0]| + from..|parts[0]| + from + |parts[k]|] == rest[from..from + |parts[k]|];
    }
  }

  ghost predicate ReadFrom(b: Bytes, parts: seq<Bytes>, k: nat)
    requires k < |parts|
  {
    Offset(parts, k) + |parts[k]| <= |b| && b[Offset(parts, k)..Offset(parts, k) + |parts[k]|] == parts[k]
  }

  /** A buffer is the join of the parts read from it, if these cover it. */
  lemma {:induction false} Rejoin(b: Bytes, parts: seq<Bytes>, k: nat)
    requires k <= |parts| && Offset(parts, |parts|) == |b|
    requires forall j :: 0 <= j < |parts| ==> ReadFrom(b, parts, j)
    ensures Offset(parts, k) <= |b| && Joined(parts[k..]) == b[Offset(parts, k)..]
    decreases |parts| - k
  {
    if k < |parts| {
      Rejoin(b, parts, k + 1);
      assert ReadFrom(b, parts, k);
      assert parts[k..][1..] == parts[k + 1..];
      var from := Offset(parts, k);
      assert b[from..] == b[from..from + |parts[k]|] + b[from + |parts[k]|..];
    }
  }
}
