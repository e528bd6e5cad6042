/** What the configuration digests are computed over, and what equal digest inputs mean. */
module ConfigurationDigest {
  import opened Prelude
  import opened BigEndian
  import opened Decimals
  import opened TextSplit
  import opened Identifiers
  import opened ConfigurationContract
  import opened Configuration

  const COMMA: Byte := 0x2C
  const SEMICOLON: Byte := 0x3B

  predicate IsNameCharacter(c: Byte) {
    0x61 <= c <= 0x7A || 0x30 <= c <= 0x39 || c == 0x2D
  }

  predicate ValidDestination(d: Destination) {
    && (forall i :: 0 <= i < |d.name| ==> IsNameCharacter(d.name[i]))
    && |d.identity| == 16
    && forall i :: 0 <= i < |d.tenants| ==> |d.tenants[i]| == 16
  }

  /** A value that validation can leave in a setting: list entries are not empty and hold no comma. */
  predicate ValidValue(kind: Kind, v: Value) {
    match kind
    case Integer => v.Number?
    case Text => v.Words?
    case TrustedProxyCidrs => v.Entries? && forall i :: 0 <= i < |v.entries| ==> v.entries[i] != [] && Free(v.entries[i], COMMA)
    case CorsAllowedOrigins => v.Entries? && forall i :: 0 <= i < |v.entries| ==> v.entries[i] != [] && Free(v.entries[i], COMMA)
    case ExportDestinations =>
      v.Destinations? && forall i :: 0 <= i < |v.destinations| ==> ValidDestination(v.destinations[i])
  }

  function TenantTexts(tenants: seq<Bytes>): (r: seq<Bytes>)
    requires forall i :: 0 <= i < |tenants| ==> |tenants[i]| == 16
    ensures |r| == |tenants| && forall i :: 0 <= i < |r| ==> r[i] == CanonicalText(tenants[i])
  {
    seq(|tenants|, i requires 0 <= i < |tenants| => CanonicalText(tenants[i]))
  }

  function DestinationText(d: Destination): Bytes
    requires ValidDestination(d)
  {
    Ascii("name=") + (d.name + ([COMMA] + (Ascii("identity=") + (Hexadecimal(d.identity) +
    (Ascii(",allowed_tenants=[") + (Join(TenantTexts(d.tenants), COMMA) + Ascii("]")))))))
  }

  function DestinationTexts(list: seq<Destination>): (r: seq<Bytes>)
    requires forall i :: 0 <= i < |list| ==> ValidDestination(list[i])
    ensures |r| == |list| && forall i :: 0 <= i < |r| ==> r[i] == DestinationText(list[i])
  {
    seq(|list|, i requires 0 <= i < |list| => DestinationText(list[i]))
  }

  /** The canonical text of a setting's value. */
  function TextOf(kind: Kind, v: Value): Bytes
    requires ValidValue(kind, v)
  {
    match v
    case Number(n) => Digits(n)
    case Words(text) => text
    case Entries(entries) => Join(entries, COMMA)
    case Destinations(list) => Join(DestinationTexts(list), SEMICOLON)
  }

  lemma {:induction false} JoinFree(parts: seq<Bytes>, mark: Byte, other: Byte)
    requires mark != other && forall i :: 0 <= i < |parts| ==> Free(parts[i], other)
    ensures Free(Join(parts, mark), other)
  {
    if |parts| > 1 {
      JoinFree(parts[..|parts| - 1], mark, other);
    }
  }

  lemma TenantTextsInjective(a: seq<Bytes>, b: seq<Bytes>)
    requires forall i :: 0 <= i < |a| ==> |a[i]| == 16
    requires forall i :: 0 <= i < |b| ==> |b[i]| == 16
    requires Join(TenantTexts(a), COMMA) == Join(TenantTexts(b), COMMA)
    ensures a == b
  {
    JoinInjective(TenantTexts(a), TenantTexts(b), COMMA);
    forall i | 0 <= i < |a|
      ensures a[i] == b[i]
    {
      assert TenantTexts(a)[i] == TenantTexts(b)[i];
      CanonicalTextInjective(a[i], b[i]);
    }
  }

  lemma SamePrefix(p: Bytes, a: Bytes, b: Bytes)
    requires p + a == p + b
    ensures a == b
  {
    assert a == (p + a)[|p|..] == (p + b)[|p|..] == b;
  }

  lemma SameLengths(p: Bytes, a: Bytes, q: Bytes, b: Bytes)
    requires |p| == |q| && p + a == q + b
    ensures p == q && a == b
  {
    assert p == (p + a)[..|p|] == (q + b)[..|q|] == q;
    assert a == (p + a)[|p|..] == (q + b)[|q|..] == b;
  }

  lemma SameSuffix(a: Bytes, b: Bytes, s: Bytes)
    requires a + s == b + s
    ensures a == b
  {
    assert |a + s| == |a| + |s| && |b + s| == |b| + |s|;
    assert a == (a + s)[..|a|] == (b + s)[..|b|] == b;
  }

  /** One destination's text determines the destination. */
  lemma DestinationInjective(a: Destination, b: Destination)
    requires ValidDestination(a) && ValidDestination(b) && DestinationText(a) == DestinationText(b)
    ensures a == b
  {
    var ta := Join(TenantTexts(a.tenants), COMMA) + Ascii("]");
    var tb := Join(TenantTexts(b.tenants), COMMA) + Ascii("]");
    var ia := Hexadecimal(a.identity) + (Ascii(",allowed_tenants=[") + ta);
    var ib := Hexadecimal(b.identity) + (Ascii(",allowed_tenants=[") + tb);
    var ra, rb := Ascii("identity=") + ia, Ascii("identity=") + ib;
    SamePrefix(Ascii("name="), a.name + ([COMMA] + ra), b.name + ([COMMA] + rb));
    assert a.name + ([COMMA] + ra) == a.name + [COMMA] + ra && b.name + ([COMMA] + rb) == b.name + [COMMA] + rb;
    FirstSplitIsUnique(a.name, ra, b.name, rb, COMMA);
    SamePrefix(Ascii("identity="), ia, ib);
    SameLengths(Hexadecimal(a.identity), Ascii(",allowed_tenants=[") + ta, Hexadecimal(b.identity), Ascii(",allowed_tenants=[") + tb);
    HexadecimalInjective(a.identity, b.identity);
    SamePrefix(Ascii(",allowed_tenants=["), ta, tb);
    SameSuffix(Join(TenantTexts(a.tenants), COMMA), Join(TenantTexts(b.tenants), COMMA), Ascii("]"));
    TenantTextsInjective(a.tenants, b.tenants);
  }

  lemma FreeConcat(a: Bytes, b: Bytes, mark: Byte)
    requires Free(a, mark) && Free(b, mark)
    ensures Free(a + b, mark)
  {
  }

  lemma DestinationTextFree(d: Destination)
    requires ValidDestination(d)
    ensures DestinationText(d) != [] && Free(DestinationText(d), SEMICOLON)
  {
    HexadecimalLetters(d.identity);
    var tenants := Join(TenantTexts(d.tenants), COMMA);
    JoinFree(TenantTexts(d.tenants), COMMA, SEMICOLON);
    assert Free(Hexadecimal(d.identity), SEMICOLON);
    var t1 := tenants + Ascii("]");
    FreeConcat(tenants, Ascii("]"), SEMICOLON);
    var t2 := Ascii(",allowed_tenants=[") + t1;
    FreeConcat(Ascii(",allowed_tenants=["), t1, SEMICOLON);
    var t3 := Hexadecimal(d.identity) + t2;
    FreeConcat(Hexadecimal(d.identity), t2, SEMICOLON);
    var t4 := Ascii("identity=") + t3;
    FreeConcat(Ascii("identity="), t3, SEMICOLON);
    FreeConcat([COMMA], t4, SEMICOLON);
    FreeConcat(d.name, [COMMA] + t4, SEMICOLON);
    FreeConcat(Ascii("name="), d.name + ([COMMA] + t4), SEMICOLON);
  }

  lemma DestinationsInjective(a: seq<Destination>, b: seq<Destination>)
    requires forall i :: 0 <= i < |a| ==> ValidDestination(a[i])
    requires forall i :: 0 <= i < |b| ==> ValidDestination(b[i])
    requires Join(DestinationTexts(a), SEMICOLON) == Join(DestinationTexts(b), SEMICOLON)
    ensures a == b
  {
    forall i | 0 <= i < |a|
      ensures DestinationTexts(a)[i] != [] && Free(DestinationTexts(a)[i], SEMICOLON)
    {
      DestinationTextFree(a[i]);
    }
    forall i | 0 <= i < |b|
      ensures DestinationTexts(b)[i] != [] && Free(DestinationTexts(b)[i], SEMICOLON)
    {
      DestinationTextFree(b[i]);
    }
    JoinInjective(DestinationTexts(a), DestinationTexts(b), SEMICOLON);
    forall i | 0 <= i < |a|
      ensures a[i] == b[i]
    {
      assert DestinationTexts(a)[i] == DestinationTexts(b)[i];
      DestinationInjective(a[i], b[i]);
    }
  }

  /** On validated values the canonical text of a setting determines its value. */
  lemma TextInjective(kind: Kind, v: Value, w: Value)
    requires ValidValue(kind, v) && ValidValue(kind, w)
    ensures TextOf(kind, v) == TextOf(kind, w) <==> v == w
  {
    if TextOf(kind, v) == TextOf(kind, w) {
      match kind
      case Integer => DigitsInjective(v.n, w.n);
      case Text =>
      case TrustedProxyCidrs => JoinInjective(v.entries, w.entries, COMMA);
      case CorsAllowedOrigins => JoinInjective(v.entries, w.entries, COMMA);
      case ExportDestinations => DestinationsInjective(v.destinations, w.destinations);
    }
  }

  /** Without validation it would not: a list of one entry holding a comma reads as a list of two. */
  lemma CommaCollides()
    ensures Join([[0x61, COMMA, 0x62]], COMMA) == Join([[0x61], [0x62]], COMMA)
  {
    assert [[0x61], [0x62]][..1] == [[0x61]];
    assert Join([[0x61], [0x62]], COMMA) == [0x61] + [COMMA] + [0x62];
  }

  /** A resolved configuration: every value is valid for its setting, and its text is of machine size. */
  predicate Valid(c: Config) {
    Complete(c) && forall s: Setting :: ValidValue(KindOf(s), c.values[s]) && |TextOf(KindOf(s), c.values[s])| < POWER_8
  }

  /** A table of path texts. */
  predicate IsPathTable(paths: seq<Bytes>) {
    |paths| == SETTING_COUNT && forall s :: 0 <= s < SETTING_COUNT ==> |paths[s]| < POWER_8
  }

  /** A text behind its length in eight bytes. */
  function Prefixed(t: Bytes): Bytes {
    Encode(|t|, 8) + t
  }

  lemma PrefixedSplits(a: Bytes, x: Bytes, b: Bytes, y: Bytes)
    requires |a| < POWER_8 && |b| < POWER_8 && Prefixed(a) + x == Prefixed(b) + y
    ensures a == b && x == y
  {
    Widths();
    assert Prefixed(a) + x == Encode(|a|, 8) + (a + x) && Prefixed(b) + y == Encode(|b|, 8) + (b + y);
    SameLengths(Encode(|a|, 8), a + x, Encode(|b|, 8), b + y);
    DecodeEncode(|a|, 8);
    DecodeEncode(|b|, 8);
    SameLengths(a, x, b, y);
  }

  predicate Bound(s: Setting, immutableOnly: bool) {
    immutableOnly ==> MutabilityOf(s) == ImmutableAfterInitialization
  }

  /** What one setting adds to a digest's input. */
  function Piece(paths: seq<Bytes>, c: Config, s: Setting, immutableOnly: bool): Bytes
    requires IsPathTable(paths) && Valid(c)
  {
    if Bound(s, immutableOnly) then Prefixed(paths[s]) + Prefixed(TextOf(KindOf(s), c.values[s])) else []
  }

  /** What the first `n` settings add. */
  function Pieces(paths: seq<Bytes>, c: Config, n: nat, immutableOnly: bool): Bytes
    requires IsPathTable(paths) && Valid(c) && n <= |paths|
  {
    if n == 0 then [] else Pieces(paths, c, n - 1, immutableOnly) + Piece(paths, c, n - 1, immutableOnly)
  }

  function Label(immutableOnly: bool): Bytes {
    if immutableOnly then Ascii("positron.configuration.immutable.v1") + [0]
    else Ascii("positron.configuration.audit-binding.v1") + [0]
  }

  function Preimage(paths: seq<Bytes>, c: Config, immutableOnly: bool): Bytes
    requires IsPathTable(paths) && Valid(c)
  {
    Label(immutableOnly) + Pieces(paths, c, |paths|, immutableOnly)
  }

  /** Feeds the table's settings to a digest one after the other. */
  method DigestInput(paths: seq<Bytes>, c: Config, immutableOnly: bool) returns (input: Bytes)
    requires IsPathTable(paths) && Valid(c)
    ensures input == Preimage(paths, c, immutableOnly)
  {
    var head := Label(immutableOnly);
    input := head;
    for n := 0 to |paths|
      invariant input == head + Pieces(paths, c, n, immutableOnly)
    {
      input := AddPiece(paths, c, n, immutableOnly, input);
      Regroup(head, Pieces(paths, c, n, immutableOnly), Piece(paths, c, n, immutableOnly));
    }
  }

  lemma Regroup(a: Bytes, b: Bytes, c: Bytes)
    ensures (a + b) + c == a + (b + c)
  {
  }

  method AddPiece(paths: seq<Bytes>, c: Config, n: Setting, immutableOnly: bool, before: Bytes) returns (input: Bytes)
    requires IsPathTable(paths) && Valid(c)
    ensures input == before + Piece(paths, c, n, immutableOnly)
  {
    if !Bound(n, immutableOnly) {
      assert before + [] == before;
      return before;
    }
    var path, text := Prefixed(paths[n]), Prefixed(TextOf(KindOf(n), c.values[n]));
    Regroup(before, path, text);
    input := before + path + text;
  }

  /** The bound settings below `n` have the same values. */
  ghost predicate SameBelow(a: Config, b: Config, n: nat, immutableOnly: bool)
    requires Complete(a) && Complete(b)
  {
    forall s: Setting :: s < n && Bound(s, immutableOnly) ==> a.values[s] == b.values[s]
  }

  /** What the first `n` settings add is told apart before any suffix. */
  lemma {:induction false} PiecesInjective(paths: seq<Bytes>, a: Config, b: Config, n: nat, x: Bytes, y: Bytes,
                                           immutableOnly: bool)
    requires IsPathTable(paths) && Valid(a) && Valid(b) && n <= |paths|
    ensures Pieces(paths, a, n, immutableOnly) + x == Pieces(paths, b, n, immutableOnly) + y <==>
            SameBelow(a, b, n, immutableOnly) && x == y
  {
    if n == 0 {
      assert [] + x == x && [] + y == y;
    } else {
      var p, q := Piece(paths, a, n - 1, immutableOnly), Piece(paths, b, n - 1, immutableOnly);
      Regroup(Pieces(paths, a, n - 1, immutableOnly), p, x);
      Regroup(Pieces(paths, b, n - 1, immutableOnly), q, y);
      PiecesInjective(paths, a, b, n - 1, p + x, q + y, immutableOnly);
      TextsSplit(paths, a, b, n - 1, x, y, immutableOnly);
      SameWithLast(a, b, n, immutableOnly);
    }
  }

  lemma SameWithLast(a: Config, b: Config, n: nat, immutableOnly: bool)
    requires Complete(a) && Complete(b) && 0 < n <= SETTING_COUNT
    ensures SameBelow(a, b, n, immutableOnly) <==>
            SameBelow(a, b, n - 1, immutableOnly) && (Bound(n - 1, immutableOnly) ==> a.values[n - 1] == b.values[n - 1])
  {
  }

  /** Equal digest inputs mean equal bound settings. */
  lemma PreimageInjective(paths: seq<Bytes>, a: Config, b: Config, immutableOnly: bool)
    requires IsPathTable(paths) && Valid(a) && Valid(b)
    ensures Preimage(paths, a, immutableOnly) == Preimage(paths, b, immutableOnly) <==> SameBelow(a, b, |paths|, immutableOnly)
  {
    var x, y := Pieces(paths, a, |paths|, immutableOnly), Pieces(paths, b, |paths|, immutableOnly);
    PiecesInjective(paths, a, b, |paths|, [], [], immutableOnly);
    assert x + [] == x && y + [] == y;
    if Label(immutableOnly) + x == Label(immutableOnly) + y {
      SamePrefix(Label(immutableOnly), x, y);
    }
  }

  lemma BytesSplit(path: Bytes, s: Bytes, x: Bytes, t: Bytes, y: Bytes)
    requires |s| < POWER_8 && |t| < POWER_8
    ensures (path + Prefixed(s)) + x == (path + Prefixed(t)) + y <==> s == t && x == y
  {
    assert (path + Prefixed(s)) + x == path + (Prefixed(s) + x);
    assert (path + Prefixed(t)) + y == path + (Prefixed(t) + y);
    if path + (Prefixed(s) + x) == path + (Prefixed(t) + y) {
      SamePrefix(path, Prefixed(s) + x, Prefixed(t) + y);
      PrefixedSplits(s, x, t, y);
    }
  }

  lemma TextsSplit(paths: seq<Bytes>, a: Config, b: Config, n: Setting, x: Bytes, y: Bytes, immutableOnly: bool)
    requires IsPathTable(paths) && Valid(a) && Valid(b)
    ensures Piece(paths, a, n, immutableOnly) + x == Piece(paths, b, n, immutableOnly) + y <==>
            (Bound(n, immutableOnly) ==> a.values[n] == b.values[n]) && x == y
  {
    if Bound(n, immutableOnly) {
      TextInjective(KindOf(n), a.values[n], b.values[n]);
      BytesSplit(Prefixed(paths[n]), TextOf(KindOf(n), a.values[n]), x, TextOf(KindOf(n), b.values[n]), y);
    } else {
      assert [] + x == x && [] + y == y;
    }
  }

  lemma EmptyDiff(a: Config, b: Config)
    requires Complete(a) && Complete(b)
    ensures Changed(a, b) == [] <==> SameBelow(a, b, SETTING_COUNT, false)
  {
    ChangedMembers(a, b, SETTING_COUNT);
    var changed := Changed(a, b);
    if changed != [] {
      assert changed[0] in changed;
      assert Differs(a, b, changed[0]) && Bound(changed[0], false);
    }
    forall s: Setting | changed == []
      ensures a.values[s] == b.values[s]
    {
      assert s !in changed;
    }
  }

  lemma ImmutableDiff(a: Config, b: Config)
    requires Complete(a) && Complete(b)
    ensures DiffPlanOf(Changed(a, b)) == RequiresMigration <==> !SameBelow(a, b, SETTING_COUNT, true)
  {
    ChangedMembers(a, b, SETTING_COUNT);
    if !SameBelow(a, b, SETTING_COUNT, true) {
      var s: Setting :| Bound(s, true) && a.values[s] != b.values[s];
      assert Differs(a, b, s) && s in Changed(a, b);
    }
    if DiffPlanOf(Changed(a, b)) == RequiresMigration {
      var s :| s in Changed(a, b) && MutabilityOf(s) == ImmutableAfterInitialization;
      assert Differs(a, b, s) && Bound(s, true);
    }
  }

  /** Two resolved configurations have the same audit binding exactly when their semantic difference is empty,
      and different immutable bindings exactly when an update between them is refused. */
  lemma DigestsMatchTheDiff(paths: seq<Bytes>, a: Config, b: Config)
    requires IsPathTable(paths) && Valid(a) && Valid(b)
    ensures Preimage(paths, a, false) == Preimage(paths, b, false) <==> Changed(a, b) == []
    ensures Preimage(paths, a, true) != Preimage(paths, b, true) <==> DiffPlanOf(Changed(a, b)) == RequiresMigration
  {
    PreimageInjective(paths, a, b, false);
    PreimageInjective(paths, a, b, true);
    EmptyDiff(a, b);
    ImmutableDiff(a, b);
  }

  /** Applying live changes leaves the immutable binding as it was. */
  lemma LiveChangesKeepTheBinding(paths: seq<Bytes>, a: Config, candidate: Config, active: Config)
    requires IsPathTable(paths) && Valid(a) && Valid(candidate) && LiveSuccessor(a, candidate, active)
    ensures Valid(active) && Preimage(paths, active, true) == Preimage(paths, a, true)
  {
    PreimageInjective(paths, active, a, true);
  }
}
