/** What the validators leave in a configuration, so that what resolution returns is fit for the digests. */
module ConfigurationValidity {
  import opened Prelude
  import opened BigEndian
  import opened Decimals
  import opened TextSplit
  import opened Identifiers
  import opened ConfigurationContract
  import opened Configuration
  import opened ConfigurationDigest
  import opened ConfigurationResolution
  import Entries = ConfigurationEntries

  const MAX_CONFIGURATION_BYTES: nat := 0x4000
  const MAX_ENTRIES: nat := 16
  const MAX_DESTINATIONS: nat := 8
  const MAX_NAME_BYTES: nat := 63
  const MAX_TENANTS: nat := 8

  /** The address parser: which texts are addresses of either version. */
  datatype Addresses = Addresses(isV4: Bytes -> bool, isV6: Bytes -> bool)

  /** No address text holds a comma. */
  ghost predicate Plain(a: Addresses) {
    forall t :: a.isV4(t) || a.isV6(t) ==> Free(t, COMMA)
  }

  /** A value of a list in the configuration document. */
  datatype Item = StringItem(text: Bytes) | OtherItem

  predicate IsCidr(a: Addresses, item: Item) {
    item.StringItem? && Entries.AcceptsCidr(item.text, a.isV4, a.isV6)
  }

  predicate IsOrigin(a: Addresses, item: Item) {
    item.StringItem? && Entries.AcceptsOrigin(item.text, a.isV6)
  }

  /** The texts of the first `n` items. */
  ghost predicate Texts(items: seq<Item>, n: nat, texts: seq<Bytes>) {
    n == |texts| <= |items| && forall i :: 0 <= i < n ==> items[i] == StringItem(texts[i])
  }

  /** Reads a list of trusted proxy ranges. */
  method ParseTrustedProxyCidrs(a: Addresses, items: seq<Item>) returns (r: Result<seq<Bytes>, ConfigurationResolution.Failure>)
    ensures r.Ok? <==> |items| <= MAX_ENTRIES && forall i :: 0 <= i < |items| ==> IsCidr(a, items[i])
    ensures r.Ok? ==> Texts(items, |items|, r.value)
    ensures r.Ok? ==> forall s: Setting :: KindOf(s).TrustedProxyCidrs? ==> Accepts(a, s, Value.Entries(r.value))
  {
    if |items| > MAX_ENTRIES {
      return Err(Rejected);
    }
    var cidrs: seq<Bytes> := [];
    for n := 0 to |items|
      invariant Texts(items, n, cidrs)
      invariant forall i :: 0 <= i < n ==> IsCidr(a, items[i])
    {
      if !IsCidr(a, items[n]) {
        return Err(Rejected);
      }
      cidrs := cidrs + [items[n].text];
    }
    assert forall i :: 0 <= i < |cidrs| ==> items[i] == StringItem(cidrs[i]) && IsCidr(a, items[i]);
    r := Ok(cidrs);
  }

  /** Whether an item was read before. */
  method IsRepeated(ghost items: seq<Item>, origins: seq<Bytes>, item: Item) returns (r: bool)
    requires Texts(items, |origins|, origins) && item.StringItem?
    ensures r <==> item in items[..|origins|]
  {
    r := item.text in origins;
    if r {
      var i :| 0 <= i < |origins| && origins[i] == item.text;
      assert items[..|origins|][i] == item;
    }
  }

  /** Reads a list of allowed origins; none may be named twice. */
  method ParseCorsAllowedOrigins(a: Addresses, items: seq<Item>) returns (r: Result<seq<Bytes>, ConfigurationResolution.Failure>)
    ensures r.Ok? <==> |items| <= MAX_ENTRIES && (forall i :: 0 <= i < |items| ==> IsOrigin(a, items[i])) && NoRepetition(items, |items|)
    ensures r.Ok? ==> Texts(items, |items|, r.value)
    ensures r.Ok? ==> forall s: Setting :: KindOf(s).CorsAllowedOrigins? ==> Accepts(a, s, Value.Entries(r.value))
  {
    if |items| > MAX_ENTRIES {
      return Err(Rejected);
    }
    var origins: seq<Bytes> := [];
    for n := 0 to |items|
      invariant Texts(items, n, origins) && NoRepetition(items, n)
      invariant forall i :: 0 <= i < n ==> IsOrigin(a, items[i])
    {
      if !IsOrigin(a, items[n]) {
        return Err(Rejected);
      }
      var repeated := IsRepeated(items, origins, items[n]);
      if repeated {
        return Err(ConflictingSetting);
      }
      origins := origins + [items[n].text];
    }
    assert forall i :: 0 <= i < |origins| ==> items[i] == StringItem(origins[i]) && IsOrigin(a, items[i]);
    r := Ok(origins);
  }

  /** None of the first `n` items occurs before. */
  ghost predicate NoRepetition(items: seq<Item>, n: nat) {
    n <= |items| && forall k :: 0 <= k < n ==> items[k] !in items[..k]
  }

  /** A destination's name: lowercase letters, digits and inner hyphens. */
  predicate IsName(name: Bytes) {
    && 1 <= |name| <= MAX_NAME_BYTES && name[0] != HYPHEN && name[|name| - 1] != HYPHEN
    && forall i :: 0 <= i < |name| ==> IsNameCharacter(name[i])
  }

  predicate IsDestination(d: Destination) {
    && IsName(d.name) && |d.identity| == 16
    && 1 <= |d.tenants| <= MAX_TENANTS && forall i :: 0 <= i < |d.tenants| ==> |d.tenants[i]| == 16
  }

  /** What the parsers of a setting accept. A single text is part of a document, an override or a default, none of
      which exceeds the document's bound. */
  predicate Accepts(a: Addresses, s: Setting, v: Value) {
    match KindOf(s)
    case Integer => v.Number? && v.n <= U64_MAX
    case Text => v.Words? && |v.text| <= MAX_CONFIGURATION_BYTES
    case TrustedProxyCidrs =>
      v.Entries? && |v.entries| <= MAX_ENTRIES && forall i :: 0 <= i < |v.entries| ==> IsCidr(a, StringItem(v.entries[i]))
    case CorsAllowedOrigins =>
      v.Entries? && |v.entries| <= MAX_ENTRIES && forall i :: 0 <= i < |v.entries| ==> IsOrigin(a, StringItem(v.entries[i]))
    case ExportDestinations =>
      v.Destinations? && |v.destinations| <= MAX_DESTINATIONS
      && forall i :: 0 <= i < |v.destinations| ==> IsDestination(v.destinations[i])
  }

  /** Accepted values are valid for the digests. */
  lemma AcceptedIsValid(a: Addresses, s: Setting, v: Value)
    requires Plain(a) && Accepts(a, s, v)
    ensures ValidValue(KindOf(s), v)
  {
    if KindOf(s).TrustedProxyCidrs? {
      forall i | 0 <= i < |v.entries|
        ensures v.entries[i] != [] && Free(v.entries[i], COMMA)
      {
        assert IsCidr(a, StringItem(v.entries[i]));
        Entries.CidrIsPlain(v.entries[i], a.isV4, a.isV6);
      }
    } else if KindOf(s).CorsAllowedOrigins? {
      forall i | 0 <= i < |v.entries|
        ensures v.entries[i] != [] && Free(v.entries[i], COMMA)
      {
        assert IsOrigin(a, StringItem(v.entries[i]));
        Entries.OriginIsPlain(v.entries[i], a.isV6);
      }
    }
  }

  lemma {:induction false} JoinLength(parts: seq<Bytes>, mark: Byte, longest: nat)
    requires forall i :: 0 <= i < |parts| ==> |parts[i]| <= longest
    ensures |Join(parts, mark)| <= |parts| * (longest + 1)
  {
    if |parts| > 1 {
      JoinLength(parts[..|parts| - 1], mark, longest);
      assert |parts| * (longest + 1) == (|parts| - 1) * (longest + 1) + (longest + 1);
    }
  }

  lemma DestinationTextLength(d: Destination)
    requires IsDestination(d)
    ensures |DestinationText(d)| <= 1000
  {
    JoinLength(TenantTexts(d.tenants), COMMA, 36);
    assert |Ascii("name=")| == 5 && |Ascii("identity=")| == 9 && |Ascii(",allowed_tenants=[")| == 18 && |Ascii("]")| == 1;
  }

  lemma DestinationsTextLength(list: seq<Destination>)
    requires |list| <= MAX_DESTINATIONS && forall i :: 0 <= i < |list| ==> IsDestination(list[i]) && ValidDestination(list[i])
    ensures |Join(DestinationTexts(list), SEMICOLON)| < POWER_8
  {
    forall i | 0 <= i < |list|
      ensures |DestinationTexts(list)[i]| <= 1000
    {
      DestinationTextLength(list[i]);
    }
    JoinLength(DestinationTexts(list), SEMICOLON, 1000);
    assert |list| * 1001 <= 8008;
    SmallFits(8008);
  }

  lemma SmallFits(n: nat)
    requires n <= 0x1_0000
    ensures n < POWER_8
  {
    Widths();
  }

  lemma EntriesTextLength(entries: seq<Bytes>)
    requires |entries| <= MAX_ENTRIES && forall i :: 0 <= i < |entries| ==> |entries[i]| <= 256
    ensures |Join(entries, COMMA)| < POWER_8
  {
    JoinLength(entries, COMMA, 256);
    assert |entries| * 257 <= 4112;
    SmallFits(4112);
  }

  lemma NumberTextLength(n: nat)
    requires n <= U64_MAX
    ensures |Digits(n)| <= 20
  {
    assert Power10(5) == 100_000;
    assert Power10(10) == 10_000_000_000;
    assert Power10(15) == 1_000_000_000_000_000;
    assert Power10(20) == 100_000_000_000_000_000_000;
    DigitCount(n, 20);
  }

  /** Their texts are of machine size. */
  lemma AcceptedFits(a: Addresses, s: Setting, v: Value)
    requires Plain(a) && Accepts(a, s, v) && ValidValue(KindOf(s), v)
    ensures |TextOf(KindOf(s), v)| < POWER_8
  {
    Widths();
    match v
    case Number(n) => NumberTextLength(n);
    case Words(_) =>
    case Entries(entries) =>
      assert forall i :: 0 <= i < |entries| ==> IsCidr(a, StringItem(entries[i])) || IsOrigin(a, StringItem(entries[i]));
      EntriesTextLength(entries);
    case Destinations(list) => DestinationsTextLength(list);
  }

  /** Every value that a layer gives to a setting went through the setting's parser. */
  ghost predicate Vetted(a: Addresses, layer: Layer) {
    forall m :: m in layer && m.setting.Some? && m.value.Ok? ==> Accepts(a, m.setting.value, m.value.value)
  }

  ghost predicate AllVetted(a: Addresses, defaults: seq<Value>, inputs: Inputs) {
    && |defaults| == SETTING_COUNT && (forall s: Setting :: Accepts(a, s, defaults[s]))
    && (inputs.file.Some? ==> Vetted(a, inputs.file.value)) && Vetted(a, inputs.environment) && Vetted(a, inputs.commandLine)
  }

  /** What resolution returns is valid, value by value. */
  lemma ResolvedIsValid(a: Addresses, defaults: seq<Value>, inputs: Inputs, c: Config)
    requires Plain(a) && AllVetted(a, defaults, inputs) && IsResolved(defaults, inputs, c)
    ensures Valid(c)
  {
    forall s: Setting
      ensures ValidValue(KindOf(s), c.values[s]) && |TextOf(KindOf(s), c.values[s])| < POWER_8
    {
      WinnerIsAccepted(a, defaults, inputs, c, s);
      AcceptedIsValid(a, s, c.values[s]);
      AcceptedFits(a, s, c.values[s]);
    }
  }

  lemma WinnerIsAccepted(a: Addresses, defaults: seq<Value>, inputs: Inputs, c: Config, s: Setting)
    requires AllVetted(a, defaults, inputs) && IsResolved(defaults, inputs, c)
    ensures Accepts(a, s, c.values[s])
  {
    assert Wins(defaults, inputs, c, s);
    MentionIsThere(inputs.commandLine, s);
    MentionIsThere(inputs.environment, s);
    if inputs.file.Some? {
      MentionIsThere(inputs.file.value, s);
    }
  }

  /** Two results of resolution, each with its own inputs: their audit bindings are equal exactly when their semantic
      difference is empty, and their immutable bindings differ exactly when an update between them is refused. */
  lemma ResolvedDigestsMatchTheDiff(paths: seq<Bytes>, a: Addresses, defaults: seq<Value>, first: Inputs, b: Config,
                                    second: Inputs, c: Config)
    requires IsPathTable(paths) && Plain(a)
    requires AllVetted(a, defaults, first) && IsResolved(defaults, first, b)
    requires AllVetted(a, defaults, second) && IsResolved(defaults, second, c)
    ensures Valid(b) && Valid(c)
    ensures Preimage(paths, b, false) == Preimage(paths, c, false) <==> Changed(b, c) == []
    ensures Preimage(paths, b, true) != Preimage(paths, c, true) <==> DiffPlanOf(Changed(b, c)) == RequiresMigration
  {
    ResolvedIsValid(a, defaults, first, b);
    ResolvedIsValid(a, defaults, second, c);
    DigestsMatchTheDiff(paths, b, c);
  }

  /** Resolves two sets of inputs and compares what they bind. */
  method CompareResolutions(paths: seq<Bytes>, ghost a: Addresses, defaults: seq<Value>, first: Inputs, second: Inputs)
    returns (r: Option<(bool, bool)>)
    requires IsPathTable(paths) && Plain(a) && AllVetted(a, defaults, first) && AllVetted(a, defaults, second)
    ensures r.Some? ==>
              exists b, c ::
                && IsResolved(defaults, first, b) && IsResolved(defaults, second, c)
                && (r.value.0 <==> Changed(b, c) == []) && (r.value.1 <==> DiffPlanOf(Changed(b, c)) != RequiresMigration)
  {
    var b := Resolve(defaults, first);
    var c := Resolve(defaults, second);
    if b.Err? || c.Err? {
      return None;
    }
    ResolvedDigestsMatchTheDiff(paths, a, defaults, first, b.value, second, c.value);
    var audit := DigestInput(paths, b.value, false);
    var other := DigestInput(paths, c.value, false);
    var fixed := DigestInput(paths, b.value, true);
    var still := DigestInput(paths, c.value, true);
    r := Some((audit == other, fixed == still));
  }
}
