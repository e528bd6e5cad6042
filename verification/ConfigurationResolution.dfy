/** Layered resolution of a configuration: defaults, file, environment, command line. */
module ConfigurationResolution {
  import opened Prelude
  import opened TextSplit
  import opened ConfigurationContract
  import opened Configuration

  datatype Failure =
    | UnknownSetting
    | SecretOverrideNotAllowed
    | MissingSchemaVersion
    | Rejected
    | ResourceLimit
    | ConflictingSetting
    | UnsafeCombination

  const MAX_OVERRIDE_PAIRS: nat := 16
  const MAX_KEY_BYTES: nat := 64
  const MAX_VALUE_BYTES: nat := 256

  datatype Pair = Pair(key: Bytes, value: Bytes)

  ghost predicate Bounded(pairs: seq<Pair>) {
    && |pairs| <= MAX_OVERRIDE_PAIRS
    && (forall i :: 0 <= i < |pairs| ==> |pairs[i].key| <= MAX_KEY_BYTES && |pairs[i].value| <= MAX_VALUE_BYTES)
    && (forall i, j :: 0 <= i < j < |pairs| ==> pairs[i].key != pairs[j].key)
  }

  method HasKey(pairs: seq<Pair>, key: Bytes) returns (r: bool)
    ensures r <==> exists i :: 0 <= i < |pairs| && pairs[i].key == key
  {
    for n := 0 to |pairs|
      invariant forall i :: 0 <= i < n ==> pairs[i].key != key
    {
      if pairs[n].key == key {
        return true;
      }
    }
    r := false;
  }

  /** Collects override pairs: bounded in number and size, and no key twice. */
  method CollectPairs(pairs: seq<Pair>) returns (r: Result<seq<Pair>, Failure>)
    ensures r.Ok? <==> Bounded(pairs)
    ensures r.Ok? ==> r.value == pairs
    ensures r.Err? ==> r.error.ResourceLimit? || r.error.ConflictingSetting?
  {
    var collected: seq<Pair> := [];
    for n := 0 to |pairs|
      invariant collected == pairs[..n] && Bounded(collected)
    {
      var pair := pairs[n];
      assert pairs[..n + 1] == pairs[..n] + [pair];
      if |collected| == MAX_OVERRIDE_PAIRS || |pair.key| > MAX_KEY_BYTES || |pair.value| > MAX_VALUE_BYTES {
        return Err(ResourceLimit);
      }
      var repeated := HasKey(collected, pair.key);
      if repeated {
        return Err(ConflictingSetting);
      }
      collected := collected + [pair];
    }
    assert pairs[..|pairs|] == pairs;
    r := Ok(collected);
  }

  const UNDERSCORE: Byte := 0x5F
  const DOT: Byte := 0x2E

  predicate IsKeyCharacter(c: Byte) {
    0x41 <= c <= 0x5A || 0x30 <= c <= 0x39 || c == UNDERSCORE
  }

  function Lower(t: Bytes): (r: Bytes)
    ensures |r| == |t| && forall i :: 0 <= i < |t| ==> r[i] == if 0x41 <= t[i] <= 0x5A then t[i] + 32 else t[i]
  {
    seq(|t|, i requires 0 <= i < |t| => if 0x41 <= t[i] <= 0x5A then t[i] + 32 else t[i])
  }

  /** The pieces between double underscores, taken from the left. */
  function Segments(t: Bytes): (r: seq<Bytes>)
    ensures |r| >= 1
    decreases |t|
  {
    if t == [] then [[]]
    else if |t| >= 2 && t[0] == UNDERSCORE && t[1] == UNDERSCORE then [[]] + Segments(t[2..])
    else
      var rest := Segments(t[1..]);
      rest[0 := [t[0]] + rest[0]]
  }

  function JoinDouble(parts: seq<Bytes>): Bytes
    requires |parts| >= 1
  {
    if |parts| == 1 then parts[0] else parts[0] + [UNDERSCORE, UNDERSCORE] + JoinDouble(parts[1..])
  }

  lemma {:induction false} JoinAfterCharacter(parts: seq<Bytes>, c: Byte)
    requires |parts| >= 1
    ensures JoinDouble(parts[0 := [c] + parts[0]]) == [c] + JoinDouble(parts)
  {
    var longer := parts[0 := [c] + parts[0]];
    if |parts| > 1 {
      assert longer[1..] == parts[1..];
      var rest := [UNDERSCORE, UNDERSCORE] + JoinDouble(parts[1..]);
      assert ([c] + parts[0]) + rest == [c] + (parts[0] + rest);
      assert parts[0] + rest == parts[0] + [UNDERSCORE, UNDERSCORE] + JoinDouble(parts[1..]);
      assert longer[0] + rest == longer[0] + [UNDERSCORE, UNDERSCORE] + JoinDouble(parts[1..]);
    }
  }

  /** Joining the segments again gives the text. */
  lemma {:induction false} SegmentsJoin(t: Bytes)
    ensures JoinDouble(Segments(t)) == t
    decreases |t|
  {
    if t == [] {
    } else if |t| >= 2 && t[0] == UNDERSCORE && t[1] == UNDERSCORE {
      SegmentsJoin(t[2..]);
      assert t == [UNDERSCORE, UNDERSCORE] + t[2..];
    } else {
      SegmentsJoin(t[1..]);
      JoinAfterCharacter(Segments(t[1..]), t[0]);
      assert t == [t[0]] + t[1..];
    }
  }

  lemma {:induction false} SegmentCharacters(t: Bytes)
    requires forall i :: 0 <= i < |t| ==> IsKeyCharacter(t[i])
    ensures forall k, i :: 0 <= k < |Segments(t)| && 0 <= i < |Segments(t)[k]| ==> IsKeyCharacter(Segments(t)[k][i])
    decreases |t|
  {
    if t == [] {
    } else if |t| >= 2 && t[0] == UNDERSCORE && t[1] == UNDERSCORE {
      SegmentCharacters(t[2..]);
    } else {
      SegmentCharacters(t[1..]);
    }
  }

  function LowerAll(parts: seq<Bytes>): (r: seq<Bytes>)
    ensures |r| == |parts| && forall i :: 0 <= i < |r| ==> r[i] == Lower(parts[i])
  {
    seq(|parts|, i requires 0 <= i < |parts| => Lower(parts[i]))
  }

  function KeyPrefix(): Bytes {
    Ascii("POSITRON__")
  }

  /** The setting path an environment key names. */
  function EnvironmentPath(key: Bytes): Option<Bytes> {
    if |key| <= |KeyPrefix()| || key[..|KeyPrefix()|] != KeyPrefix() then None
    else
      var suffix := key[|KeyPrefix()|..];
      var parts := Segments(suffix);
      if (exists i :: 0 <= i < |suffix| && !IsKeyCharacter(suffix[i])) || (exists i :: 0 <= i < |parts| && parts[i] == []) then None
      else Some(Join(LowerAll(parts), DOT))
  }

  lemma PartsArePlain(suffix: Bytes)
    requires forall i :: 0 <= i < |suffix| ==> IsKeyCharacter(suffix[i])
    requires forall i :: 0 <= i < |Segments(suffix)| ==> Segments(suffix)[i] != []
    ensures forall i :: 0 <= i < |Segments(suffix)| ==>
              LowerAll(Segments(suffix))[i] != [] && Free(LowerAll(Segments(suffix))[i], DOT)
  {
    SegmentCharacters(suffix);
    forall i | 0 <= i < |Segments(suffix)|
      ensures LowerAll(Segments(suffix))[i] != [] && Free(LowerAll(Segments(suffix))[i], DOT)
    {
      var part := Segments(suffix)[i];
      forall k | 0 <= k < |part|
        ensures Lower(part)[k] != DOT
      {
        assert IsKeyCharacter(Segments(suffix)[i][k]);
      }
    }
  }

  lemma SegmentsInjective(a: Bytes, b: Bytes)
    requires forall i :: 0 <= i < |a| ==> IsKeyCharacter(a[i])
    requires forall i :: 0 <= i < |b| ==> IsKeyCharacter(b[i])
    requires LowerAll(Segments(a)) == LowerAll(Segments(b))
    ensures a == b
  {
    SegmentCharacters(a);
    SegmentCharacters(b);
    forall i | 0 <= i < |Segments(a)|
      ensures Segments(a)[i] == Segments(b)[i]
    {
      assert LowerAll(Segments(a))[i] == LowerAll(Segments(b))[i];
    }
    assert Segments(a) == Segments(b);
    SegmentsJoin(a);
    SegmentsJoin(b);
  }

  /** No two environment keys name the same path. */
  lemma EnvironmentPathInjective(a: Bytes, b: Bytes)
    requires EnvironmentPath(a).Some? && EnvironmentPath(a) == EnvironmentPath(b)
    ensures a == b
  {
    var n := |KeyPrefix()|;
    PartsArePlain(a[n..]);
    PartsArePlain(b[n..]);
    JoinInjective(LowerAll(Segments(a[n..])), LowerAll(Segments(b[n..])), DOT);
    SegmentsInjective(a[n..], b[n..]);
    assert a == a[..n] + a[n..] && b == b[..n] + b[n..];
  }

  /** The table's setting with this path. */
  function SettingForPath(paths: seq<Bytes>, path: Bytes, from: nat := 0): (r: Option<Setting>)
    requires |paths| == SETTING_COUNT && from <= SETTING_COUNT
    ensures r.Some? ==> paths[r.value] == path
    decreases SETTING_COUNT - from
  {
    if from == SETTING_COUNT then None
    else if paths[from] == path then Some(from)
    else SettingForPath(paths, path, from + 1)
  }

  /** One entry of a layer: the setting it names, if any, and what its text parses to. */
  datatype Mention = Mention(setting: Option<Setting>, value: Result<Value, Failure>)

  type Layer = seq<Mention>

  predicate Admissible(m: Mention, source: Source) {
    m.setting.Some? && Allows(ProvenanceOf(m.setting.value), source) && m.value.Ok?
  }

  /** Why an entry is refused, if it is: an unknown setting, a forbidden source, or a value that does not parse. */
  function Refusal(m: Mention, source: Source): (r: Option<Failure>)
    ensures r.None? <==> Admissible(m, source)
  {
    if m.setting.None? then Some(UnknownSetting)
    else if !Allows(ProvenanceOf(m.setting.value), source) then
      Some(if SecretBearing(m.setting.value) then SecretOverrideNotAllowed else UnknownSetting)
    else if m.value.Err? then Some(m.value.error)
    else None
  }

  /** Why a layer is refused: its first refused entry says. */
  function LayerRefusal(layer: Layer, source: Source): (r: Option<Failure>) {
    if layer == [] then None
    else
      var front := LayerRefusal(layer[..|layer| - 1], source);
      if front.Some? then front else Refusal(layer[|layer| - 1], source)
  }

  /** A layer is refused exactly when one of its entries is. */
  lemma {:induction false} RefusedByAnEntry(layer: Layer, source: Source)
    ensures LayerRefusal(layer, source).None? <==> AllAdmissible(layer, source)
  {
    if layer != [] {
      RefusedByAnEntry(layer[..|layer| - 1], source);
      assert forall i :: 0 <= i < |layer| - 1 ==> layer[..|layer| - 1][i] == layer[i];
    }
  }

  /** What the first refused entry says, no later entry changes. */
  lemma {:induction false} RefusalStands(layer: Layer, source: Source, n: nat)
    requires n <= |layer| && LayerRefusal(layer[..n], source).Some?
    ensures LayerRefusal(layer, source) == LayerRefusal(layer[..n], source)
    decreases |layer|
  {
    if n < |layer| {
      assert layer[..|layer| - 1][..n] == layer[..n];
      RefusalStands(layer[..|layer| - 1], source, n);
    } else {
      assert layer[..n] == layer;
    }
  }

  ghost predicate AllAdmissible(layer: Layer, source: Source) {
    forall i :: 0 <= i < |layer| ==> Admissible(layer[i], source)
  }

  /** What a layer says about a setting: its last mention. */
  function LastMention(layer: Layer, s: Setting): Option<Mention> {
    if layer == [] then None
    else if layer[|layer| - 1].setting == Some(s) then Some(layer[|layer| - 1])
    else LastMention(layer[..|layer| - 1], s)
  }

  /** A configuration after a layer: what the layer mentions, and below it what was there before. */
  ghost predicate LayeredOver(before: Config, layer: Layer, source: Source, after: Config)
    requires Complete(before)
  {
    Complete(after) && forall s: Setting :: Settles(before, layer, source, after, s)
  }

  ghost predicate Settles(before: Config, layer: Layer, source: Source, after: Config, s: Setting)
    requires Complete(before) && Complete(after)
  {
    match LastMention(layer, s)
    case Some(m) => m.value == Ok(after.values[s]) && after.sources[s] == source
    case None => after.values[s] == before.values[s] && after.sources[s] == before.sources[s]
  }

  /** The configuration under construction. */
  class Candidate {
    var values: seq<Value>
    var sources: seq<Source>

    predicate Valid()
      reads this
    {
      |values| == SETTING_COUNT == |sources|
    }

    function View(): Config
      reads this
    {
      Config(values, sources)
    }

    constructor (defaults: seq<Value>)
      requires |defaults| == SETTING_COUNT
      ensures Valid() && View() == Config(defaults, seq(SETTING_COUNT, _ => CompiledDefault))
    {
      values := defaults;
      sources := seq(SETTING_COUNT, _ => CompiledDefault);
    }

    /** Applies one entry, or refuses it and changes nothing. */
    method Apply(m: Mention, source: Source) returns (failure: Option<Failure>)
      requires Valid()
      modifies this
      ensures Valid()
      ensures failure == Refusal(m, source)
      ensures failure.Some? ==> View() == old(View())
      ensures failure.None? ==>
                View() == Config(old(values)[m.setting.value := m.value.value], old(sources)[m.setting.value := source])
    {
      if m.setting.None? {
        return Some(UnknownSetting);
      }
      var s := m.setting.value;
      if !Allows(ProvenanceOf(s), source) {
        return Some(if SecretBearing(s) then SecretOverrideNotAllowed else UnknownSetting);
      }
      if m.value.Err? {
        return Some(m.value.error);
      }
      values := values[s := m.value.value];
      sources := sources[s := source];
      failure := None;
    }

    /** Applies a layer entry by entry, up to the first refusal. */
    method ApplyLayer(layer: Layer, source: Source) returns (failure: Option<Failure>)
      requires Valid()
      modifies this
      ensures Valid()
      ensures failure == LayerRefusal(layer, source)
      ensures failure.None? <==> AllAdmissible(layer, source)
      ensures failure.None? ==> LayeredOver(old(View()), layer, source, View())
    {
      RefusedByAnEntry(layer, source);
      ghost var before := View();
      for n := 0 to |layer|
        invariant Valid() && AllAdmissible(layer[..n], source)
        invariant LayeredOver(before, layer[..n], source, View()) && LayerRefusal(layer[..n], source).None?
      {
        ghost var here := View();
        failure := Apply(layer[n], source);
        assert layer[..n + 1][..n] == layer[..n];
        if failure.Some? {
          RefusalStands(layer, source, n + 1);
          return;
        }
        LayerGrows(before, layer, n, source, here, View());
      }
      assert layer[..|layer|] == layer;
      failure := None;
    }
  }

  lemma LayerGrows(before: Config, layer: Layer, n: nat, source: Source, here: Config, after: Config)
    requires Complete(before) && n < |layer| && AllAdmissible(layer[..n], source) && Admissible(layer[n], source)
    requires LayeredOver(before, layer[..n], source, here) && Complete(here)
    requires after == Config(here.values[layer[n].setting.value := layer[n].value.value],
                             here.sources[layer[n].setting.value := source])
    ensures AllAdmissible(layer[..n + 1], source) && LayeredOver(before, layer[..n + 1], source, after)
  {
    var longer := layer[..n + 1];
    assert longer == layer[..n] + [layer[n]] && longer[..n] == layer[..n];
    forall s: Setting
      ensures Settles(before, longer, source, after, s)
    {
      assert Settles(before, layer[..n], source, here, s);
    }
  }

  datatype Inputs = Inputs(file: Option<Layer>, environment: Layer, commandLine: Layer)

  ghost predicate AllowedInputs(inputs: Inputs) {
    && (inputs.file.Some? ==> LastMention(inputs.file.value, SCHEMA_VERSION).Some?
                              && AllAdmissible(inputs.file.value, ConfigurationFile))
    && AllAdmissible(inputs.environment, Environment)
    && AllAdmissible(inputs.commandLine, CommandLine)
  }

  /** Why the inputs are refused, in the order in which the layers are applied. */
  function InputsRefusal(inputs: Inputs): Option<Failure> {
    if inputs.file.Some? && LastMention(inputs.file.value, SCHEMA_VERSION).None? then Some(MissingSchemaVersion)
    else if inputs.file.Some? && LayerRefusal(inputs.file.value, ConfigurationFile).Some? then
      LayerRefusal(inputs.file.value, ConfigurationFile)
    else if LayerRefusal(inputs.environment, Environment).Some? then LayerRefusal(inputs.environment, Environment)
    else LayerRefusal(inputs.commandLine, CommandLine)
  }

  /** The simple specification: the highest layer that mentions a setting wins, and its source is recorded. */
  ghost predicate Wins(defaults: seq<Value>, inputs: Inputs, c: Config, s: Setting)
    requires |defaults| == SETTING_COUNT && Complete(c)
  {
    var file := if inputs.file.Some? then inputs.file.value else [];
    if LastMention(inputs.commandLine, s).Some? then
      LastMention(inputs.commandLine, s).value.value == Ok(c.values[s]) && c.sources[s] == CommandLine
    else if LastMention(inputs.environment, s).Some? then
      LastMention(inputs.environment, s).value.value == Ok(c.values[s]) && c.sources[s] == Environment
    else if LastMention(file, s).Some? then
      LastMention(file, s).value.value == Ok(c.values[s]) && c.sources[s] == ConfigurationFile
    else
      c.values[s] == defaults[s] && c.sources[s] == CompiledDefault
  }

  ghost predicate IsResolved(defaults: seq<Value>, inputs: Inputs, c: Config)
    requires |defaults| == SETTING_COUNT
  {
    Complete(c) && forall s: Setting :: Wins(defaults, inputs, c, s)
  }

  predicate ProxyPairOk(cidrs: Value, hops: Value) {
    (cidrs == Entries([])) == (hops == Number(0))
  }

  predicate LimitOk(global: Value, perAddress: Value) {
    global.Number? && perAddress.Number? && perAddress.n <= global.n
  }

  /** The combinations a candidate must satisfy as a whole. */
  predicate Consistent(c: Config)
    requires Complete(c)
  {
    && c.values[DATA_DIRECTORY] != c.values[SECRETS_DIRECTORY]
    && ProxyPairOk(c.values[20], c.values[21]) && ProxyPairOk(c.values[39], c.values[40])
    && ProxyPairOk(c.values[64], c.values[65]) && ProxyPairOk(c.values[79], c.values[80])
    && ProxyPairOk(c.values[94], c.values[95])
    && LimitOk(c.values[5], c.values[6]) && LimitOk(c.values[9], c.values[10]) && LimitOk(c.values[24], c.values[25])
    && LimitOk(c.values[46], c.values[47]) && LimitOk(c.values[68], c.values[69]) && LimitOk(c.values[83], c.values[84])
  }

  /** Resolves the layers in order of precedence. It succeeds exactly when every entry of every layer is
      admissible and the winners are consistent, and then gives the winners. */
  method Resolve(defaults: seq<Value>, inputs: Inputs) returns (r: Result<Config, Failure>)
    requires |defaults| == SETTING_COUNT
    ensures r.Ok? ==> AllowedInputs(inputs) && IsResolved(defaults, inputs, r.value) && Consistent(r.value)
    ensures r.Err? ==> !AllowedInputs(inputs) || exists c :: IsResolved(defaults, inputs, c) && !Consistent(c)
    ensures InputsRefusal(inputs).None? <==> AllowedInputs(inputs)
    ensures r.Err? ==> r.error == if InputsRefusal(inputs).Some? then InputsRefusal(inputs).value else UnsafeCombination
  {
    RefusedByAnEntry(if inputs.file.Some? then inputs.file.value else [], ConfigurationFile);
    RefusedByAnEntry(inputs.environment, Environment);
    RefusedByAnEntry(inputs.commandLine, CommandLine);
    var candidate := new Candidate(defaults);
    ghost var c0 := candidate.View();
    ghost var file: Layer := if inputs.file.Some? then inputs.file.value else [];
    var failure: Option<Failure> := None;
    if inputs.file.Some? {
      if LastMention(inputs.file.value, SCHEMA_VERSION).None? {
        return Err(MissingSchemaVersion);
      }
      failure := candidate.ApplyLayer(inputs.file.value, ConfigurationFile);
      if failure.Some? {
        return Err(failure.value);
      }
    }
    ghost var c1 := candidate.View();
    assert LayeredOver(c0, file, ConfigurationFile, c1);
    failure := candidate.ApplyLayer(inputs.environment, Environment);
    if failure.Some? {
      return Err(failure.value);
    }
    ghost var c2 := candidate.View();
    failure := candidate.ApplyLayer(inputs.commandLine, CommandLine);
    if failure.Some? {
      return Err(failure.value);
    }
    var c := candidate.View();
    LayersWin(defaults, inputs, c0, c1, c2, c);
    if !Consistent(c) {
      return Err(UnsafeCombination);
    }
    r := Ok(c);
  }

  lemma LayersWin(defaults: seq<Value>, inputs: Inputs, c0: Config, c1: Config, c2: Config, c: Config)
    requires |defaults| == SETTING_COUNT && Complete(c0) && Complete(c1) && Complete(c2)
    requires c0.values == defaults && forall s: Setting :: c0.sources[s] == CompiledDefault
    requires LayeredOver(c0, if inputs.file.Some? then inputs.file.value else [], ConfigurationFile, c1)
    requires LayeredOver(c1, inputs.environment, Environment, c2) && LayeredOver(c2, inputs.commandLine, CommandLine, c)
    ensures IsResolved(defaults, inputs, c)
  {
    var file := if inputs.file.Some? then inputs.file.value else [];
    forall s: Setting
      ensures Wins(defaults, inputs, c, s)
    {
      assert Settles(c0, file, ConfigurationFile, c1, s);
      assert Settles(c1, inputs.environment, Environment, c2, s);
      assert Settles(c2, inputs.commandLine, CommandLine, c, s);
    }
  }

  /** The winners are determined by the layers. */
  lemma ResolvedIsUnique(defaults: seq<Value>, inputs: Inputs, a: Config, b: Config)
    requires |defaults| == SETTING_COUNT && IsResolved(defaults, inputs, a) && IsResolved(defaults, inputs, b)
    ensures a == b
  {
    forall s: Setting
      ensures a.values[s] == b.values[s] && a.sources[s] == b.sources[s]
    {
      assert Wins(defaults, inputs, a, s) && Wins(defaults, inputs, b, s);
    }
  }

  /** No setting is ever recorded with a source its provenance policy forbids. */
  lemma SourcesAreAllowed(defaults: seq<Value>, inputs: Inputs, c: Config, s: Setting)
    requires |defaults| == SETTING_COUNT && AllowedInputs(inputs) && IsResolved(defaults, inputs, c)
    ensures Allows(ProvenanceOf(s), c.sources[s])
    ensures SecretBearing(s) ==> c.sources[s].CompiledDefault? || c.sources[s].ConfigurationFile?
  {
    assert Wins(defaults, inputs, c, s);
    MentionIsThere(inputs.commandLine, s);
    MentionIsThere(inputs.environment, s);
  }

  lemma {:induction false} MentionIsThere(layer: Layer, s: Setting)
    ensures LastMention(layer, s).Some? ==> LastMention(layer, s).value in layer && LastMention(layer, s).value.setting == Some(s)
    ensures LastMention(layer, s).None? ==> forall m :: m in layer ==> m.setting != Some(s)
  {
    if layer != [] {
      MentionIsThere(layer[..|layer| - 1], s);
      assert layer == layer[..|layer| - 1] + [layer[|layer| - 1]];
    }
  }

  /** No setting is mentioned by two different entries of the layer. */
  ghost predicate OncePerSetting(layer: Layer) {
    forall m, n :: m in layer && n in layer && m.setting.Some? && m.setting == n.setting ==> m == n
  }

  ghost predicate SameEntries(p: Layer, q: Layer) {
    forall m :: m in p <==> m in q
  }

  lemma OrderIsIrrelevant(p: Layer, q: Layer, s: Setting)
    requires SameEntries(p, q) && OncePerSetting(p)
    ensures LastMention(p, s) == LastMention(q, s)
  {
    MentionIsThere(p, s);
    MentionIsThere(q, s);
  }

  /** Permuting the overrides of a layer changes neither whether resolution succeeds nor what it gives. */
  lemma PermutationsAgree(defaults: seq<Value>, a: Inputs, b: Inputs)
    requires |defaults| == SETTING_COUNT && a.file == b.file
    requires SameEntries(a.environment, b.environment) && OncePerSetting(a.environment)
    requires SameEntries(a.commandLine, b.commandLine) && OncePerSetting(a.commandLine)
    ensures AllowedInputs(a) <==> AllowedInputs(b)
    ensures forall c :: IsResolved(defaults, a, c) <==> IsResolved(defaults, b, c)
  {
    forall s: Setting
      ensures LastMention(a.environment, s) == LastMention(b.environment, s)
      ensures LastMention(a.commandLine, s) == LastMention(b.commandLine, s)
    {
      OrderIsIrrelevant(a.environment, b.environment, s);
      OrderIsIrrelevant(a.commandLine, b.commandLine, s);
    }
    AdmissibleAgree(a.environment, b.environment, Environment);
    AdmissibleAgree(a.commandLine, b.commandLine, CommandLine);
    forall c | Complete(c)
      ensures IsResolved(defaults, a, c) <==> IsResolved(defaults, b, c)
    {
      ResolvedAgree(defaults, a, b, c);
    }
  }

  lemma ResolvedAgree(defaults: seq<Value>, a: Inputs, b: Inputs, c: Config)
    requires |defaults| == SETTING_COUNT && a.file == b.file && Complete(c)
    requires forall s: Setting :: LastMention(a.environment, s) == LastMention(b.environment, s)
    requires forall s: Setting :: LastMention(a.commandLine, s) == LastMention(b.commandLine, s)
    ensures IsResolved(defaults, a, c) <==> IsResolved(defaults, b, c)
  {
    forall s: Setting
      ensures Wins(defaults, a, c, s) <==> Wins(defaults, b, c, s)
    {
    }
  }

  lemma AdmissibleAgree(p: Layer, q: Layer, source: Source)
    requires SameEntries(p, q)
    ensures AllAdmissible(p, source) <==> AllAdmissible(q, source)
  {
    if AllAdmissible(p, source) {
      forall i | 0 <= i < |q|
        ensures Admissible(q[i], source)
      {
        assert q[i] in p;
      }
    }
    if AllAdmissible(q, source) {
      forall i | 0 <= i < |p|
        ensures Admissible(p[i], source)
      {
        assert p[i] in q;
      }
    }
  }

  /** What an override text parses to, for the setting it names. */
  function MentionOf(setting: Option<Setting>, parse: (Setting, Bytes) -> Result<Value, Failure>, text: Bytes): Mention {
    Mention(setting, if setting.Some? then parse(setting.value, text) else Err(UnknownSetting))
  }

  function EnvironmentSetting(paths: seq<Bytes>, key: Bytes): (r: Option<Setting>)
    requires |paths| == SETTING_COUNT
  {
    var path := EnvironmentPath(key);
    if path.None? then None else SettingForPath(paths, path.value)
  }

  function EnvironmentLayer(paths: seq<Bytes>, parse: (Setting, Bytes) -> Result<Value, Failure>, pairs: seq<Pair>): (r: Layer)
    requires |paths| == SETTING_COUNT
    ensures |r| == |pairs|
    ensures forall i :: 0 <= i < |r| ==> r[i] == MentionOf(EnvironmentSetting(paths, pairs[i].key), parse, pairs[i].value)
  {
    seq(|pairs|, i requires 0 <= i < |pairs| => MentionOf(EnvironmentSetting(paths, pairs[i].key), parse, pairs[i].value))
  }

  function CommandLineLayer(paths: seq<Bytes>, parse: (Setting, Bytes) -> Result<Value, Failure>, pairs: seq<Pair>): (r: Layer)
    requires |paths| == SETTING_COUNT
    ensures |r| == |pairs|
    ensures forall i :: 0 <= i < |r| ==> r[i] == MentionOf(SettingForPath(paths, pairs[i].key), parse, pairs[i].value)
  {
    seq(|pairs|, i requires 0 <= i < |pairs| => MentionOf(SettingForPath(paths, pairs[i].key), parse, pairs[i].value))
  }

  lemma SameSettingSameKey(paths: seq<Bytes>, a: Bytes, b: Bytes)
    requires |paths| == SETTING_COUNT
    requires EnvironmentSetting(paths, a).Some? && EnvironmentSetting(paths, a) == EnvironmentSetting(paths, b)
    ensures a == b
  {
    EnvironmentPathInjective(a, b);
  }

  /** Collected environment keys are distinct, so no setting is overridden twice from the environment. */
  lemma EnvironmentMentionsOnce(paths: seq<Bytes>, parse: (Setting, Bytes) -> Result<Value, Failure>, pairs: seq<Pair>)
    requires |paths| == SETTING_COUNT && Bounded(pairs)
    ensures OncePerSetting(EnvironmentLayer(paths, parse, pairs))
  {
    var layer := EnvironmentLayer(paths, parse, pairs);
    forall i, j | 0 <= i < |layer| && 0 <= j < |layer| && layer[i].setting.Some? && layer[i].setting == layer[j].setting
      ensures pairs[i].key == pairs[j].key
    {
      SameSettingSameKey(paths, pairs[i].key, pairs[j].key);
    }
  }

  lemma CommandLineMentionsOnce(paths: seq<Bytes>, parse: (Setting, Bytes) -> Result<Value, Failure>, pairs: seq<Pair>)
    requires |paths| == SETTING_COUNT && Bounded(pairs)
    ensures OncePerSetting(CommandLineLayer(paths, parse, pairs))
  {
  }
}
