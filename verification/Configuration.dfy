/** Differences between configurations, and the separately coded plans that are made of them. */
module Configuration {
  import opened Prelude
  import opened ConfigurationContract

  /** An allowed export destination. */
  datatype Destination = Destination(name: Bytes, identity: Bytes, tenants: seq<Bytes>)

  /** A typed value. No forwarded hops is the number zero; addresses, paths and enumerations are their text. */
  datatype Value =
    | Number(n: nat)
    | Words(text: Bytes)
    | Entries(entries: seq<Bytes>)
    | Destinations(destinations: seq<Destination>)

  datatype Config = Config(values: seq<Value>, sources: seq<Source>)

  predicate Complete(c: Config) {
    |c.values| == SETTING_COUNT == |c.sources|
  }

  predicate Differs(a: Config, b: Config, s: Setting)
    requires Complete(a) && Complete(b)
  {
    a.values[s] != b.values[s]
  }

  /** The settings below `n` that differ, in table order. */
  ghost function ChangedBelow(a: Config, b: Config, n: nat): (r: seq<Setting>)
    requires Complete(a) && Complete(b) && n <= SETTING_COUNT
  {
    if n == 0 then []
    else if Differs(a, b, n - 1) then ChangedBelow(a, b, n - 1) + [n - 1]
    else ChangedBelow(a, b, n - 1)
  }

  /** All settings that differ, in table order. */
  ghost function Changed(a: Config, b: Config): seq<Setting>
    requires Complete(a) && Complete(b)
  {
    ChangedBelow(a, b, SETTING_COUNT)
  }

  lemma {:induction false} ChangedMembers(a: Config, b: Config, n: nat)
    requires Complete(a) && Complete(b) && n <= SETTING_COUNT
    ensures forall s: Setting :: s in ChangedBelow(a, b, n) <==> s < n && Differs(a, b, s)
  {
    if n > 0 {
      ChangedMembers(a, b, n - 1);
    }
  }

  datatype Change = Change(setting: Setting, before: Source, after: Source)

  ghost function SettingsOf(changes: seq<Change>): seq<Setting> {
    if changes == [] then [] else SettingsOf(changes[..|changes| - 1]) + [changes[|changes| - 1].setting]
  }

  /** The semantic difference, with the source each side took the setting from. */
  method SemanticDiff(a: Config, b: Config) returns (changes: seq<Change>)
    requires Complete(a) && Complete(b)
    ensures SettingsOf(changes) == Changed(a, b)
    ensures forall c :: c in changes ==> c.before == a.sources[c.setting] && c.after == b.sources[c.setting]
  {
    changes := [];
    for n := 0 to SETTING_COUNT
      invariant SettingsOf(changes) == ChangedBelow(a, b, n)
      invariant forall c :: c in changes ==> c.before == a.sources[c.setting] && c.after == b.sources[c.setting]
    {
      if a.values[n] != b.values[n] {
        var change := Change(n, a.sources[n], b.sources[n]);
        changes := changes + [change];
      }
    }
  }

  ghost predicate AnyIs(changed: seq<Setting>, m: Mutability) {
    exists s :: s in changed && MutabilityOf(s) == m
  }

  datatype DiffPlan = NoChange | PublishLive | DrainThenPublish | RestartRequiredPlan | RequiresMigration

  /** The lifecycle plan of a semantic difference. */
  ghost function DiffPlanOf(changed: seq<Setting>): DiffPlan {
    if changed == [] then NoChange
    else if AnyIs(changed, ImmutableAfterInitialization) then RequiresMigration
    else if AnyIs(changed, RestartRequired) then RestartRequiredPlan
    else if AnyIs(changed, DrainAndReload) then DrainThenPublish
    else PublishLive
  }

  datatype Disposition = NoDrift | Reconcile | Fence

  ghost function DispositionOf(changed: seq<Setting>): Disposition {
    if changed == [] then NoDrift
    else if exists s :: s in changed && RequiresDriftFence(s) then Fence
    else Reconcile
  }

  datatype UpdatePlan =
    | Unchanged
    | Live(changed: seq<Setting>)
    | Drain(changed: seq<Setting>)
    | Restart(changed: seq<Setting>)

  /** What an accepted update plan says, as a plan of the difference and its settings. */
  function ClassOf(p: UpdatePlan): DiffPlan {
    match p
    case Unchanged => NoChange
    case Live(_) => PublishLive
    case Drain(_) => DrainThenPublish
    case Restart(_) => RestartRequiredPlan
  }

  function SettingsIn(p: UpdatePlan): seq<Setting> {
    if p.Unchanged? then [] else p.changed
  }

  method HasMutability(changed: seq<Setting>, m: Mutability) returns (r: bool)
    ensures r <==> AnyIs(changed, m)
  {
    for n := 0 to |changed|
      invariant !AnyIs(changed[..n], m)
    {
      if MutabilityOf(changed[n]) == m {
        assert changed[n] in changed;
        return true;
      }
      assert changed[..n + 1] == changed[..n] + [changed[n]];
    }
    assert changed[..|changed|] == changed;
    r := false;
  }

  /** Plans an update, refusing the first immutable setting that changed. It refuses exactly when the diff
      requires migration, and otherwise agrees with the diff's plan and settings. */
  method PlanUpdate(a: Config, b: Config) returns (r: Result<UpdatePlan, Setting>)
    requires Complete(a) && Complete(b)
    ensures r.Err? <==> DiffPlanOf(Changed(a, b)) == RequiresMigration
    ensures r.Err? ==>
              && MutabilityOf(r.error) == ImmutableAfterInitialization && Differs(a, b, r.error)
              && forall s: Setting :: s < r.error && Differs(a, b, s) ==> MutabilityOf(s) != ImmutableAfterInitialization
    ensures r.Ok? ==> ClassOf(r.value) == DiffPlanOf(Changed(a, b)) && SettingsIn(r.value) == Changed(a, b)
  {
    ChangedMembers(a, b, SETTING_COUNT);
    var changed: seq<Setting> := [];
    for n := 0 to SETTING_COUNT
      invariant changed == ChangedBelow(a, b, n)
      invariant forall s: Setting :: s < n && Differs(a, b, s) ==> MutabilityOf(s) != ImmutableAfterInitialization
    {
      if a.values[n] != b.values[n] {
        if MutabilityOf(n) == ImmutableAfterInitialization {
          assert Differs(a, b, n) && n in Changed(a, b);
          return Err(n);
        }
        changed := changed + [n];
      }
    }
    assert !AnyIs(changed, ImmutableAfterInitialization);
    if changed == [] {
      return Ok(Unchanged);
    }
    var restart := HasMutability(changed, RestartRequired);
    if restart {
      return Ok(Restart(changed));
    }
    var drain := HasMutability(changed, DrainAndReload);
    r := Ok(if drain then Drain(changed) else Live(changed));
  }

  /** A difference that requires migration fences a drifted instance. */
  lemma MigrationFences(changed: seq<Setting>)
    requires DiffPlanOf(changed) == RequiresMigration
    ensures DispositionOf(changed) == Fence
  {
    var s :| s in changed && MutabilityOf(s) == ImmutableAfterInitialization;
    assert RequiresDriftFence(s);
  }

  /** What changes the instance's exposure or its secrets without moving its data. */
  predicate FencesOnly(s: Setting) {
    s == CONTROL_PATH || s == API_TRANSPORT || IsTlsFile(s)
  }

  /** Fencing is wider than migration: a difference fences without requiring migration exactly when it leaves every
      immutable setting alone and changes the control path, the public transport or a certificate or key file. */
  lemma FenceWithoutMigration(changed: seq<Setting>)
    ensures DispositionOf(changed) == Fence && DiffPlanOf(changed) != RequiresMigration <==>
            !AnyIs(changed, ImmutableAfterInitialization) && exists s :: s in changed && FencesOnly(s)
  {
    forall s: Setting
      ensures RequiresDriftFence(s) <==> MutabilityOf(s) == ImmutableAfterInitialization || FencesOnly(s)
    {
    }
    if s :| s in changed && FencesOnly(s) {
      assert RequiresDriftFence(s);
    }
  }

  predicate IsLive(s: Setting) {
    MutabilityOf(s) == LiveReloadable
  }

  ghost function Only(settings: seq<Setting>, live: bool): seq<Setting> {
    if settings == [] then []
    else
      var front, last := Only(settings[..|settings| - 1], live), settings[|settings| - 1];
      if IsLive(last) == live then front + [last] else front
  }

  /** The active successor: only live-reloadable settings are taken from the candidate. Recorded sources stay. */
  method WithLiveChanges(a: Config, candidate: Config) returns (active: Config)
    requires Complete(a) && Complete(candidate)
    ensures Complete(active) && active.sources == a.sources
    ensures forall s: Setting :: active.values[s] == if IsLive(s) then candidate.values[s] else a.values[s]
  {
    active := a;
    for n := 0 to SETTING_COUNT
      invariant Complete(active) && active.sources == a.sources
      invariant forall s: Setting :: active.values[s] == if s < n && IsLive(s) then candidate.values[s] else a.values[s]
    {
      if MutabilityOf(n) == LiveReloadable && a.values[n] != candidate.values[n] {
        if n == LOG_LEVEL {
          active := active.(values := active.values[LOG_LEVEL := candidate.values[LOG_LEVEL]]);
        }
      }
    }
  }

  /** `active` is `a` with the live-reloadable settings of `candidate`. */
  ghost predicate LiveSuccessor(a: Config, candidate: Config, active: Config)
    requires Complete(a) && Complete(candidate)
  {
    Complete(active) && forall s: Setting :: active.values[s] == if IsLive(s) then candidate.values[s] else a.values[s]
  }

  lemma {:induction false} SplitBelow(a: Config, candidate: Config, active: Config, n: nat)
    requires Complete(a) && Complete(candidate) && LiveSuccessor(a, candidate, active) && n <= SETTING_COUNT
    ensures ChangedBelow(a, active, n) == Only(ChangedBelow(a, candidate, n), true)
    ensures ChangedBelow(active, candidate, n) == Only(ChangedBelow(a, candidate, n), false)
  {
    if n > 0 {
      SplitBelow(a, candidate, active, n - 1);
      var before, whole := ChangedBelow(a, candidate, n - 1), ChangedBelow(a, candidate, n);
      assert Differs(a, candidate, n - 1) ==> whole[..|whole| - 1] == before;
    }
  }

  /** Applying the live changes splits the difference exactly: what is live lies between old and active, the
      rest between active and candidate; applying them again changes nothing, and no immutable setting moved. */
  lemma LiveChangesSplit(a: Config, candidate: Config, active: Config)
    requires Complete(a) && Complete(candidate) && LiveSuccessor(a, candidate, active)
    ensures Changed(a, active) == Only(Changed(a, candidate), true)
    ensures Changed(active, candidate) == Only(Changed(a, candidate), false)
    ensures LiveSuccessor(active, candidate, active)
    ensures forall s: Setting :: MutabilityOf(s) == ImmutableAfterInitialization ==> active.values[s] == a.values[s]
  {
    SplitBelow(a, candidate, active, SETTING_COUNT);
  }
}
