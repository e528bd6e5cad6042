/** One operation from its first step to its answer: as it runs among others, and as the code that drives the
    shared store when nothing else runs. */
module ApiKeyAdministration {
  import opened Prelude
  import opened ApiKeys
  import opened ApiKeyCatalog
  import opened ApiKeyProtocol
  import opened ApiKeyProgress
  import opened ApiKeyInvariant
  import opened ApiKeyRuns
  import opened ApiKeyReplay
  import opened ApiKeyStore

  /** Whether an event is a step that the operation takes towards its answer. */
  ghost predicate Advances(sys: System, e: Event, id: nat) {
    && e.Step? && e.id == id && id in sys.threads && !sys.threads[id].phase.Done?
    && (Mints(sys.threads[id]) ==> Fresh(sys, e.choice.principal))
  }

  ghost function OwnSteps(world: World, home: Id, sys: System, events: seq<Event>, id: nat): nat
    requires Standing(sys.catalog)
  {
    if events == [] then 0
    else
      var front := events[..|events| - 1];
      OwnSteps(world, home, sys, front, id)
      + if Advances(Run(world, home, sys, front), events[|events| - 1], id) then 1 else 0
  }

  /** The operation exists and stands on a generation that exists. */
  ghost predicate Present(sys: System, id: nat) {
    Standing(sys.catalog) && id in sys.threads && Placed(sys.catalog, sys.threads[id].phase)
  }

  lemma EventsLengthen(world: World, home: Id, sys: System, e: Event)
    requires Standing(sys.catalog)
    ensures |sys.catalog.history| <= |Apply(world, home, sys, e).catalog.history|
  {
    if e.Step? && e.id in sys.threads && Placed(sys.catalog, sys.threads[e.id].phase) && !sys.threads[e.id].phase.Done? {
      NextDescends(world, sys.catalog, sys.threads[e.id].request, sys.threads[e.id].phase, e.choice);
    }
  }

  lemma EventDescends(world: World, home: Id, sys: System, e: Event, id: nat)
    requires Present(sys, id)
    ensures var after := Apply(world, home, sys, e);
            && Present(after, id)
            && Rank(after.threads[id].phase) + (if Advances(sys, e, id) then 1 else 0) <= Rank(sys.threads[id].phase)
  {
    EventsLengthen(world, home, sys, e);
    if Advances(sys, e, id) {
      NextDescends(world, sys.catalog, sys.threads[id].request, sys.threads[id].phase, e.choice);
    } else if !(e.Step? && e.id == id) {
      OtherEvents(world, home, sys, e, id);
    }
  }

  /** No operation waits for another: whatever the others do and however they are interrupted, it is answered
      after at most seven steps of its own. */
  lemma {:induction false} SevenStepsAtMost(world: World, home: Id, sys: System, events: seq<Event>, id: nat)
    requires Present(sys, id)
    ensures var after := Run(world, home, sys, events);
            && Present(after, id)
            && OwnSteps(world, home, sys, events, id) + Rank(after.threads[id].phase) <= Rank(sys.threads[id].phase) <= 7
            && (OwnSteps(world, home, sys, events, id) >= 7 ==> after.threads[id].phase.Done?)
  {
    if events != [] {
      var front := events[..|events| - 1];
      SevenStepsAtMost(world, home, sys, front, id);
      EventDescends(world, home, Run(world, home, sys, front), events[|events| - 1], id);
    }
  }

  /** The loop that looks for the active, tenant-scoped credential of a principal. */
  method FindActive(ring: Ring, principal: Id) returns (r: Result<nat, Failure>)
    ensures r == FindTarget(ring, principal)
  {
    for i := 0 to |ring.credentials|
      invariant forall j :: 0 <= j < i ==>
        !(ring.credentials[j].principal == principal && ring.credentials[j].active && ring.credentials[j].scope != 4)
    {
      var credential := ring.credentials[i];
      if credential.principal == principal && credential.active && credential.scope != 4 {
        assert IsTarget(ring, principal, i);
        return Ok(i);
      }
    }
    r := Err(CredentialUnavailable);
  }

  /** Resolves an earlier attempt through the store. */
  method ResumeStep(store: CatalogStore, world: World, r: Request, who: Option<Id>, basis: nat, fault: Fault) returns (phase: Phase)
    requires store.Valid() && basis < |store.history|
    modifies store
    ensures store.Valid() && (store.Value(), phase) == TryResume(world, old(store.Value()), r, who, basis, fault)
  {
    var ring := ReadRing(store.history[basis], who);
    if ring.Err? {
      return Done(Err(ring.error));
    }
    var digest := RequestDigest(world, r, who, ring.value);
    if digest.Err? {
      return Done(Err(digest.error));
    }
    var result := store.ResumePrepared(r.key, digest.value, fault);
    phase := AfterResume(world, r, who, basis, ring.value, digest.value, result);
  }

  /** Proposes the mutation and publishes it through the store. */
  method CommitStep(store: CatalogStore, world: World, r: Request, who: Option<Id>, basis: nat, choice: Choice) returns (phase: Phase)
    requires store.Valid() && basis < |store.history|
    modifies store
    ensures store.Valid() && (store.Value(), phase) == TryCommit(world, old(store.Value()), r, who, basis, choice)
  {
    var proposed := Propose(world, store.history[basis], basis, r, who, choice);
    if proposed.Err? {
      return Done(Err(proposed.error));
    }
    var p := proposed.value;
    var result := store.CommitPrepared(r.key, p, choice.fault);
    if result.Err? {
      return Done(Err(result.error));
    }
    if result.value != p.fields.position {
      return Done(Err(PersistenceUnavailable));
    }
    phase := Done(Ok(Answer(p.fields.principal, if r.action.Revoke? then None else Some(choice.secret))));
  }

  /** An operation run to its end against the shared store. */
  method Administer(store: CatalogStore, world: World, r: Request, resumed: Fault, choice: Choice)
    returns (outcome: Result<Answer, Failure>)
    requires store.Valid()
    modifies store
    ensures store.Valid()
    ensures (store.Value(), outcome) == Alone(world, old(store.Value()), r, Start, resumed, choice)
  {
    var phase := Start;
    while !phase.Done?
      invariant store.Valid() && Placed(store.Value(), phase)
      invariant Alone(world, store.Value(), r, phase, resumed, choice) == Alone(world, old(store.Value()), r, Start, resumed, choice)
      decreases Rank(phase)
    {
      NextDescends(world, store.Value(), r, phase, Drawn(phase, resumed, choice));
      match phase {
        case Start => phase := Begin(world, store.Value(), r, r.forTenant);
        case Redirected => phase := Begin(world, store.Value(), r, false);
        case Looking(who, basis, again) => phase := Look(world, store.Value(), r, who, basis, again);
        case Auditing(who, basis, again) => phase := Audit(world, store.Value(), r, who, basis, again);
        case Resuming(who, basis) => phase := ResumeStep(store, world, r, who, basis, resumed);
        case Repinning(who) => phase := Repin(store.Value(), r, who);
        case Committing(who, basis) => phase := CommitStep(store, world, r, who, basis, choice);
      }
    }
    outcome := phase.outcome;
  }

  /** Run alone, an operation with fresh material keeps the Catalog good, and a success it reports is backed
      by a published mutation. */
  lemma {:induction false} AloneIsOk(world: World, home: Id, sys: System, id: nat, th: Thread, resumed: Fault, choice: Choice)
    requires Inv(world, home, sys.catalog) && ThreadOk(world, home, sys.catalog, sys.minted, id, th)
    requires MayCommit(th.phase) ==> Fresh(sys, choice.principal)
    ensures var q := Alone(world, sys.catalog, th.request, th.phase, resumed, choice);
            Inv(world, home, q.0) && Extends(sys.catalog, q.0) && Justified(q.0, th.request, Done(q.1))
    decreases Rank(th.phase)
  {
    if !th.phase.Done? {
      var drawn := Drawn(th.phase, resumed, choice);
      var q := Next(world, sys.catalog, th.request, th.phase, drawn);
      var minted := if Mints(th) then sys.minted[choice.principal := id] else sys.minted;
      NextDescends(world, sys.catalog, th.request, th.phase, drawn);
      CommitsOnlyOnce(world, sys.catalog, th.request, th.phase, drawn);
      NextIsOk(world, home, sys, id, th, drawn);
      var next := System(q.0, sys.threads, minted);
      AloneIsOk(world, home, next, id, th.(phase := q.1), resumed, choice);
      ExtendsTransitive(sys.catalog, q.0, Alone(world, q.0, th.request, q.1, resumed, choice).0);
    }
  }
}
