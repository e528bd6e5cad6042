/** Runs from an initial Catalog on which a default-tenant revocation succeeds on another tenant's mutation. */
module ApiKeyMisdirection {
  import opened Prelude
  import opened ApiKeys
  import opened ApiKeyCatalog
  import opened ApiKeyProtocol
  import opened ApiKeyProgress
  import opened ApiKeyInvariant
  import opened ApiKeyRuns
  import opened ApiKeySafety
  import opened ApiKeyReplay
  import opened ApiKeySuccess
  import opened ApiKeyPrincipals
  import opened ApiKeyTenants

  /** Two operations in flight, neither of which has drawn a principal. */
  function Pair(c: Catalog, r: Request, p: Phase, q: Request, o: Phase): System {
    System(c, map[0 := Thread(r, p), 1 := Thread(q, o)], map[])
  }

  lemma FirstSteps(world: World, home: Id, c: Catalog, r: Request, p: Phase, next: Phase, q: Request, o: Phase, choice: Choice)
    requires Standing(c) && Placed(c, p) && r.action.Revoke? && Next(world, c, r, p, choice) == (c, next)
    ensures Apply(world, home, Pair(c, r, p, q, o), Step(0, choice)) == Pair(c, r, next, q, o)
  {
    StepIs(world, home, Pair(c, r, p, q, o), 0, choice);
    assert map[0 := Thread(r, p), 1 := Thread(q, o)][0 := Thread(r, next)] == map[0 := Thread(r, next), 1 := Thread(q, o)];
  }

  lemma SecondSteps(world: World, home: Id, c: Catalog, r: Request, p: Phase, q: Request, o: Phase, next: Phase, choice: Choice)
    requires Standing(c) && Placed(c, o) && q.action.Revoke? && Next(world, c, q, o, choice) == (c, next)
    ensures Apply(world, home, Pair(c, r, p, q, o), Step(1, choice)) == Pair(c, r, p, q, next)
  {
    StepIs(world, home, Pair(c, r, p, q, o), 1, choice);
    assert map[0 := Thread(r, p), 1 := Thread(q, o)][1 := Thread(q, next)] == map[0 := Thread(r, p), 1 := Thread(q, next)];
  }

  lemma RunThen(world: World, home: Id, sys: System, events: seq<Event>, e: Event)
    requires Standing(sys.catalog)
    ensures Run(world, home, sys, events + [e]) == Apply(world, home, Run(world, home, sys, events), e)
  {
    assert (events + [e])[..|events|] == events;
  }

  /** Both revocations are admitted, differ in their tenant only, and run under a new key; the tenant's is granted. */
  ghost predicate Crossable(world: World, home: Id, start: System, r: Request, q: Request, choice: Choice) {
    && InitiallyApart(home, start) && SameButTenant(r, q) && Admissible(r) && Admissible(q)
    && var c := start.catalog;
       && !r.forTenant && Admitted(world, home, c, r) && Subject(home, q).Some? && Admitted(world, home, c, q)
       && NewKey(c, q.key) && choice.fault.NoFault? && Granted(world, c, q, Subject(home, q), choice)
  }

  /** The default-tenant operation looks for a receipt and finds none. */
  function Opening(r: Request, q: Request, choice: Choice): seq<Event> {
    [Spawn(0, r)] + [Spawn(1, q)] + [Step(0, choice)] + [Step(0, choice)]
  }

  /** Then the tenant's operation comes as far as its commit. */
  function Crossing(r: Request, q: Request, choice: Choice): seq<Event> {
    Opening(r, q, choice) + [Step(1, choice)] + [Step(1, choice)] + [Step(1, choice)] + [Step(1, choice)]
  }

  lemma BothSpawn(world: World, home: Id, start: System, r: Request, q: Request)
    requires Initial(home, start) && Admissible(r) && Admissible(q)
    ensures Run(world, home, start, [Spawn(0, r)] + [Spawn(1, q)]) == Pair(start.catalog, r, Start, q, Start)
  {
    RunThen(world, home, start, [], Spawn(0, r));
    assert [] + [Spawn(0, r)] == [Spawn(0, r)];
    RunThen(world, home, start, [Spawn(0, r)], Spawn(1, q));
    assert map[0 := Thread(r, Start)][1 := Thread(q, Start)] == map[0 := Thread(r, Start), 1 := Thread(q, Start)];
  }

  /** The first two steps of an admitted operation under a new key lead to the audit chain. */
  lemma LeadsToTheAudit(world: World, home: Id, c: Catalog, r: Request, choice: Choice)
    requires Inv(world, home, c) && NewKey(c, r.key) && Admitted(world, home, c, r) && !NamesDefault(home, r)
    ensures var who := Subject(home, r);
            && Next(world, c, r, Start, choice) == (c, Looking(who, c.visible, false))
            && Next(world, c, r, Looking(who, c.visible, false), choice) == (c, Auditing(who, c.visible, false))
  {
    PinnedIsKeyed(world, home, c);
    FirstPhase(world, home, c, r);
    NewKeyIsUnseen(world, home, c, r.key);
    LookPasses(world, home, c, r, Subject(home, r));
  }

  /** And the next two of a tenant's operation with a target lead to the commit. */
  lemma LeadsToTheResume(world: World, home: Id, c: Catalog, q: Request, choice: Choice)
    requires Inv(world, home, c) && NewKey(c, q.key) && Subject(home, q).Some?
    ensures Next(world, c, q, Auditing(Subject(home, q), c.visible, false), choice) == (c, Resuming(Subject(home, q), c.visible))
  {
    PinnedIsKeyed(world, home, c);
    NewKeyIsUnseen(world, home, c, q.key);
    AuditPasses(world, home, c, q, Subject(home, q));
  }

  lemma LeadsToTheCommit(world: World, home: Id, c: Catalog, q: Request, choice: Choice)
    requires Inv(world, home, c) && NewKey(c, q.key) && choice.fault.NoFault? && q.action.Revoke?
    requires HasTarget(RingOf(Pinned(c).objects, Subject(home, q)), q.target)
    ensures Next(world, c, q, Resuming(Subject(home, q), c.visible), choice) == (c, Committing(Subject(home, q), c.visible))
  {
    PinnedIsKeyed(world, home, c);
    NothingToResume(world, home, c, q, Subject(home, q));
  }

  lemma OpeningReaches(world: World, home: Id, start: System, r: Request, q: Request, choice: Choice)
    requires Crossable(world, home, start, r, q, choice)
    ensures Run(world, home, start, Opening(r, q, choice))
            == Pair(start.catalog, r, Auditing(None, start.catalog.visible, false), q, Start)
  {
    var c, spawned := start.catalog, [Spawn(0, r)] + [Spawn(1, q)];
    InitialIsOk(world, home, start);
    BothSpawn(world, home, start, r, q);
    LeadsToTheAudit(world, home, c, r, choice);
    FirstSteps(world, home, c, r, Start, Looking(None, c.visible, false), q, Start, choice);
    RunThen(world, home, start, spawned, Step(0, choice));
    FirstSteps(world, home, c, r, Looking(None, c.visible, false), Auditing(None, c.visible, false), q, Start, choice);
    RunThen(world, home, start, spawned + [Step(0, choice)], Step(0, choice));
  }

  /** Four steps of the tenant's operation. */
  lemma TenantApproaches(world: World, home: Id, c: Catalog, r: Request, p: Phase, q: Request, choice: Choice)
    requires Inv(world, home, c) && NewKey(c, q.key) && Admitted(world, home, c, q) && Subject(home, q).Some?
    requires choice.fault.NoFault? && q.action.Revoke? && HasTarget(RingOf(Pinned(c).objects, Subject(home, q)), q.target)
    ensures var e := Step(1, choice);
            var sys := Pair(c, r, p, q, Start);
            Apply(world, home, Apply(world, home, Apply(world, home, Apply(world, home, sys, e), e), e), e)
            == Pair(c, r, p, q, Committing(Subject(home, q), c.visible))
  {
    var who := Subject(home, q);
    LeadsToTheAudit(world, home, c, q, choice);
    LeadsToTheResume(world, home, c, q, choice);
    LeadsToTheCommit(world, home, c, q, choice);
    SecondSteps(world, home, c, r, p, q, Start, Looking(who, c.visible, false), choice);
    SecondSteps(world, home, c, r, p, q, Looking(who, c.visible, false), Auditing(who, c.visible, false), choice);
    SecondSteps(world, home, c, r, p, q, Auditing(who, c.visible, false), Resuming(who, c.visible), choice);
    SecondSteps(world, home, c, r, p, q, Resuming(who, c.visible), Committing(who, c.visible), choice);
  }

  lemma RunFour(world: World, home: Id, start: System, events: seq<Event>, e: Event)
    requires Standing(start.catalog)
    ensures Run(world, home, start, events + [e] + [e] + [e] + [e])
            == Apply(world, home, Apply(world, home, Apply(world, home, Apply(world, home, Run(world, home, start, events), e), e), e), e)
  {
    RunThen(world, home, start, events, e);
    RunThen(world, home, start, events + [e], e);
    RunThen(world, home, start, events + [e] + [e], e);
    RunThen(world, home, start, events + [e] + [e] + [e], e);
  }

  lemma CrossingReaches(world: World, home: Id, start: System, r: Request, q: Request, choice: Choice)
    requires Crossable(world, home, start, r, q, choice)
    ensures var c := start.catalog;
            Run(world, home, start, Crossing(r, q, choice))
            == Pair(c, r, Auditing(None, c.visible, false), q, Committing(Subject(home, q), c.visible))
  {
    var c := start.catalog;
    InitialIsOk(world, home, start);
    OpeningReaches(world, home, start, r, q, choice);
    RunFour(world, home, start, Opening(r, q, choice), Step(1, choice));
    TenantApproaches(world, home, c, r, Auditing(None, c.visible, false), q, choice);
  }

  lemma GrantedCommits(world: World, home: Id, c: Catalog, q: Request, choice: Choice)
    requires Unhindered(world, home, c, q, Subject(home, q), choice) && Granted(world, c, q, Subject(home, q), choice)
    ensures var o := TryCommit(world, c, q, Subject(home, q), c.visible, choice).1; o.Done? && o.outcome.Ok?
  {
    GrantsAtCommit(world, home, c, q, Subject(home, q), choice);
    AloneCommits(world, c, q, Subject(home, q), c.visible, NoFault, choice);
  }

  /** The state in which a misdirected revocation is about to succeed is reached. */
  lemma CrossingIsReached(world: World, home: Id, start: System, r: Request, q: Request, choice: Choice)
    requires Crossable(world, home, start, r, q, choice)
    ensures var sys := Run(world, home, start, Crossing(r, q, choice));
            && SystemOk(world, home, sys) && TurnsToTheAudit(sys, 0) && CommitsNow(world, sys, 1, choice)
            && sys.threads[0].request == r && sys.threads[1].request == q && sys.threads[1].phase.who == Subject(home, q)
  {
    ReachableIsOk(world, home, start, Crossing(r, q, choice));
    CrossingReaches(world, home, start, r, q, choice);
    InitialIsOk(world, home, start);
    GrantedCommits(world, home, start.catalog, q, choice);
  }

  /** The default-tenant operation succeeded on a mutation of another tenant's keys. */
  ghost predicate Crossed(home: Id, sys: System, t: nat) {
    && t in sys.threads && Succeeded(sys.threads[t])
    && var key := sys.threads[t].request.key;
       && key in sys.catalog.transactions && sys.catalog.transactions[key].Published?
       && sys.catalog.transactions[key].fields.tenant.Some? && Subject(home, sys.threads[t].request).None?
  }

  /** From every initial Catalog on which both revocations are admitted and the tenant's is granted, two more steps
      make the default tenant's succeed on the tenant's mutation. */
  lemma MisdirectedRunSucceeds(world: World, home: Id, start: System, r: Request, q: Request, choice: Choice)
    requires Crossable(world, home, start, r, q, choice)
    ensures var after := Run(world, home, start, Crossing(r, q, choice) + [Step(1, choice)] + [Step(0, choice)]);
            Crossed(home, after, 0) && after.threads[0].request == r
  {
    var events := Crossing(r, q, choice);
    CrossingIsReached(world, home, start, r, q, choice);
    MisdirectedRevocationSucceeds(world, home, Run(world, home, start, events), 0, 1, choice, choice);
    RunThen(world, home, start, events, Step(1, choice));
    RunThen(world, home, start, events + [Step(1, choice)], Step(0, choice));
  }

  const HOME: Id := 1
  const TENANT: Id := 2
  const ADMINISTRATOR: Id := 3
  const PRINCIPAL: Id := 4
  const KEY: Id := 5

  /** The default tenant's administrator, and one credential of the tenant. */
  function TwoRings(): set<Object> {
    {Governance(HOME, Ring(1, [Credential(ADMINISTRATOR, 4, true, None, 1, 1)]), []),
     Keyring(TENANT, Ring(1, [Credential(PRINCIPAL, 1, true, None, 1, 1)]))}
  }

  function TwoTenants(): System {
    System(Catalog([Snapshot(TwoRings(), 0, {TENANT})], 0, [], map[], map[]), map[], map[])
  }

  /** The administrator revokes the tenant's principal, for the default tenant or for the tenant. */
  function Revocation(forTenant: bool): Request {
    Request(Revoke, forTenant, if forTenant then Some(TENANT) else None, Actor(ADMINISTRATOR, SystemAdministration, None), Ingest,
            None, PRINCIPAL, 1, KEY)
  }

  lemma TwoRingsAreKeyed()
    ensures Keyed(TwoRings(), HOME)
    ensures RingOf(TwoRings(), None) == Ring(1, [Credential(ADMINISTRATOR, 4, true, None, 1, 1)])
    ensures RingOf(TwoRings(), Some(TENANT)) == Ring(1, [Credential(PRINCIPAL, 1, true, None, 1, 1)])
    ensures forall tenant: Id :: tenant != TENANT ==> RingOf(TwoRings(), Some(tenant)) == Ring(1, [])
  {
    var g := Governance(HOME, Ring(1, [Credential(ADMINISTRATOR, 4, true, None, 1, 1)]), []);
    var k := Keyring(TENANT, Ring(1, [Credential(PRINCIPAL, 1, true, None, 1, 1)]));
    assert AdministratorAt(g.ring.credentials, 0);
    assert SoleGovernance(TwoRings(), g) && SoleKeyring(TwoRings(), TENANT, k);
  }

  lemma TwoTenantsAreApart()
    ensures InitiallyApart(HOME, TwoTenants())
  {
    TwoRingsAreKeyed();
    var s := TwoTenants().catalog.history[0];
    forall who, other, principal | HeldBy(s, who, principal) && HeldBy(s, other, principal)
      ensures who == other
    {
    }
  }

  /** The exception is reachable: it happens on a Catalog of one default and one provisioned tenant, whatever the
      digest function, as long as it is not zero. */
  lemma MisdirectedRunExists(world: World, choice: Choice)
    requires world.administrator == ADMINISTRATOR && choice.fault.NoFault? && forall b :: world.digest(b) != 0
    ensures var r, q := Revocation(false), Revocation(true);
            && InitiallyApart(HOME, TwoTenants())
            && Crossed(HOME, Run(world, HOME, TwoTenants(), Crossing(r, q, choice) + [Step(1, choice)] + [Step(0, choice)]), 0)
  {
    var r, q, c := Revocation(false), Revocation(true), TwoTenants().catalog;
    TwoTenantsAreApart();
    TwoRingsAreKeyed();
    assert HasTarget(RingOf(Pinned(c).objects, Some(TENANT)), PRINCIPAL) by {
      assert RingOf(Pinned(c).objects, Some(TENANT)).credentials[0].principal == PRINCIPAL;
    }
    MisdirectedRunSucceeds(world, HOME, TwoTenants(), r, q, choice);
  }
}
