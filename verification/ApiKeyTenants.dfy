/** Which tenant a success is about: an operation answers for its own tenant, with one exception. */
module ApiKeyTenants {
  import opened Prelude
  import opened ApiKeys
  import opened ApiKeyDigest
  import opened ApiKeyCatalog
  import opened ApiKeyProtocol
  import opened ApiKeyInvariant
  import opened ApiKeyProposals
  import opened ApiKeyRuns
  import opened ApiKeySafety
  import opened ApiKeyPrincipals

  /** The operation works on the tenant its request means. */
  predicate StandsFor(home: Id, r: Request, phase: Phase) {
    match phase
    case Redirected => Subject(home, r).None?
    case Looking(who, _, _) => who == Subject(home, r)
    case Auditing(who, _, _) => who == Subject(home, r)
    case Resuming(who, _) => who == Subject(home, r)
    case Repinning(who) => who == Subject(home, r)
    case Committing(who, _) => who == Subject(home, r)
    case _ => true
  }

  /** The digest takes a tenant's mutation for this default-tenant request. */
  predicate Mistaken(world: World, r: Request, f: Fields) {
    f.tenant.Some? && DigestOf(world, BindingOf(f)) == DigestOf(world, BindingAs(r, None, f.scope, f.expiry))
  }

  /** The mutation is about the request's tenant, unless a default-tenant request is answered by its digest or a
      default-tenant revocation from the audit chain, where nothing compares the tenant. */
  predicate Tied(world: World, home: Id, r: Request, f: Fields) {
    f.tenant == Subject(home, r) || (Subject(home, r).None? && (r.action.Revoke? || Mistaken(world, r, f)))
  }

  ghost predicate TenantOk(world: World, home: Id, c: Catalog, r: Request, phase: Phase) {
    && StandsFor(home, r, phase)
    && (phase.Done? && phase.outcome.Ok? ==>
          r.key in c.transactions && c.transactions[r.key].Published? && Tied(world, home, r, c.transactions[r.key].fields))
  }

  lemma BeginIsTied(world: World, home: Id, c: Catalog, r: Request, forTenant: bool)
    requires Standing(c) && Keyed(Pinned(c).objects, home)
    requires forTenant == r.forTenant || (!forTenant && Subject(home, r).None?)
    ensures TenantOk(world, home, c, r, Begin(world, c, r, forTenant))
  {
    LookupsSucceed(Pinned(c).objects, home, home);
  }

  lemma LookIsTied(world: World, home: Id, c: Catalog, r: Request, who: Option<Id>, basis: nat, again: bool)
    requires Inv(world, home, c) && PhaseOk(home, c, r, Looking(who, basis, again)) && who == Subject(home, r)
    ensures TenantOk(world, home, c, r, Look(world, c, r, who, basis, again))
  {
    var f := LookAnswers(world, c, r, who, basis, again);
    var i := if who.Some? && r.action.Create? then basis else c.visible;
    assert SnapshotOk(home, c.audit, c.history[0], c.history[i]);
    if f.Some? && Receipt(f.value) in c.history[i].objects {
      ReceiptHasOutcome(world, home, c, c.history[i], f.value);
    }
  }

  /** A recorded mutation's credentials are in the ring of its tenant. */
  lemma RecordedIsHeld(world: World, home: Id, c: Catalog, f: Fields)
    requires Inv(world, home, c) && Recorded(c.audit, |c.audit|, f)
    ensures var s := c.history[Current(c)];
            HeldBy(s, f.tenant, f.principal) && (!f.action.Create? ==> HeldBy(s, f.tenant, f.target))
  {
    var s := c.history[Current(c)];
    assert SnapshotOk(home, c.audit, c.history[0], s);
    assert Enacted(RingOf(s.objects, f.tenant), f);
  }

  /** What an earlier generation's ring holds, the current one holds. */
  lemma HeldStays(world: World, home: Id, c: Catalog, basis: nat, who: Option<Id>, principal: Id)
    requires Inv(world, home, c) && basis < |c.history| && HeldBy(c.history[basis], who, principal)
    ensures HeldBy(c.history[Current(c)], who, principal)
  {
    var a, b := RingOf(c.history[basis].objects, who), RingOf(c.history[Current(c)].objects, who);
    assert SnapshotKept(c.history[basis], c.history[Current(c)]);
    var i :| 0 <= i < |a.credentials| && a.credentials[i].principal == principal;
    assert CredentialKept(a.credentials[i], b.credentials[i]);
  }

  /** What the audit fallback compares for a tenant: the ring holds the recorded principal or target. */
  lemma TenantAnswerIsHeld(world: World, r: Request, who: Option<Id>, f: Fields, ring: Ring)
    requires who.Some? && AuditAnswer(world, r, who, f, ring).Ok? && AuditAnswer(world, r, who, f, ring).value.Some?
    ensures !Unheard(ring, if r.action.Revoke? then f.target else f.principal) && f.action == r.action
  {
  }

  lemma DefaultAnswerIsBound(world: World, r: Request, f: Fields, ring: Ring)
    requires AuditAnswer(world, r, None, f, ring).Ok? && AuditAnswer(world, r, None, f, ring).value.Some? && !r.action.Revoke?
    ensures f.digest == DigestOf(world, BindingAs(r, None, f.scope, f.expiry))
  {
  }

  lemma AnswerIsTied(world: World, home: Id, c: Catalog, minted: map<Id, nat>, r: Request, basis: nat, f: Fields)
    requires Inv(world, home, c) && Tidy(c, minted) && basis < |c.history|
    requires Recorded(c.audit, |c.audit|, f) && ProperFields(world, home, f)
    requires var a := AuditAnswer(world, r, Subject(home, r), f, RingOf(c.history[basis].objects, Subject(home, r)));
             a.Ok? && a.value.Some?
    ensures Tied(world, home, r, f)
  {
    var who := Subject(home, r);
    var ring := RingOf(c.history[basis].objects, who);
    if who.Some? {
      TenantAnswerIsHeld(world, r, who, f, ring);
      HeldStays(world, home, c, basis, who, if r.action.Revoke? then f.target else f.principal);
      RecordedIsHeld(world, home, c, f);
    } else if !r.action.Revoke? {
      DefaultAnswerIsBound(world, r, f, ring);
    }
  }

  lemma AuditIsTied(world: World, home: Id, c: Catalog, minted: map<Id, nat>, r: Request, who: Option<Id>, basis: nat, again: bool)
    requires Inv(world, home, c) && Tidy(c, minted)
    requires PhaseOk(home, c, r, Auditing(who, basis, again)) && who == Subject(home, r)
    ensures TenantOk(world, home, c, r, Audit(world, c, r, who, basis, again))
  {
    assert SnapshotOk(home, c.audit, c.history[0], c.history[c.visible]);
    assert SnapshotOk(home, c.audit, c.history[0], c.history[basis]);
    ReadsTheRing(c.history[basis], home, who);
    var records := c.audit[..Pinned(c).frontier];
    var entry := ReplayEntry(records, r.key);
    var q := Audit(world, c, r, who, basis, again);
    if q.Done? && q.outcome.Ok? {
      var p := EntryIsRecorded(records, r.key);
      assert c.audit[p] == records[p] && Outcomes(c.audit[p], c.transactions);
      assert RecordOk(world, home, c.audit, p);
      AnswerIsTied(world, home, c, minted, r, basis, entry.value.value);
    }
  }

  lemma ResumeIsTied(world: World, home: Id, c: Catalog, r: Request, who: Option<Id>, basis: nat, fault: Fault)
    requires Inv(world, home, c) && basis < |c.history| && who == Subject(home, r)
    ensures var q := TryResume(world, c, r, who, basis, fault); TenantOk(world, home, q.0, r, q.1)
  {
    var q := TryResume(world, c, r, who, basis, fault);
    if q.1.Done? && q.1.outcome.Ok? {
      var ring := ReadRing(c.history[basis], who).value;
      var digest := RequestDigest(world, r, who, ring).value;
      ResumedCase(c, r.key, digest, fault);
      OwnIsBound(world, r, ring, digest, c.staged[r.key].p.fields);
      assert StagedOk(world, home, c, r.key);
    }
  }

  lemma CommitIsTied(world: World, home: Id, c: Catalog, r: Request, who: Option<Id>, basis: nat, choice: Choice)
    requires Inv(world, home, c) && basis < |c.history| && who == Subject(home, r)
    ensures var q := TryCommit(world, c, r, who, basis, choice); TenantOk(world, home, q.0, r, q.1)
  {
    assert SnapshotOk(home, c.audit, c.history[0], c.history[basis]);
    CommitStepCases(world, c, r, who, basis, choice);
    var q := TryCommit(world, c, r, who, basis, choice);
    if q.1.outcome.Ok? {
      AcknowledgedCommit(world, c, r, who, basis, choice);
      ProposalAnswers(world, home, c.history[basis], basis, r, who, choice);
    }
  }

  lemma QuietIsTied(world: World, home: Id, c: Catalog, minted: map<Id, nat>, r: Request, phase: Phase, choice: Choice)
    requires Inv(world, home, c) && Tidy(c, minted) && PhaseOk(home, c, r, phase) && TenantOk(world, home, c, r, phase)
    requires !phase.Resuming? && !phase.Committing?
    ensures var q := Next(world, c, r, phase, choice); q.0 == c && TenantOk(world, home, q.0, r, q.1)
  {
    match phase {
      case Start => PinnedIsKeyed(world, home, c); BeginIsTied(world, home, c, r, r.forTenant);
      case Redirected => PinnedIsKeyed(world, home, c); BeginIsTied(world, home, c, r, false);
      case Looking(who, basis, again) => LookIsTied(world, home, c, r, who, basis, again);
      case Auditing(who, basis, again) => AuditIsTied(world, home, c, minted, r, who, basis, again);
      case Repinning(_) =>
      case Done(_) =>
    }
  }

  lemma NextIsTied(world: World, home: Id, c: Catalog, minted: map<Id, nat>, r: Request, phase: Phase, choice: Choice)
    requires Inv(world, home, c) && Tidy(c, minted) && PhaseOk(home, c, r, phase) && TenantOk(world, home, c, r, phase)
    ensures var q := Next(world, c, r, phase, choice); TenantOk(world, home, q.0, r, q.1)
  {
    match phase
    case Resuming(who, basis) => ResumeIsTied(world, home, c, r, who, basis, choice.fault);
    case Committing(who, basis) => CommitIsTied(world, home, c, r, who, basis, choice);
    case _ => QuietIsTied(world, home, c, minted, r, phase, choice);
  }

  ghost predicate AllTied(world: World, home: Id, sys: System) {
    && Tidy(sys.catalog, sys.minted)
    && forall id :: id in sys.threads ==> TenantOk(world, home, sys.catalog, sys.threads[id].request, sys.threads[id].phase)
  }

  lemma TiedStays(world: World, home: Id, c: Catalog, d: Catalog, r: Request, phase: Phase)
    requires Extends(c, d) && TenantOk(world, home, c, r, phase)
    ensures TenantOk(world, home, d, r, phase)
  {
  }

  lemma EventIsTied(world: World, home: Id, sys: System, e: Event)
    requires SystemOk(world, home, sys) && AllTied(world, home, sys)
    ensures AllTied(world, home, Apply(world, home, sys, e))
  {
    var after := Apply(world, home, sys, e);
    EventIsTidy(world, home, sys, e);
    ApplyIsOk(world, home, sys, e);
    forall id | id in after.threads
      ensures TenantOk(world, home, after.catalog, after.threads[id].request, after.threads[id].phase)
    {
      ThreadIsTied(world, home, sys, e, id);
    }
  }

  lemma ThreadIsTied(world: World, home: Id, sys: System, e: Event, id: nat)
    requires SystemOk(world, home, sys) && AllTied(world, home, sys) && id in Apply(world, home, sys, e).threads
    requires Extends(sys.catalog, Apply(world, home, sys, e).catalog)
    ensures var after := Apply(world, home, sys, e);
            TenantOk(world, home, after.catalog, after.threads[id].request, after.threads[id].phase)
  {
    var after := Apply(world, home, sys, e);
    if e.Step? && e.id == id {
      assert ThreadOk(world, home, sys.catalog, sys.minted, id, sys.threads[id]);
      NextIsTied(world, home, sys.catalog, sys.minted, sys.threads[id].request, sys.threads[id].phase, e.choice);
    } else {
      Untouched(world, home, sys, e, id);
      if id in sys.threads {
        TiedStays(world, home, sys.catalog, after.catalog, sys.threads[id].request, sys.threads[id].phase);
      }
    }
  }

  lemma {:induction false} RunIsTied(world: World, home: Id, sys: System, events: seq<Event>)
    requires SystemOk(world, home, sys) && AllTied(world, home, sys)
    ensures AllTied(world, home, Run(world, home, sys, events))
  {
    if events != [] {
      var front := events[..|events| - 1];
      RunIsTied(world, home, sys, front);
      RunIsOk(world, home, sys, front);
      EventIsTied(world, home, Run(world, home, sys, front), events[|events| - 1]);
    }
  }

  /** A Catalog without API-key history whose rings share no principal. */
  ghost predicate InitiallyApart(home: Id, sys: System) {
    Initial(home, sys) && Apart(sys.catalog.history[0])
  }

  lemma ReachableIsTied(world: World, home: Id, start: System, events: seq<Event>)
    requires InitiallyApart(home, start)
    ensures AllTied(world, home, Run(world, home, start, events))
  {
    InitialIsOk(world, home, start);
    assert forall key :: !Pending(start.catalog, key);
    RunIsTied(world, home, start, events);
  }

  /** In no generation of any run do two tenants share a principal. */
  lemma PrincipalsStayApart(world: World, home: Id, start: System, events: seq<Event>, i: nat)
    requires InitiallyApart(home, start) && i < |Run(world, home, start, events).catalog.history|
    ensures Apart(At(world, home, start, events, i))
  {
    ReachableIsTied(world, home, start, events);
    ReachableIsOk(world, home, start, events);
    var c := Run(world, home, start, events).catalog;
    var s := c.history[i];
    forall who, other, principal | HeldBy(s, who, principal) && HeldBy(s, other, principal)
      ensures who == other
    {
      HeldStays(world, home, c, i, who, principal);
      HeldStays(world, home, c, i, other, principal);
    }
  }

  /** Some provisioned tenant holds the principal. */
  ghost predicate TenantHolds(s: Snapshot, principal: Id) {
    exists tenant: Id :: HeldBy(s, Some(tenant), principal)
  }

  /** A default-tenant revocation of a principal that a provisioned tenant holds. */
  ghost predicate Misdirected(home: Id, s: Snapshot, r: Request) {
    Subject(home, r).None? && r.action.Revoke? && TenantHolds(s, r.target)
  }

  lemma MistakenCollides(world: World, r: Request, f: Fields)
    requires Mistaken(world, r, f)
    ensures !Separates(world, BindingOf(f), BindingAs(r, None, f.scope, f.expiry))
  {
    TenantsAreTold(BindingOf(f), BindingAs(r, None, f.scope, f.expiry));
  }

  lemma TiedExactly(world: World, home: Id, c: Catalog, minted: map<Id, nat>, r: Request, f: Fields)
    requires Inv(world, home, c) && Tidy(c, minted) && Recorded(c.audit, |c.audit|, f)
    requires Answers(f, r) && Tied(world, home, r, f)
    requires Separates(world, BindingOf(f), BindingAs(r, None, f.scope, f.expiry))
    ensures f.tenant == Subject(home, r) <==> !Misdirected(home, c.history[Current(c)], r)
  {
    RecordedIsHeld(world, home, c, f);
    if Mistaken(world, r, f) {
      MistakenCollides(world, r, f);
    }
    var s := c.history[Current(c)];
    if f.tenant.Some? {
      assert r.action.Revoke? ==> HeldBy(s, Some(f.tenant.value), r.target);
    }
  }

  /** Where the digest does not collide, a success is about the tenant its request means exactly when it is not a
      default-tenant revocation of a provisioned tenant's principal. */
  lemma SuccessIsForItsTenant(world: World, home: Id, start: System, events: seq<Event>, t: nat)
    requires InitiallyApart(home, start) && t in Run(world, home, start, events).threads
    requires Succeeded(Run(world, home, start, events).threads[t])
    ensures var sys := Run(world, home, start, events);
            var c, r := sys.catalog, sys.threads[t].request;
            && r.key in c.transactions && c.transactions[r.key].Published?
            && var f := c.transactions[r.key].fields;
               Separates(world, BindingOf(f), BindingAs(r, None, f.scope, f.expiry)) ==>
                 (f.tenant == Subject(home, r) <==> !Misdirected(home, c.history[Current(c)], r))
  {
    ReachableIsTied(world, home, start, events);
    ReachableIsOk(world, home, start, events);
    EverySuccessIsPublished(world, home, start, events, t);
    var sys := Run(world, home, start, events);
    var c, r := sys.catalog, sys.threads[t].request;
    var f := c.transactions[r.key].fields;
    assert TenantOk(world, home, c, r, sys.threads[t].phase) && OutcomeOk(c, r.key);
    if Separates(world, BindingOf(f), BindingAs(r, None, f.scope, f.expiry)) {
      TiedExactly(world, home, c, sys.minted, r, f);
    }
  }

  /** So two successes under one key are about the same tenant, the misdirected revocation aside. */
  lemma SuccessesShareTheTenant(world: World, home: Id, start: System, events: seq<Event>, t: nat, u: nat)
    requires InitiallyApart(home, start)
    requires var sys := Run(world, home, start, events);
             && t in sys.threads && u in sys.threads && sys.threads[t].request.key == sys.threads[u].request.key
             && Succeeded(sys.threads[t]) && Succeeded(sys.threads[u])
    ensures var sys := Run(world, home, start, events);
            var c, r, q := sys.catalog, sys.threads[t].request, sys.threads[u].request;
            && r.key in c.transactions && c.transactions[r.key].Published?
            && var f := c.transactions[r.key].fields;
               && Separates(world, BindingOf(f), BindingAs(r, None, f.scope, f.expiry))
               && Separates(world, BindingOf(f), BindingAs(q, None, f.scope, f.expiry))
               && !Misdirected(home, c.history[Current(c)], r) && !Misdirected(home, c.history[Current(c)], q)
               ==> Subject(home, r) == Subject(home, q)
  {
    SuccessIsForItsTenant(world, home, start, events, t);
    SuccessIsForItsTenant(world, home, start, events, u);
  }

  lemma RevocationReadsTheEntry(world: World, c: Catalog, r: Request, basis: nat, f: Fields)
    requires Standing(c) && basis < |c.history| && ReadRing(c.history[basis], None).Ok? && Pinned(c).frontier == |c.audit|
    requires ReplayEntry(c.audit, r.key) == Ok(Some(f)) && Answers(f, r) && r.action.Revoke?
    ensures Audit(world, c, r, None, basis, false) == Done(Ok(Answer(f.principal, None)))
  {
    assert c.audit[..Pinned(c).frontier] == c.audit;
  }

  /** A default-tenant revocation that has looked for a receipt, and then reads the audit chain after a tenant's
      revocation of the same principal was published under its key, succeeds. */
  lemma AuditCrossesTenants(world: World, home: Id, c: Catalog, r: Request, basis: nat, f: Fields)
    requires Inv(world, home, c) && basis < |c.history| && c.visible == Current(c) && r.action.Revoke?
    requires r.key in c.transactions && c.transactions[r.key].Published? && c.transactions[r.key].fields == f && Answers(f, r)
    ensures Audit(world, c, r, None, basis, false) == Done(Ok(Answer(f.principal, None)))
  {
    assert ReadRing(c.history[basis], None).Ok? by {
      assert SnapshotOk(home, c.audit, c.history[0], c.history[basis]);
      ReadsTheRing(c.history[basis], home, None);
    }
    assert ReplayEntry(c.audit, r.key) == Ok(Some(f)) by {
      assert OutcomeOk(c, r.key) && RecordOk(world, home, c.audit, f.position - 1);
      EntryIsFound(c.audit, r.key, f, f.position - 1);
    }
    RevocationReadsTheEntry(world, c, r, basis, f);
  }

  /** Two revocations that differ in their tenant only. */
  predicate SameButTenant(r: Request, q: Request) {
    && r.action.Revoke? && q.action.Revoke? && r.key == q.key && r.actor.principal == q.actor.principal
    && r.expected == q.expected && r.target == q.target
  }

  lemma CommitCrossesTenants(world: World, home: Id, sys: System, q: Request, who: Option<Id>, at: nat, choice: Choice, r: Request,
                             basis: nat)
    requires Inv(world, home, sys.catalog) && PhaseOk(home, sys.catalog, q, Committing(who, at)) && Admissible(q)
    requires SameButTenant(r, q) && basis < |sys.catalog.history|
    requires var o := TryCommit(world, sys.catalog, q, who, at, choice).1; o.Done? && o.outcome.Ok?
    ensures var d := TryCommit(world, sys.catalog, q, who, at, choice).0;
            && basis < |d.history|
            && r.key in d.transactions && d.transactions[r.key].Published? && d.transactions[r.key].fields.tenant == who
            && Audit(world, d, r, None, basis, false) == Done(Ok(Answer(d.transactions[r.key].fields.principal, None)))
  {
    var c, d := sys.catalog, TryCommit(world, sys.catalog, q, who, at, choice).0;
    CommitStepIsOk(world, home, sys, q, who, at, choice);
    AcknowledgedCommit(world, c, q, who, at, choice);
    assert SnapshotOk(home, c.audit, c.history[0], c.history[at]);
    ProposalAnswers(world, home, c.history[at], at, q, who, choice);
    AuditCrossesTenants(world, home, d, r, basis, d.transactions[r.key].fields);
  }

  /** An operation that has found no receipt for its default-tenant request and turns to the audit chain. */
  predicate TurnsToTheAudit(sys: System, t: nat) {
    t in sys.threads && sys.threads[t].phase.Auditing? && sys.threads[t].phase.who.None? && !sys.threads[t].phase.again
  }

  /** A tenant's operation whose commit succeeds now. */
  predicate CommitsNow(world: World, sys: System, u: nat, choice: Choice)
    requires Standing(sys.catalog)
  {
    && u in sys.threads && sys.threads[u].phase.Committing? && sys.threads[u].phase.who.Some?
    && Placed(sys.catalog, sys.threads[u].phase)
    && var o := TryCommit(world, sys.catalog, sys.threads[u].request, sys.threads[u].phase.who, sys.threads[u].phase.basis, choice).1;
       o.Done? && o.outcome.Ok?
  }

  /** The step of an operation that draws no principal. */
  lemma StepIs(world: World, home: Id, sys: System, id: nat, choice: Choice)
    requires Standing(sys.catalog) && id in sys.threads && Placed(sys.catalog, sys.threads[id].phase) && !Mints(sys.threads[id])
    ensures var th := sys.threads[id];
            var q := Next(world, sys.catalog, th.request, th.phase, choice);
            Apply(world, home, sys, Step(id, choice)) == System(q.0, sys.threads[id := th.(phase := q.1)], sys.minted)
  {
  }

  /** A step of `u` and then one of `t`, which reads the audit chain. */
  lemma TwoSteps(world: World, home: Id, sys: System, t: nat, u: nat, choice: Choice, other: Choice)
    requires Standing(sys.catalog) && TurnsToTheAudit(sys, t) && CommitsNow(world, sys, u, choice)
    requires sys.threads[u].request.action.Revoke? && sys.threads[t].phase.basis < |sys.catalog.history|
    ensures var d := TryCommit(world, sys.catalog, sys.threads[u].request, sys.threads[u].phase.who, sys.threads[u].phase.basis,
                               choice).0;
            var basis := sys.threads[t].phase.basis;
            var after := Apply(world, home, Apply(world, home, sys, Step(u, choice)), Step(t, other));
            && basis < |d.history| && after.catalog == d && t in after.threads
            && after.threads[t] == Thread(sys.threads[t].request, Audit(world, d, sys.threads[t].request, None, basis, false))
  {
    StepIs(world, home, sys, u, choice);
    StepIs(world, home, Apply(world, home, sys, Step(u, choice)), t, other);
  }

  /** The exception happens: between the default-tenant operation's lookup and its look at the audit chain, a
      tenant's revocation of the same principal under the same key commits, and the default-tenant one succeeds. */
  lemma MisdirectedRevocationSucceeds(world: World, home: Id, sys: System, t: nat, u: nat, choice: Choice, other: Choice)
    requires SystemOk(world, home, sys) && TurnsToTheAudit(sys, t) && CommitsNow(world, sys, u, choice)
    requires SameButTenant(sys.threads[t].request, sys.threads[u].request)
    ensures var after := Apply(world, home, Apply(world, home, sys, Step(u, choice)), Step(t, other));
            var key := sys.threads[t].request.key;
            && t in after.threads && after.threads[t].request == sys.threads[t].request && Succeeded(after.threads[t])
            && key in after.catalog.transactions && after.catalog.transactions[key].Published?
            && after.catalog.transactions[key].fields.tenant == sys.threads[u].phase.who
  {
    var th := sys.threads[u];
    assert ThreadOk(world, home, sys.catalog, sys.minted, u, th) && ThreadOk(world, home, sys.catalog, sys.minted, t, sys.threads[t]);
    TwoSteps(world, home, sys, t, u, choice, other);
    CommitCrossesTenants(world, home, sys, th.request, th.phase.who, th.phase.basis, choice, sys.threads[t].request,
                         sys.threads[t].phase.basis);
  }
}
