/** When an operation succeeds: the exact condition for one that runs alone under a new key. */
module ApiKeySuccess {
  import opened Prelude
  import opened ApiKeys
  import opened ApiKeyCatalog
  import opened ApiKeyProtocol
  import opened ApiKeyProgress
  import opened ApiKeyInvariant
  import opened ApiKeyProposals
  import opened ApiKeyRuns
  import opened ApiKeySafety
  import opened ApiKeyReplay
  import opened ApiKeyRepetition

  /** The ring has an active, tenant-scoped credential of the principal. */
  predicate HasTarget(ring: Ring, principal: Id) {
    exists i :: 0 <= i < |ring.credentials| && ring.credentials[i].principal == principal && ring.credentials[i].active
                && ring.credentials[i].scope != 4
  }

  /** What a mutation needs of the ring it changes, the audit frontier and its random material. */
  predicate Grantable(world: World, r: Request, who: Option<Id>, ring: Ring, frontier: U64, choice: Choice) {
    && r.expected == ring.generation && r.expected < U64_MAX && frontier < U64_MAX
    && (!r.action.Create? ==> HasTarget(ring, r.target))
    && (!r.action.Revoke? ==>
          |ring.credentials| < MAX_CREDENTIALS && choice.salt != 0 && world.seal(choice.salt, choice.secret) != 0)
    && RequestDigest(world, r, who, ring) != Ok(0)
  }

  lemma TargetIsFound(ring: Ring, principal: Id)
    requires DistinctPrincipals(ring.credentials)
    ensures FindTarget(ring, principal).Ok? <==> HasTarget(ring, principal)
  {
    if i :| 0 <= i < |ring.credentials| && ring.credentials[i].principal == principal && ring.credentials[i].active
            && ring.credentials[i].scope != 4 {
      assert IsTarget(ring, principal, i);
    }
  }

  /** A ring changes exactly when there is a target where one is needed, and room and material for a credential. */
  lemma ChangesExactly(world: World, r: Request, generation: Generation, ring: Ring, choice: Choice)
    requires DistinctPrincipals(ring.credentials) && (r.action.Create? ==> TenantScoped(r.scope))
    ensures ChangeRing(world, r, generation, ring, choice).Ok? <==>
            && (!r.action.Create? ==> HasTarget(ring, r.target))
            && (!r.action.Revoke? ==>
                  |ring.credentials| < MAX_CREDENTIALS && choice.salt != 0 && world.seal(choice.salt, choice.secret) != 0)
  {
    TargetIsFound(ring, r.target);
  }

  /** The digest a proposal binds is the digest of the request. */
  lemma DigestIsRequested(world: World, r: Request, who: Option<Id>, generation: Generation, ring: Ring, choice: Choice)
    requires ChangeRing(world, r, generation, ring, choice).Ok?
    ensures var change := ChangeRing(world, r, generation, ring, choice).value;
            RequestDigest(world, r, who, ring) == Ok(DigestOf(world, BindingAs(r, who, change.scope, change.expiry)))
  {
  }

  /** A good change is accepted by the ring's encoder, and its object is not among those kept. */
  lemma ReplacementIsOk(home: Id, s: Snapshot, r: Request, who: Option<Id>, change: Change)
    requires Keyed(s.objects, home) && GoodChange(RingOf(s.objects, who), r, change)
    ensures Replacement(s, who, change.ring).Ok? && Replacement(s, who, change.ring).value !in WithoutRing(s.objects, who)
    ensures 1 <= change.scope <= 3
  {
    RingsAreValid(s.objects, home, who);
    LookupsSucceed(s.objects, home, home);
  }

  /** Whether a change is proposed once its replacement is made. */
  lemma ChangeIsProposable(world: World, s: Snapshot, basis: nat, r: Request, who: Option<Id>, generation: Generation, change: Change)
    requires generation == r.expected + 1 && 1 <= change.scope <= 3 && Replacement(s, who, change.ring).Ok?
    requires Replacement(s, who, change.ring).value !in WithoutRing(s.objects, who)
    requires forall f :: Receipt(f) in s.objects ==> f.key != r.key
    ensures ProposeChange(world, s, basis, r, who, generation, change).Ok? <==>
            s.frontier < U64_MAX && DigestOf(world, BindingAs(r, who, change.scope, change.expiry)) != 0
  {
    if s.frontier < U64_MAX {
      NewReceiptIsProposed(s, basis, FieldsOf(world, s, r, who, generation, change), Replacement(s, who, change.ring).value);
    }
  }

  lemma ProposesTheChange(world: World, s: Snapshot, basis: nat, r: Request, who: Option<Id>, choice: Choice, ring: Ring,
                          generation: Generation, change: Change)
    requires ReadRing(s, who) == Ok(ring) && NextGeneration(r, who, ring.generation) == Ok(generation)
    requires ChangeRing(world, r, generation, ring, choice) == Ok(change)
    ensures Propose(world, s, basis, r, who, choice) == ProposeChange(world, s, basis, r, who, generation, change)
  {
  }

  /** A replacement and a receipt under a new key can be proposed exactly when the receipt is valid. */
  lemma NewReceiptIsProposed(s: Snapshot, basis: nat, fields: Fields, o: Object)
    requires o !in WithoutRing(s.objects, fields.tenant) && forall f :: Receipt(f) in s.objects ==> f.key != fields.key
    ensures ProposalOf(s, basis, fields, o).Ok? <==> ValidReceipt(fields)
  {
  }

  /** So is any change the ring admits. */
  lemma ChangeIsReplaced(world: World, home: Id, s: Snapshot, r: Request, who: Option<Id>, choice: Choice, ring: Ring, change: Change)
    requires Keyed(s.objects, home) && Admissible(r) && ring == RingOf(s.objects, who)
    requires r.action.Revoke? || Unheard(ring, choice.principal)
    requires r.expected == ring.generation && r.expected < U64_MAX && ChangeRing(world, r, r.expected + 1, ring, choice) == Ok(change)
    ensures Replacement(s, who, change.ring).Ok? && Replacement(s, who, change.ring).value !in WithoutRing(s.objects, who)
    ensures 1 <= change.scope <= 3
  {
    RingsAreValid(s.objects, home, who);
    ChangesAreGood(world, r, r.expected + 1, ring, choice);
    ReplacementIsOk(home, s, r, who, change);
  }

  lemma ProposalNeeds(world: World, s: Snapshot, basis: nat, r: Request, who: Option<Id>, choice: Choice, ring: Ring)
    requires ReadRing(s, who) == Ok(ring) && Propose(world, s, basis, r, who, choice).Ok?
    ensures r.expected == ring.generation && r.expected < U64_MAX && ChangeRing(world, r, r.expected + 1, ring, choice).Ok?
  {
  }

  lemma GrantableChange(world: World, r: Request, who: Option<Id>, ring: Ring, frontier: U64, choice: Choice)
    requires DistinctPrincipals(ring.credentials) && (r.action.Create? ==> TenantScoped(r.scope))
    ensures Grantable(world, r, who, ring, frontier, choice) <==>
            && r.expected == ring.generation && r.expected < U64_MAX
            && ChangeRing(world, r, r.expected + 1, ring, choice).Ok?
            && frontier < U64_MAX && RequestDigest(world, r, who, ring) != Ok(0)
  {
    if r.expected < U64_MAX {
      ChangesExactly(world, r, r.expected + 1, ring, choice);
    }
  }

  lemma ChangeIsProposed(world: World, home: Id, s: Snapshot, basis: nat, r: Request, who: Option<Id>, choice: Choice, ring: Ring,
                         change: Change)
    requires Keyed(s.objects, home) && Admissible(r) && forall f :: Receipt(f) in s.objects ==> f.key != r.key
    requires ring == RingOf(s.objects, who) && (r.action.Revoke? || Unheard(ring, choice.principal))
    requires r.expected == ring.generation && r.expected < U64_MAX && ChangeRing(world, r, r.expected + 1, ring, choice) == Ok(change)
    ensures Propose(world, s, basis, r, who, choice).Ok? <==>
            s.frontier < U64_MAX && DigestOf(world, BindingAs(r, who, change.scope, change.expiry)) != 0
  {
    ReadsTheRing(s, home, who);
    ChangeIsReplaced(world, home, s, r, who, choice, ring, change);
    ProposesTheChange(world, s, basis, r, who, choice, ring, r.expected + 1, change);
    ChangeIsProposable(world, s, basis, r, who, r.expected + 1, change);
  }

  lemma NoChangeIsRefused(world: World, home: Id, s: Snapshot, basis: nat, r: Request, who: Option<Id>, choice: Choice)
    requires Keyed(s.objects, home)
    requires var ring := RingOf(s.objects, who);
             !(&& r.expected == ring.generation && r.expected < U64_MAX
               && ChangeRing(world, r, r.expected + 1, ring, choice).Ok?)
    ensures Propose(world, s, basis, r, who, choice).Err?
  {
    ReadsTheRing(s, home, who);
    if Propose(world, s, basis, r, who, choice).Ok? {
      ProposalNeeds(world, s, basis, r, who, choice, RingOf(s.objects, who));
    }
  }

  lemma ProposesOnRing(world: World, home: Id, s: Snapshot, basis: nat, r: Request, who: Option<Id>, choice: Choice, ring: Ring)
    requires Keyed(s.objects, home) && Admissible(r) && forall f :: Receipt(f) in s.objects ==> f.key != r.key
    requires ring == RingOf(s.objects, who) && (r.action.Revoke? || Unheard(ring, choice.principal))
    ensures Propose(world, s, basis, r, who, choice).Ok? <==>
            && r.expected == ring.generation && r.expected < U64_MAX
            && ChangeRing(world, r, r.expected + 1, ring, choice).Ok?
            && s.frontier < U64_MAX && RequestDigest(world, r, who, ring) != Ok(0)
  {
    if r.expected == ring.generation && r.expected < U64_MAX && ChangeRing(world, r, r.expected + 1, ring, choice).Ok? {
      DigestIsRequested(world, r, who, r.expected + 1, ring, choice);
      ChangeIsProposed(world, home, s, basis, r, who, choice, ring, ChangeRing(world, r, r.expected + 1, ring, choice).value);
    } else {
      NoChangeIsRefused(world, home, s, basis, r, who, choice);
    }
  }

  lemma ProposesExactly(world: World, home: Id, s: Snapshot, basis: nat, r: Request, who: Option<Id>, choice: Choice)
    requires Keyed(s.objects, home) && Admissible(r) && (r.action.Create? ==> TenantScoped(r.scope))
    requires r.action.Revoke? || Unheard(RingOf(s.objects, who), choice.principal)
    requires forall f :: Receipt(f) in s.objects ==> f.key != r.key
    ensures Propose(world, s, basis, r, who, choice).Ok? <==>
            Grantable(world, r, who, RingOf(s.objects, who), s.frontier, choice)
  {
    var ring := RingOf(s.objects, who);
    RingsAreValid(s.objects, home, who);
    GrantableChange(world, r, who, ring, s.frontier, choice);
    ProposesOnRing(world, home, s, basis, r, who, choice, ring);
  }

  /** Nothing was ever published or staged under the request's key, and readers have caught up. */
  predicate NewKey(c: Catalog, key: Id) {
    Standing(c) && c.visible == Current(c) && key !in c.transactions && key !in c.staged
  }

  lemma NewKeyIsUnseen(world: World, home: Id, c: Catalog, key: Id)
    requires Inv(world, home, c) && NewKey(c, key)
    ensures FindReceipt(Pinned(c).objects, key) == Ok(None) && forall f :: Receipt(f) in Pinned(c).objects ==> f.key != key
    ensures Pinned(c).frontier == |c.audit| && ReplayEntry(c.audit, key) == Ok(None)
  {
    assert SnapshotOk(home, c.audit, c.history[0], Pinned(c));
    forall f | Receipt(f) in Pinned(c).objects
      ensures f.key != key
    {
      ReceiptHasOutcome(world, home, c, Pinned(c), f);
    }
    ReceiptIsFound(world, home, c, Pinned(c), key);
    forall q | 0 <= q < |c.audit|
      ensures c.audit[q].key != key
    {
      assert Outcomes(c.audit[q], c.transactions);
    }
    NoEntry(c.audit, key);
  }

  lemma NewKeyCommits(c: Catalog, key: Id, p: Proposal)
    requires NewKey(c, key) && p.basis == Current(c)
    ensures Commit(c, key, p, NoFault).1 == Ok(p.fields.position)
  {
  }

  /** What an operation is answered that was granted its mutation. */
  function Grant(r: Request, choice: Choice): Answer {
    if r.action.Revoke? then Answer(r.target, None) else Answer(choice.principal, Some(choice.secret))
  }

  /** The operation runs alone and undisturbed under a new key. */
  ghost predicate Unhindered(world: World, home: Id, c: Catalog, r: Request, who: Option<Id>, choice: Choice) {
    && Inv(world, home, c) && NewKey(c, r.key) && Admissible(r) && who == Subject(home, r)
    && (r.action.Create? ==> TenantScoped(r.scope)) && choice.fault.NoFault?
    && (r.action.Revoke? || Fresh(System(c, map[], map[]), choice.principal))
  }

  ghost predicate Granted(world: World, c: Catalog, r: Request, who: Option<Id>, choice: Choice)
    requires Standing(c)
  {
    Grantable(world, r, who, RingOf(Pinned(c).objects, who), Pinned(c).frontier, choice)
  }

  ghost predicate AnswersGrant(world: World, c: Catalog, r: Request, who: Option<Id>, choice: Choice, outcome: Result<Answer, Failure>)
    requires Standing(c)
  {
    if Granted(world, c, r, who, choice) then outcome == Ok(Grant(r, choice)) else outcome.Err?
  }

  lemma GrantsAtCommit(world: World, home: Id, c: Catalog, r: Request, who: Option<Id>, choice: Choice)
    requires Unhindered(world, home, c, r, who, choice)
    ensures AnswersGrant(world, c, r, who, choice, Alone(world, c, r, Committing(who, c.visible), NoFault, choice).1)
  {
    var s := Pinned(c);
    PinnedIsKeyed(world, home, c);
    NewKeyIsUnseen(world, home, c, r.key);
    assert r.action.Revoke? || Unheard(RingOf(c.history[c.visible].objects, who), choice.principal);
    ProposesExactly(world, home, s, c.visible, r, who, choice);
    var proposed := Propose(world, s, c.visible, r, who, choice);
    if proposed.Ok? {
      GrantedPrincipal(world, home, s, c.visible, r, who, choice);
    }
    NewKeyAnswers(world, c, r, who, choice);
  }

  /** Under a new key a commit answers what its proposal says. */
  lemma NewKeyAnswers(world: World, c: Catalog, r: Request, who: Option<Id>, choice: Choice)
    requires NewKey(c, r.key) && choice.fault.NoFault?
    ensures var proposed := Propose(world, Pinned(c), c.visible, r, who, choice);
            var outcome := Alone(world, c, r, Committing(who, c.visible), NoFault, choice).1;
            if proposed.Err? then outcome.Err?
            else proposed.value.basis == c.visible ==>
              outcome == Ok(Answer(proposed.value.fields.principal, if r.action.Revoke? then None else Some(choice.secret)))
  {
    CommitDescends(world, c, r, who, c.visible, choice);
    var proposed := Propose(world, Pinned(c), c.visible, r, who, choice);
    if proposed.Ok? && proposed.value.basis == c.visible {
      NewKeyCommits(c, r.key, proposed.value);
    }
  }

  lemma GrantedPrincipal(world: World, home: Id, s: Snapshot, basis: nat, r: Request, who: Option<Id>, choice: Choice)
    requires Keyed(s.objects, home) && Propose(world, s, basis, r, who, choice).Ok?
    ensures Propose(world, s, basis, r, who, choice).value.fields.principal == Grant(r, choice).principal
    ensures Propose(world, s, basis, r, who, choice).value.basis == basis
  {
    var ring := RingOf(s.objects, who);
    ReadsTheRing(s, home, who);
    var generation, change, o := ProposalChain(world, s, basis, r, who, choice, ring);
    ChangePrincipal(world, r, generation, ring, choice);
  }

  lemma ChangePrincipal(world: World, r: Request, generation: Generation, ring: Ring, choice: Choice)
    requires ChangeRing(world, r, generation, ring, choice).Ok?
    ensures ChangeRing(world, r, generation, ring, choice).value.principal == Grant(r, choice).principal
  {
  }

  lemma GrantsAtResume(world: World, home: Id, c: Catalog, r: Request, who: Option<Id>, choice: Choice)
    requires Unhindered(world, home, c, r, who, choice)
    ensures AnswersGrant(world, c, r, who, choice, Alone(world, c, r, Resuming(who, c.visible), NoFault, choice).1)
  {
    PinnedIsKeyed(world, home, c);
    NothingToResume(world, home, c, r, who);
    AloneResumes(world, c, r, who, c.visible, NoFault, choice);
    if TryResume(world, c, r, who, c.visible, NoFault).1.Committing? {
      GrantsAtCommit(world, home, c, r, who, choice);
    }
  }

  lemma NothingToResume(world: World, home: Id, c: Catalog, r: Request, who: Option<Id>)
    requires NewKey(c, r.key) && Keyed(Pinned(c).objects, home) && (r.action.Create? ==> TenantScoped(r.scope))
    ensures var q := TryResume(world, c, r, who, c.visible, NoFault);
            if r.action.Create? || HasTarget(RingOf(Pinned(c).objects, who), r.target) then q == (c, Committing(who, c.visible))
            else q.1.Done? && q.1.outcome.Err?
  {
    var ring := RingOf(Pinned(c).objects, who);
    ReadsTheRing(Pinned(c), home, who);
    RingsAreValid(Pinned(c).objects, home, who);
    TargetIsFound(ring, r.target);
  }

  lemma GrantsAtAudit(world: World, home: Id, c: Catalog, r: Request, who: Option<Id>, choice: Choice)
    requires Unhindered(world, home, c, r, who, choice)
    ensures AnswersGrant(world, c, r, who, choice, Alone(world, c, r, Auditing(who, c.visible, false), NoFault, choice).1)
  {
    PinnedIsKeyed(world, home, c);
    NewKeyIsUnseen(world, home, c, r.key);
    AuditPasses(world, home, c, r, who);
    AloneAudits(world, c, r, who, c.visible, false, NoFault, choice);
    if who.None? && r.action.Revoke? {
      GrantsAtCommit(world, home, c, r, who, choice);
    } else {
      GrantsAtResume(world, home, c, r, who, choice);
    }
  }

  lemma AuditPasses(world: World, home: Id, c: Catalog, r: Request, who: Option<Id>)
    requires Standing(c) && Keyed(Pinned(c).objects, home)
    requires Pinned(c).frontier == |c.audit| && ReplayEntry(c.audit, r.key) == Ok(None)
    ensures Audit(world, c, r, who, c.visible, false)
            == if who.None? && r.action.Revoke? then Committing(who, c.visible) else Resuming(who, c.visible)
  {
    ReadsTheRing(Pinned(c), home, who);
    assert c.audit[..Pinned(c).frontier] == c.audit;
  }

  lemma GrantsAtLook(world: World, home: Id, c: Catalog, r: Request, who: Option<Id>, choice: Choice)
    requires Unhindered(world, home, c, r, who, choice)
    ensures AnswersGrant(world, c, r, who, choice, Alone(world, c, r, Looking(who, c.visible, false), NoFault, choice).1)
  {
    PinnedIsKeyed(world, home, c);
    NewKeyIsUnseen(world, home, c, r.key);
    AloneLooks(world, c, r, who, c.visible, false, NoFault, choice);
    LookPasses(world, home, c, r, who);
    GrantsAtAudit(world, home, c, r, who, choice);
  }

  lemma LookPasses(world: World, home: Id, c: Catalog, r: Request, who: Option<Id>)
    requires Standing(c) && Keyed(Pinned(c).objects, home) && FindReceipt(Pinned(c).objects, r.key) == Ok(None)
    ensures Look(world, c, r, who, c.visible, false) == Auditing(who, c.visible, false)
  {
    ReadsTheRing(Pinned(c), home, who);
  }

  /** Under a new key an operation that runs alone and uninterrupted succeeds if and only if it is admitted, its
      generation is current and can be followed, the audit chain has room, there is a target where it needs one, and
      room and material for a credential where it adds one; and then it returns the new principal and its secret. */
  lemma SucceedsExactly(world: World, home: Id, c: Catalog, r: Request, choice: Choice)
    requires Inv(world, home, c) && NewKey(c, r.key) && Admissible(r) && choice.fault.NoFault?
    requires r.action.Revoke? || Fresh(System(c, map[], map[]), choice.principal)
    ensures var outcome := Alone(world, c, r, Start, NoFault, choice).1;
            if Admitted(world, home, c, r) && Granted(world, c, r, Subject(home, r), choice) then outcome == Ok(Grant(r, choice))
            else outcome.Err?
  {
    PinnedIsKeyed(world, home, c);
    BeginsAlone(world, home, c, r, NoFault, choice);
    if Admitted(world, home, c, r) {
      GrantsAtLook(world, home, c, r, Subject(home, r), choice);
    }
  }
}
