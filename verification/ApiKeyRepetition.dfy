/** An operation run alone, and what its repetition answers. */
module ApiKeyRepetition {
  import opened Prelude
  import opened ApiKeys
  import opened ApiKeyDigest
  import opened ApiKeyCatalog
  import opened ApiKeyProtocol
  import opened ApiKeyProgress
  import opened ApiKeyInvariant
  import opened ApiKeyPublication
  import opened ApiKeyRuns
  import opened ApiKeySafety
  import opened ApiKeyReplay
  import opened ApiKeyAdministration

  /** The receipt that answers a repetition of this request is visible. */
  ghost predicate Settled(c: Catalog, r: Request, who: Option<Id>, principal: Id)
    requires Standing(c)
  {
    exists f :: Receipt(f) in Pinned(c).objects && f.key == r.key && SameRequest(r, who, f) && f.principal == principal
  }

  /** A default-tenant operation recognises a complete transaction staged under its key by its digest and compares
      everything but the tenant, so a tenant's transaction must not collide with it. */
  predicate Recognisable(world: World, c: Catalog, r: Request, who: Option<Id>) {
    who.None? && r.key in c.staged && c.staged[r.key].Complete? ==>
      var f := c.staged[r.key].p.fields;
      f.tenant.None? || Separates(world, BindingOf(f), BindingAs(r, None, f.scope, f.expiry))
  }

  /** The operation runs alone with fresh material; an interrupted attempt may be staged under its key. */
  ghost predicate Undisturbed(world: World, home: Id, c: Catalog, r: Request, phase: Phase, principal: Id) {
    && Inv(world, home, c) && PhaseOk(home, c, r, phase) && Admissible(r)
    && Fresh(System(c, map[], map[]), principal)
    && (phase.Looking? || phase.Auditing? || phase.Resuming? ==> Recognisable(world, c, r, phase.who))
  }

  lemma CommitSettles(world: World, home: Id, c: Catalog, r: Request, who: Option<Id>, basis: nat, resumed: Fault, choice: Choice)
    requires Undisturbed(world, home, c, r, Committing(who, basis), choice.principal)
    ensures var q := Alone(world, c, r, Committing(who, basis), resumed, choice);
            q.1.Ok? ==> Settled(q.0, r, who, q.1.value.principal)
  {
    CommitDescends(world, c, r, who, basis, choice);
    var q := TryCommit(world, c, r, who, basis, choice);
    if q.1.outcome.Ok? {
      AcknowledgedIsVisible(world, home, System(c, map[], map[]), r, who, basis, choice);
    }
  }

  /** Where a resume step leads. */
  lemma ResumeSteps(world: World, c: Catalog, r: Request, who: Option<Id>, basis: nat, fault: Fault)
    requires Standing(c) && basis < |c.history|
    ensures var q := TryResume(world, c, r, who, basis, fault);
            || (q.1 == Committing(who, basis) && q.0 == Recovered(c))
            || (q.1 == Repinning(who) && who.Some?)
            || (q.1.Done? && (q.1.outcome.Ok? ==> who.None?))
  {
    ResumesBeforeCommit(world, c, r, who, basis, fault);
    ResumeDescends(world, c, r, who, basis, fault);
  }

  /** A resumed transaction is visible under a proper receipt. */
  lemma ResumedIsVisible(world: World, home: Id, c: Catalog, key: Id, digest: Word, fault: Fault)
    requires Inv(world, home, c)
    requires Resume(c, key, digest, fault).1.Ok? && Resume(c, key, digest, fault).1.value.Resumed?
    ensures var q := Resume(c, key, digest, fault);
            var f := q.1.value.fields;
            && Inv(world, home, q.0) && Receipt(f) in Pinned(q.0).objects && f.key == key
            && ProperFields(world, home, f)
  {
    ResumedCase(c, key, digest, fault);
    ResumeKeeps(world, home, c, key, digest, fault);
    assert StagedOk(world, home, c, key);
    PublishedIsVisible(world, home, Resume(c, key, digest, fault).0, key);
  }

  /** A default-tenant operation takes a resumed transaction for its own only when it is. */
  lemma OwnIsSame(world: World, home: Id, r: Request, ring: Ring, digest: Word, f: Fields)
    requires RequestDigest(world, r, None, ring) == Ok(digest) && ResumedOwn(world, r, ring, digest, f)
    requires ProperFields(world, home, f) && f.key == r.key
    requires f.tenant.None? || Separates(world, BindingOf(f), BindingAs(r, None, f.scope, f.expiry))
    ensures SameRequest(r, None, f)
  {
    ScopesRoundTrip(f.scope, r.scope);
    OwnIsBound(world, r, ring, digest, f);
    PreimageInjective(BindingOf(f), BindingAs(r, None, f.scope, f.expiry));
  }

  lemma DefaultResumeSettles(world: World, home: Id, c: Catalog, r: Request, basis: nat, fault: Fault)
    requires Inv(world, home, c) && basis < |c.history| && Recognisable(world, c, r, None)
    requires var o := TryResume(world, c, r, None, basis, fault).1; o.Done? && o.outcome.Ok?
    ensures var q := TryResume(world, c, r, None, basis, fault); Settled(q.0, r, None, q.1.outcome.value.principal)
  {
    var ring := ReadRing(c.history[basis], None).value;
    var digest := RequestDigest(world, r, None, ring).value;
    var result := Resume(c, r.key, digest, fault).1;
    assert result.Ok? && result.value.Resumed?;
    ResumedCase(c, r.key, digest, fault);
    ResumedIsVisible(world, home, c, r.key, digest, fault);
    OwnIsSame(world, home, r, ring, digest, result.value.fields);
  }

  /** Looking again after a tenant's resume finds the resumed transaction's receipt, which decides. */
  lemma RepinSettles(world: World, home: Id, c: Catalog, r: Request, who: Option<Id>, f: Fields, resumed: Fault, choice: Choice)
    requires Inv(world, home, c) && Receipt(f) in Pinned(c).objects && f.key == r.key
    ensures var q := Alone(world, c, r, Repinning(who), resumed, choice);
            q.1.Ok? ==> Settled(q.0, r, who, q.1.value.principal)
  {
    AloneRepins(world, c, r, who, resumed, choice);
    LookFindsReceipt(world, home, c, r, who, c.visible, true, f);
    AloneLooks(world, c, r, who, c.visible, true, resumed, choice);
  }

  lemma TenantResumeSettles(world: World, home: Id, c: Catalog, r: Request, who: Option<Id>, basis: nat, resumed: Fault,
                            choice: Choice)
    requires Inv(world, home, c) && basis < |c.history| && TryResume(world, c, r, who, basis, resumed).1 == Repinning(who)
    ensures var d := TryResume(world, c, r, who, basis, resumed).0;
            var q := Alone(world, d, r, Repinning(who), resumed, choice);
            q.1.Ok? ==> Settled(q.0, r, who, q.1.value.principal)
  {
    var ring := ReadRing(c.history[basis], who).value;
    var digest := RequestDigest(world, r, who, ring).value;
    var q := Resume(c, r.key, digest, resumed);
    assert q.1.Ok? && q.1.value.Resumed?;
    ResumedIsVisible(world, home, c, r.key, digest, resumed);
    RepinSettles(world, home, q.0, r, who, q.1.value.fields, resumed, choice);
  }

  lemma ResumeSettles(world: World, home: Id, c: Catalog, r: Request, who: Option<Id>, basis: nat, resumed: Fault, choice: Choice)
    requires Undisturbed(world, home, c, r, Resuming(who, basis), choice.principal)
    ensures var q := Alone(world, c, r, Resuming(who, basis), resumed, choice);
            q.1.Ok? ==> Settled(q.0, r, who, q.1.value.principal)
  {
    var q := TryResume(world, c, r, who, basis, resumed);
    AloneResumes(world, c, r, who, basis, resumed, choice);
    ResumeSteps(world, c, r, who, basis, resumed);
    if q.1.Committing? {
      RecoveredKeeps(world, home, c);
      CommitSettles(world, home, q.0, r, who, basis, resumed, choice);
    } else if q.1.Repinning? {
      TenantResumeSettles(world, home, c, r, who, basis, resumed, choice);
    } else if q.1.outcome.Ok? {
      DefaultResumeSettles(world, home, c, r, basis, resumed);
    }
  }

  /** Without a receipt in sight the audit chain answers nothing. */
  lemma AuditIsSilent(world: World, home: Id, c: Catalog, r: Request, who: Option<Id>, basis: nat)
    requires Inv(world, home, c) && basis < |c.history| && FindReceipt(Pinned(c).objects, r.key) == Ok(None)
    ensures var q := Audit(world, c, r, who, basis, false);
            || (q.Done? && q.outcome.Err?) || q == Committing(who, basis) || q == Resuming(who, basis)
  {
    var s := Pinned(c);
    assert SnapshotOk(home, c.audit, c.history[0], s);
    EntryHasReceipt(world, home, c, s, r.key);
    ReceiptIsFound(world, home, c, s, r.key);
  }

  lemma AuditSettles(world: World, home: Id, c: Catalog, r: Request, who: Option<Id>, basis: nat, resumed: Fault, choice: Choice)
    requires Undisturbed(world, home, c, r, Auditing(who, basis, false), choice.principal)
    requires FindReceipt(Pinned(c).objects, r.key) == Ok(None)
    ensures var q := Alone(world, c, r, Auditing(who, basis, false), resumed, choice);
            q.1.Ok? ==> Settled(q.0, r, who, q.1.value.principal)
  {
    AuditIsSilent(world, home, c, r, who, basis);
    AloneAudits(world, c, r, who, basis, false, resumed, choice);
    var q := Audit(world, c, r, who, basis, false);
    if q.Committing? {
      CommitSettles(world, home, c, r, who, basis, resumed, choice);
    } else if q.Resuming? {
      ResumeSettles(world, home, c, r, who, basis, resumed, choice);
    }
  }

  /** What a lookup in the visible generation leads to. */
  lemma LookCases(world: World, c: Catalog, r: Request, who: Option<Id>)
    requires Standing(c)
    ensures var next := Look(world, c, r, who, c.visible, false);
            || (next.Done? && next.outcome.Err?)
            || (next.Done? && next.outcome.Ok? && Settled(c, r, who, next.outcome.value.principal))
            || (next == Auditing(who, c.visible, false) && FindReceipt(Pinned(c).objects, r.key) == Ok(None))
  {
    var found := FindReceipt(Pinned(c).objects, r.key);
    if found.Ok? && found.value.Some? {
      var f := found.value.value;
      assert Receipt(f) in Pinned(c).objects && f.key == r.key;
    }
  }

  lemma LookSettles(world: World, home: Id, c: Catalog, r: Request, who: Option<Id>, resumed: Fault, choice: Choice)
    requires Undisturbed(world, home, c, r, Looking(who, c.visible, false), choice.principal)
    ensures var q := Alone(world, c, r, Looking(who, c.visible, false), resumed, choice);
            q.1.Ok? ==> Settled(q.0, r, who, q.1.value.principal)
  {
    AloneLooks(world, c, r, who, c.visible, false, resumed, choice);
    LookCases(world, c, r, who);
    if Look(world, c, r, who, c.visible, false).Auditing? {
      AuditSettles(world, home, c, r, who, c.visible, resumed, choice);
    }
  }

  /** How an operation gets from its start to its first lookup. */
  lemma BeginsAlone(world: World, home: Id, c: Catalog, r: Request, resumed: Fault, choice: Choice)
    requires Standing(c) && Keyed(Pinned(c).objects, home)
    ensures var q := Alone(world, c, r, Start, resumed, choice);
            if Admitted(world, home, c, r) then
              q == Alone(world, c, r, Looking(Subject(home, r), c.visible, false), resumed, choice)
            else q.0 == c && q.1.Err?
  {
    FirstPhase(world, home, c, r);
    var first := Begin(world, c, r, r.forTenant);
    assert Alone(world, c, r, Start, resumed, choice) == Alone(world, c, r, first, resumed, choice);
    if first.Redirected? {
      RedirectedPhase(world, home, c, r);
      assert Alone(world, c, r, first, resumed, choice) == Alone(world, c, r, Begin(world, c, r, false), resumed, choice);
    }
  }

  /** After a success, whether it committed, resumed an interrupted attempt or found a receipt, repeating the
      request changes nothing and returns the same principal without a secret, as long as its tenant is registered. */
  lemma RepetitionIsIdempotent(world: World, home: Id, c: Catalog, r: Request, resumed: Fault, choice: Choice, later: Fault,
                               other: Choice)
    requires Inv(world, home, c) && Admissible(r) && Fresh(System(c, map[], map[]), choice.principal)
    requires Recognisable(world, c, r, Subject(home, r))
    requires Alone(world, c, r, Start, resumed, choice).1.Ok?
    requires var d := Alone(world, c, r, Start, resumed, choice).0;
             Subject(home, r).Some? ==> Subject(home, r).value in Pinned(d).registered
    ensures var q := Alone(world, c, r, Start, resumed, choice);
            Alone(world, q.0, r, Start, later, other) == (q.0, Ok(Answer(q.1.value.principal, None)))
  {
    var (d, outcome) := Alone(world, c, r, Start, resumed, choice);
    PinnedIsKeyed(world, home, c);
    BeginsAlone(world, home, c, r, resumed, choice);
    LookSettles(world, home, c, r, Subject(home, r), resumed, choice);
    assert Inv(world, home, d) by {
      AloneIsOk(world, home, System(c, map[], map[]), 0, Thread(r, Start), resumed, choice);
    }
    SettledIsRepeated(world, home, d, r, outcome.value.principal, later, other);
  }

  lemma SettledIsRepeated(world: World, home: Id, d: Catalog, r: Request, principal: Id, later: Fault, other: Choice)
    requires Inv(world, home, d) && Settled(d, r, Subject(home, r), principal) && Admitted(world, home, d, r)
    ensures Alone(world, d, r, Start, later, other) == (d, Ok(Answer(principal, None)))
  {
    var f :| Receipt(f) in Pinned(d).objects && f.key == r.key && SameRequest(r, Subject(home, r), f) && f.principal == principal;
    ReceiptIsRepeated(world, home, d, r, f, later, other);
  }

  /** The condition is exact: a default-tenant operation that resumes a tenant's transaction under a colliding digest
      succeeds, and its repetition is a conflict. */
  lemma CollisionIsAConflict(world: World, home: Id, c: Catalog, r: Request, basis: nat, fault: Fault, later: Fault, other: Choice)
    requires Inv(world, home, c) && basis < |c.history| && Subject(home, r).None?
    requires var o := TryResume(world, c, r, None, basis, fault).1; o.Done? && o.outcome.Ok?
    requires Admitted(world, home, TryResume(world, c, r, None, basis, fault).0, r)
    requires r.key in c.staged && c.staged[r.key].Complete? && c.staged[r.key].p.fields.tenant.Some?
    ensures var d := TryResume(world, c, r, None, basis, fault).0;
            Alone(world, d, r, Start, later, other) == (d, Err(IdempotencyConflict))
  {
    var ring := ReadRing(c.history[basis], None).value;
    var digest := RequestDigest(world, r, None, ring).value;
    var q := Resume(c, r.key, digest, fault);
    ResumedCase(c, r.key, digest, fault);
    ResumedIsVisible(world, home, c, r.key, digest, fault);
    ReceiptIsRepeated(world, home, q.0, r, q.1.value.fields, later, other);
  }

  /** Under a visible receipt, an admitted operation run alone changes nothing and answers from it. */
  lemma ReceiptIsRepeated(world: World, home: Id, d: Catalog, r: Request, f: Fields, later: Fault, other: Choice)
    requires Inv(world, home, d) && Receipt(f) in Pinned(d).objects && f.key == r.key && Admitted(world, home, d, r)
    ensures Alone(world, d, r, Start, later, other) == (d, Replayed(r, Subject(home, r), f))
  {
    LookFindsReceipt(world, home, d, r, Subject(home, r), d.visible, false, f);
    AloneLooks(world, d, r, Subject(home, r), d.visible, false, later, other);
    PinnedIsKeyed(world, home, d);
    BeginsAlone(world, home, d, r, later, other);
  }
}
