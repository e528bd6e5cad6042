/** In every run no principal has credentials in two rings. */
module ApiKeyPrincipals {
  import opened Prelude
  import opened ApiKeys
  import opened ApiKeyCatalog
  import opened ApiKeyProtocol
  import opened ApiKeyInvariant
  import opened ApiKeyPublication
  import opened ApiKeyProposals
  import opened ApiKeyRuns

  ghost predicate HeldBy(s: Snapshot, who: Option<Id>, principal: Id) {
    !Unheard(RingOf(s.objects, who), principal)
  }

  /** No principal has credentials in two rings. */
  ghost predicate Apart(s: Snapshot) {
    forall who, other, principal {:trigger HeldBy(s, who, principal), HeldBy(s, other, principal)} ::
      HeldBy(s, who, principal) && HeldBy(s, other, principal) ==> who == other
  }

  /** A mutation is staged under the key that will add a credential when it is published. */
  predicate Pending(c: Catalog, key: Id) {
    key in c.staged && key !in c.transactions && (c.staged[key].Written? || c.staged[key].Complete?)
    && !c.staged[key].p.fields.action.Revoke?
  }

  function PendingPrincipal(c: Catalog, key: Id): Id
    requires Pending(c, key)
  {
    c.staged[key].p.fields.principal
  }

  /** Pending principals were drawn, are in no ring yet, and differ from each other. */
  ghost predicate Reserved(c: Catalog, minted: map<Id, nat>)
    requires Standing(c)
  {
    && (forall key :: Pending(c, key) ==> PendingPrincipal(c, key) in minted)
    && (forall key, who :: Pending(c, key) ==> !HeldBy(c.history[Current(c)], who, PendingPrincipal(c, key)))
    && (forall key, other :: Pending(c, key) && Pending(c, other) && key != other ==>
          PendingPrincipal(c, key) != PendingPrincipal(c, other))
  }

  ghost predicate Tidy(c: Catalog, minted: map<Id, nat>) {
    Standing(c) && Apart(c.history[Current(c)]) && Reserved(c, minted)
  }

  lemma ChangeHolds(before: Ring, after: Ring, f: Fields, principal: Id)
    requires ExactChange(before, after, f)
    ensures f.action.Revoke? ==> (Unheard(after, principal) <==> Unheard(before, principal))
    ensures !f.action.Revoke? ==> (Unheard(after, principal) <==> Unheard(before, principal) && principal != f.principal)
  {
    if f.action.Revoke? {
      var i: nat :| Deactivates(before.credentials, after.credentials, i, f.target);
      assert forall j :: 0 <= j < |before.credentials| ==> after.credentials[j].principal == before.credentials[j].principal;
    } else {
      var n := |before.credentials|;
      assert forall j :: 0 <= j < n ==> after.credentials[j] == after.credentials[..n][j];
    }
  }

  /** What one generation adds to the holders of a principal. */
  lemma StepHolds(audit: seq<Record>, a: Snapshot, b: Snapshot, who: Option<Id>, principal: Id)
    requires Stepped(audit, a, b)
    ensures HeldBy(b, who, principal) ==>
              || HeldBy(a, who, principal)
              || (a.frontier < b.frontier && a.frontier < |audit| && audit[a.frontier].body.ApiKey?
                  && var f := audit[a.frontier].body.fields;
                     !f.action.Revoke? && f.principal == principal && f.tenant == who)
  {
    if a.frontier < b.frontier && a.frontier < |audit| && audit[a.frontier].body.ApiKey? {
      var f := audit[a.frontier].body.fields;
      if f.tenant == who {
        ChangeHolds(RingOf(a.objects, who), RingOf(b.objects, who), f, principal);
      }
    }
  }

  /** A record that adds a principal adds one that no ring holds. */
  ghost predicate AddsNew(audit: seq<Record>, s: Snapshot) {
    s.frontier < |audit| && audit[s.frontier].body.ApiKey? && !audit[s.frontier].body.fields.action.Revoke? ==>
      forall who :: !HeldBy(s, who, audit[s.frontier].body.fields.principal)
  }

  lemma StaysApart(audit: seq<Record>, a: Snapshot, b: Snapshot)
    requires Stepped(audit, a, b) && Apart(a) && AddsNew(audit, a)
    ensures Apart(b)
  {
    forall who, other, principal | HeldBy(b, who, principal) && HeldBy(b, other, principal)
      ensures who == other
    {
      StepHolds(audit, a, b, who, principal);
      StepHolds(audit, a, b, other, principal);
    }
  }

  /** The Catalog has published one generation over the current one, recording at most `p` under `key`. */
  ghost predicate Advanced(c: Catalog, d: Catalog, key: Id) {
    && Standing(c) && Standing(d) && |d.history| == |c.history| + 1 && d.history[..|c.history|] == c.history
    && c.history[Current(c)].frontier == |c.audit| && c.audit <= d.audit && |d.audit| <= |c.audit| + 1
    && d.transactions.Keys == c.transactions.Keys + {key}
    && (forall k :: k in d.staged && k != key ==> k in c.staged && d.staged[k] == c.staged[k])
  }

  lemma AdvancedIsTidy(world: World, home: Id, c: Catalog, d: Catalog, key: Id, minted: map<Id, nat>)
    requires Inv(world, home, d) && Advanced(c, d, key) && Tidy(c, minted) && AddsNew(d.audit, c.history[Current(c)])
    requires |d.audit| > |c.audit| && d.audit[|c.audit|].body.ApiKey? ==>
               forall k :: Pending(c, k) && k != key ==> PendingPrincipal(c, k) != d.audit[|c.audit|].body.fields.principal
    ensures Tidy(d, minted)
  {
    var a, b := c.history[Current(c)], d.history[Current(d)];
    assert SteppedAt(d.audit, d.history, Current(c));
    assert d.history[Current(c)] == d.history[..|c.history|][Current(c)];
    StaysApart(d.audit, a, b);
    StaysReserved(c, d, key, minted);
  }

  lemma StaysReserved(c: Catalog, d: Catalog, key: Id, minted: map<Id, nat>)
    requires Advanced(c, d, key) && Reserved(c, minted)
    requires Stepped(d.audit, c.history[Current(c)], d.history[Current(d)])
    requires |d.audit| > |c.audit| && d.audit[|c.audit|].body.ApiKey? ==>
               forall k :: Pending(c, k) && k != key ==> PendingPrincipal(c, k) != d.audit[|c.audit|].body.fields.principal
    ensures Reserved(d, minted)
  {
    assert forall k :: Pending(d, k) ==> Pending(c, k) && k != key && PendingPrincipal(d, k) == PendingPrincipal(c, k);
    forall k, who | Pending(d, k)
      ensures !HeldBy(d.history[Current(d)], who, PendingPrincipal(d, k))
    {
      StepHolds(d.audit, c.history[Current(c)], d.history[Current(d)], who, PendingPrincipal(d, k));
    }
  }

  /** What a proposal needs for its publication to keep principals apart. */
  ghost predicate Novel(c: Catalog, key: Id, f: Fields)
    requires Standing(c)
  {
    !f.action.Revoke? ==>
      && (forall who :: !HeldBy(c.history[Current(c)], who, f.principal))
      && (forall k :: Pending(c, k) && k != key ==> PendingPrincipal(c, k) != f.principal)
  }

  lemma RecoveredIsTidy(c: Catalog, minted: map<Id, nat>)
    requires Tidy(c, minted)
    ensures Tidy(Recovered(c), minted)
  {
    assert forall k :: Pending(Recovered(c), k) <==> Pending(c, k);
  }

  lemma PublishAdvances(c: Catalog, key: Id, p: Proposal)
    requires Standing(c) && c.history[Current(c)].frontier == |c.audit| && Novel(c, key, p.fields)
    ensures var d := Publish(c, key, p);
            && Advanced(c, d, key) && AddsNew(d.audit, c.history[Current(c)])
            && |d.audit| == |c.audit| + 1 && d.audit[|c.audit|] == Record(key, ApiKey(p.fields))
  {
  }

  lemma PublishedIsTidy(world: World, home: Id, c: Catalog, key: Id, p: Proposal, minted: map<Id, nat>)
    requires Inv(world, home, c) && key !in c.transactions && p.basis == Current(c)
    requires Sound(world, home, c.history[Current(c)], key, p)
    requires Tidy(c, minted) && Novel(c, key, p.fields)
    ensures Tidy(Publish(c, key, p), minted) && Tidy(Recovered(Publish(c, key, p)), minted)
  {
    PublishAdvances(c, key, p);
    if p.fields.action.Revoke? {
      RevokedIsNotPending(world, home, c, key, p);
    }
    assert Inv(world, home, Publish(c, key, p)) by {
      PublishKeeps(world, home, c, key, p);
    }
    AdvancedIsTidy(world, home, c, Publish(c, key, p), key, minted);
    RecoveredIsTidy(Publish(c, key, p), minted);
  }

  /** A revocation's principal is already in a ring, so nothing pending has it. */
  lemma RevokedIsNotPending(world: World, home: Id, c: Catalog, key: Id, p: Proposal)
    requires Standing(c) && Sound(world, home, c.history[Current(c)], key, p) && p.fields.action.Revoke?
    ensures HeldBy(c.history[Current(c)], p.fields.tenant, p.fields.principal)
  {
    var s := c.history[Current(c)];
    var o :| Succeeds(home, s, p.fields, o) && p.objects == WithoutRing(s.objects, p.fields.tenant) + {o, Receipt(p.fields)};
    ChangeHolds(RingOf(s.objects, p.fields.tenant), o.ring, p.fields, p.fields.principal);
  }

  /** An interrupted preparation leaves at most its own principal pending. */
  lemma StagedIsTidy(c: Catalog, key: Id, p: Proposal, fault: Fault, minted: map<Id, nat>)
    requires Tidy(c, minted) && key !in c.transactions && !StagingConflicts(c, key, p) && Novel(c, key, p.fields)
    requires !p.fields.action.Revoke? ==> p.fields.principal in minted
    ensures Tidy(c.(staged := c.staged[key := LeftInStaging(c, key, p, fault)]), minted)
  {
    var d := c.(staged := c.staged[key := LeftInStaging(c, key, p, fault)]);
    assert forall k :: Pending(d, k) && k != key ==> Pending(c, k) && PendingPrincipal(d, k) == PendingPrincipal(c, k);
    assert Pending(d, key) ==> PendingPrincipal(d, key) == p.fields.principal && !p.fields.action.Revoke?;
  }

  lemma RecoveredIsNovel(c: Catalog, key: Id, f: Fields)
    requires Standing(c) && Novel(c, key, f)
    ensures Novel(Recovered(c), key, f)
  {
    assert forall k :: Pending(Recovered(c), k) ==> Pending(c, k) && PendingPrincipal(Recovered(c), k) == PendingPrincipal(c, k);
  }

  lemma CommitIsTidy(world: World, home: Id, c: Catalog, key: Id, p: Proposal, fault: Fault, minted: map<Id, nat>)
    requires Inv(world, home, c) && p.basis < |c.history| && Sound(world, home, c.history[p.basis], key, p)
    requires Tidy(c, minted) && Novel(c, key, p.fields) && (!p.fields.action.Revoke? ==> p.fields.principal in minted)
    ensures Tidy(Commit(c, key, p, fault).0, minted)
  {
    var now, after := Recovered(c), Commit(c, key, p, fault).0;
    RecoveredIsTidy(c, minted);
    if after != c && after != now {
      CommitCases(c, key, p, fault);
      RecoveredIsNovel(c, key, p.fields);
      EffectIsTidy(world, home, c, key, p, fault, minted);
    }
  }

  lemma EffectIsTidy(world: World, home: Id, c: Catalog, key: Id, p: Proposal, fault: Fault, minted: map<Id, nat>)
    requires Inv(world, home, c) && p.basis == Current(c) && Sound(world, home, c.history[p.basis], key, p)
    requires key !in c.transactions && !StagingConflicts(Recovered(c), key, p)
    requires Tidy(Recovered(c), minted) && Novel(Recovered(c), key, p.fields)
    requires !p.fields.action.Revoke? ==> p.fields.principal in minted
    ensures var now := Recovered(c);
            && Tidy(Publish(now, key, p), minted) && Tidy(Recovered(Publish(now, key, p)), minted)
            && Tidy(now.(staged := now.staged[key := LeftInStaging(now, key, p, fault)]), minted)
  {
    var now := Recovered(c);
    assert Inv(world, home, now) by {
      RecoveredKeeps(world, home, c);
    }
    PublishedIsTidy(world, home, now, key, p, minted);
    StagedIsTidy(now, key, p, fault, minted);
  }

  lemma ResumeIsTidy(world: World, home: Id, c: Catalog, key: Id, digest: Word, fault: Fault, minted: map<Id, nat>)
    requires Inv(world, home, c) && Tidy(c, minted)
    ensures Tidy(Resume(c, key, digest, fault).0, minted)
  {
    ResumeCases(c, key, digest, fault);
    RecoveredIsTidy(c, minted);
    RecoveredKeeps(world, home, c);
    var now, after := Recovered(c), Resume(c, key, digest, fault).0;
    if after != c && after != now {
      assert StagedOk(world, home, now, key);
      assert !now.staged[key].p.fields.action.Revoke? ==> Pending(now, key);
      assert Novel(now, key, now.staged[key].p.fields);
      PublishedIsTidy(world, home, now, key, now.staged[key].p, minted);
    }
  }

  lemma ElsewhereIsTidy(world: World, home: Id, c: Catalog, key: Id, objects: set<Object>, registered: set<Id>,
                        intent: Option<Bytes>, acknowledged: bool, minted: map<Id, nat>)
    requires Inv(world, home, c) && ElsewhereAllowed(home, c, key, objects) && Tidy(c, minted)
    ensures Tidy(PublishElsewhere(c, key, objects, registered, intent, acknowledged), minted)
  {
    var d := PublishElsewhere(c, key, objects, registered, intent, acknowledged);
    ElsewhereAppends(c, key, objects, registered, intent, acknowledged);
    AppendedKeeps(world, home, c, d, key, objects, intent);
    AdvancedIsTidy(world, home, c, d, key, minted);
  }

  lemma DrawingIsTidy(c: Catalog, minted: map<Id, nat>, principal: Id, id: nat)
    requires Tidy(c, minted)
    ensures Tidy(c, minted[principal := id])
  {
  }

  /** A principal that is fresh is novel. */
  lemma FreshIsNovel(sys: System, key: Id, f: Fields)
    requires Tidy(sys.catalog, sys.minted) && (f.action.Revoke? || Fresh(sys, f.principal))
    ensures Novel(sys.catalog, key, f)
  {
    if !f.action.Revoke? {
      var s := sys.catalog.history[Current(sys.catalog)];
      forall who
        ensures !HeldBy(s, who, f.principal)
      {
        assert Unheard(RingOf(s.objects, who), f.principal);
      }
    }
  }

  lemma CommitStepIsTidy(world: World, home: Id, sys: System, id: nat, th: Thread, choice: Choice)
    requires Inv(world, home, sys.catalog) && ThreadOk(world, home, sys.catalog, sys.minted, id, th)
    requires Tidy(sys.catalog, sys.minted) && th.phase.Committing? && (Mints(th) ==> Fresh(sys, choice.principal))
    ensures var minted := if Mints(th) then sys.minted[choice.principal := id] else sys.minted;
            Tidy(TryCommit(world, sys.catalog, th.request, th.phase.who, th.phase.basis, choice).0, minted)
  {
    var c, r, who, basis := sys.catalog, th.request, th.phase.who, th.phase.basis;
    var minted := if Mints(th) then sys.minted[choice.principal := id] else sys.minted;
    CommitStepCases(world, c, r, who, basis, choice);
    DrawingIsTidy(c, sys.minted, choice.principal, id);
    var proposed := Propose(world, c.history[basis], basis, r, who, choice);
    if proposed.Ok? {
      assert SnapshotOk(home, c.audit, c.history[0], c.history[basis]);
      ProposalsAreSound(world, home, c.history[basis], basis, r, who, choice);
      FreshIsNovel(sys, r.key, proposed.value.fields);
      CommitIsTidy(world, home, c, r.key, proposed.value, choice.fault, minted);
    }
  }

  lemma ResumeStepIsTidy(world: World, home: Id, c: Catalog, r: Request, who: Option<Id>, basis: nat, fault: Fault,
                         minted: map<Id, nat>)
    requires Inv(world, home, c) && PhaseOk(home, c, r, Resuming(who, basis)) && Tidy(c, minted)
    ensures Tidy(TryResume(world, c, r, who, basis, fault).0, minted)
  {
    var digest := ResumeStepCases(world, home, c, r, who, basis, fault);
    ResumeIsTidy(world, home, c, r.key, digest, fault, minted);
  }

  lemma NextIsTidy(world: World, home: Id, sys: System, id: nat, th: Thread, choice: Choice)
    requires Inv(world, home, sys.catalog) && ThreadOk(world, home, sys.catalog, sys.minted, id, th)
    requires Tidy(sys.catalog, sys.minted) && (Mints(th) ==> Fresh(sys, choice.principal))
    ensures var minted := if Mints(th) then sys.minted[choice.principal := id] else sys.minted;
            Tidy(Next(world, sys.catalog, th.request, th.phase, choice).0, minted)
  {
    var c := sys.catalog;
    if th.phase.Committing? {
      CommitStepIsTidy(world, home, sys, id, th, choice);
    } else if th.phase.Resuming? {
      ResumeStepIsTidy(world, home, c, th.request, th.phase.who, th.phase.basis, choice.fault, sys.minted);
    }
  }

  lemma StepIsTidy(world: World, home: Id, sys: System, id: nat, choice: Choice)
    requires Inv(world, home, sys.catalog) && Tidy(sys.catalog, sys.minted) && id in sys.threads
    requires ThreadOk(world, home, sys.catalog, sys.minted, id, sys.threads[id])
    ensures var after := Apply(world, home, sys, Step(id, choice)); Tidy(after.catalog, after.minted)
  {
    if Mints(sys.threads[id]) ==> Fresh(sys, choice.principal) {
      NextIsTidy(world, home, sys, id, sys.threads[id], choice);
    }
  }

  /** Every event keeps principals apart. */
  lemma EventIsTidy(world: World, home: Id, sys: System, e: Event)
    requires SystemOk(world, home, sys) && Tidy(sys.catalog, sys.minted)
    ensures var after := Apply(world, home, sys, e); Tidy(after.catalog, after.minted)
  {
    match e {
      case Spawn(_, _) =>
      case Step(id, choice) =>
        if id in sys.threads {
          assert ThreadOk(world, home, sys.catalog, sys.minted, id, sys.threads[id]);
          StepIsTidy(world, home, sys, id, choice);
        }
      case Elsewhere(key, objects, registered, intent, acknowledged) =>
        if ElsewhereAllowed(home, sys.catalog, key, objects) {
          ElsewhereIsTidy(world, home, sys.catalog, key, objects, registered, intent, acknowledged, sys.minted);
        }
      case Recover => RecoveredIsTidy(sys.catalog, sys.minted);
    }
  }
}
