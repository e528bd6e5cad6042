/** Every proposal the operations make over a good snapshot is sound. */
module ApiKeyProposals {
  import opened Prelude
  import opened ApiKeys
  import opened ApiKeyCatalog
  import opened ApiKeyProtocol
  import opened ApiKeyInvariant

  lemma ReadsTheRing(s: Snapshot, home: Id, who: Option<Id>)
    requires Keyed(s.objects, home)
    ensures ReadRing(s, who) == Ok(RingOf(s.objects, who))
  {
    LookupsSucceed(s.objects, home, if who.Some? then who.value else home);
  }

  /** No credential of the ring has this principal. */
  predicate Unheard(ring: Ring, principal: Id) {
    forall i :: 0 <= i < |ring.credentials| ==> ring.credentials[i].principal != principal
  }

  ghost predicate Exactly(before: Ring, r: Request, change: Change) {
    if r.action.Revoke? then
      exists i: nat :: Deactivates(before.credentials, change.ring.credentials, i, r.target)
    else
      && |change.ring.credentials| == |before.credentials| + 1
      && change.ring.credentials[..|before.credentials|] == before.credentials
      && var added := change.ring.credentials[|before.credentials|];
         added.principal == change.principal && added.active && added.scope == change.scope && added.expiry == change.expiry
  }

  /** The changed ring is valid, keeps every credential, and shows the change. */
  ghost predicate GoodChange(before: Ring, r: Request, change: Change) {
    && Exactly(before, r, change)
    && ValidRing(change.ring) && change.ring.generation == before.generation + 1
    && |change.ring.credentials| >= 1
    && RingKept(before, change.ring)
    && 1 <= change.scope <= 3 && change.expiry != Some(0)
    && Holds(change.ring, change.principal, change.scope, change.expiry)
    && (r.action.Rotate? ==> Holds(change.ring, r.target, change.scope, change.expiry) && change.target == r.target)
    && (r.action.Revoke? ==> change.principal == change.target == r.target && Revoked(change.ring, r.target))
    && (OneAdministrator(before.credentials) ==> OneAdministrator(change.ring.credentials))
  }

  lemma AddingIsGood(world: World, r: Request, generation: Generation, ring: Ring, choice: Choice)
    requires ValidRing(ring) && generation == ring.generation + 1 && !r.action.Revoke? && r.expiry != Some(0)
    requires Unheard(ring, choice.principal) && ChangeRing(world, r, generation, ring, choice).Ok?
    ensures GoodChange(ring, r, ChangeRing(world, r, generation, ring, choice).value)
    ensures ChangeRing(world, r, generation, ring, choice).value.principal == choice.principal
  {
    var change := ChangeRing(world, r, generation, ring, choice).value;
    var n := |ring.credentials|;
    assert change.ring.credentials[..n] == ring.credentials;
    assert change.ring.credentials[n].principal == choice.principal;
    forall i | 0 <= i < n
      ensures CredentialKept(ring.credentials[i], change.ring.credentials[i])
    {
    }
    if r.action.Rotate? {
      var i := FindTarget(ring, r.target).value;
      assert change.ring.credentials[i] == ring.credentials[i];
    }
    if OneAdministrator(ring.credentials) {
      var i :| 0 <= i < |ring.credentials| && AdministratorAt(ring.credentials, i);
      assert AdministratorAt(change.ring.credentials, i);
    }
  }

  lemma RevokingIsGood(world: World, r: Request, generation: Generation, ring: Ring, choice: Choice)
    requires ValidRing(ring) && generation == ring.generation + 1 && r.action.Revoke?
    requires ChangeRing(world, r, generation, ring, choice).Ok?
    ensures GoodChange(ring, r, ChangeRing(world, r, generation, ring, choice).value)
  {
    var change := ChangeRing(world, r, generation, ring, choice).value;
    var i := FindTarget(ring, r.target).value;
    assert change.ring.credentials[i] == ring.credentials[i].(active := false);
    assert Deactivates(ring.credentials, change.ring.credentials, i, r.target);
    assert ValidCredential(ring.credentials[i]);
    if OneAdministrator(ring.credentials) {
      var j :| 0 <= j < |ring.credentials| && AdministratorAt(ring.credentials, j);
      assert AdministratorAt(change.ring.credentials, j);
    }
  }

  /** What a proposal is made of, part by part. */
  lemma ProposalChain(world: World, s: Snapshot, basis: nat, r: Request, who: Option<Id>, choice: Choice, ring: Ring)
    returns (generation: Generation, change: Change, o: Object)
    requires ReadRing(s, who) == Ok(ring) && Propose(world, s, basis, r, who, choice).Ok?
    ensures NextGeneration(r, who, ring.generation) == Ok(generation)
    ensures ChangeRing(world, r, generation, ring, choice) == Ok(change)
    ensures Replacement(s, who, change.ring) == Ok(o) && s.frontier < U64_MAX
    ensures Propose(world, s, basis, r, who, choice) == ProposalOf(s, basis, FieldsOf(world, s, r, who, generation, change), o)
  {
    generation := NextGeneration(r, who, ring.generation).value;
    change := ChangeRing(world, r, generation, ring, choice).value;
    o := Replacement(s, who, change.ring).value;
  }

  lemma ReplacementIs(home: Id, s: Snapshot, who: Option<Id>, ring: Ring, o: Object)
    requires Keyed(s.objects, home) && Replacement(s, who, ring) == Ok(o)
    ensures o.ring == ring && if who.None? then o.Governance? && o.tenant == home else o.Keyring? && o.tenant == who.value
  {
    LookupsSucceed(s.objects, home, home);
  }

  /** What a proposal over a good snapshot is made of. */
  lemma ProposalParts(world: World, home: Id, s: Snapshot, basis: nat, r: Request, who: Option<Id>, choice: Choice)
    returns (generation: Generation, change: Change, o: Object)
    requires Keyed(s.objects, home) && Propose(world, s, basis, r, who, choice).Ok?
    ensures var ring := RingOf(s.objects, who);
            && generation == ring.generation + 1 && r.expected == ring.generation
            && ChangeRing(world, r, generation, ring, choice) == Ok(change)
            && (if who.None? then o.Governance? && o.tenant == home else o.Keyring? && o.tenant == who.value)
            && o.ring == change.ring && s.frontier < U64_MAX
    ensures var p := Propose(world, s, basis, r, who, choice).value;
            && p.objects == WithoutRing(s.objects, who) + {o, Receipt(p.fields)} && ValidReceipt(p.fields)
            && p.basis == basis && p.fields == FieldsOf(world, s, r, who, generation, change)
  {
    ReadsTheRing(s, home, who);
    generation, change, o := ProposalChain(world, s, basis, r, who, choice, RingOf(s.objects, who));
    ReplacementIs(home, s, who, change.ring, o);
  }

  lemma ChangesAreGood(world: World, r: Request, generation: Generation, ring: Ring, choice: Choice)
    requires ValidRing(ring) && generation == ring.generation + 1 && r.expiry != Some(0)
    requires r.action.Revoke? || Unheard(ring, choice.principal)
    requires ChangeRing(world, r, generation, ring, choice).Ok?
    ensures GoodChange(ring, r, ChangeRing(world, r, generation, ring, choice).value)
    ensures !r.action.Revoke? ==> ChangeRing(world, r, generation, ring, choice).value.principal == choice.principal
  {
    if r.action.Revoke? {
      RevokingIsGood(world, r, generation, ring, choice);
    } else {
      AddingIsGood(world, r, generation, ring, choice);
    }
  }

  /** Whatever an operation proposes over a keyed snapshot may be published over it. */
  lemma ProposalsAreSound(world: World, home: Id, s: Snapshot, basis: nat, r: Request, who: Option<Id>, choice: Choice)
    requires Keyed(s.objects, home) && who != Some(home) && r.expiry != Some(0)
    requires r.action.Revoke? || Unheard(RingOf(s.objects, who), choice.principal)
    requires Propose(world, s, basis, r, who, choice).Ok?
    ensures var p := Propose(world, s, basis, r, who, choice).value;
            && p.basis == basis && Sound(world, home, s, r.key, p)
            && p.fields.tenant == who && p.fields.action == r.action && p.fields.key == r.key
            && (!r.action.Revoke? ==> p.fields.principal == choice.principal)
  {
    var generation, change, o := ProposalParts(world, home, s, basis, r, who, choice);
    RingsAreValid(s.objects, home, who);
    ChangesAreGood(world, r, generation, RingOf(s.objects, who), choice);
    var p := Propose(world, s, basis, r, who, choice).value;
    assert Succeeds(home, s, p.fields, o);
  }

  /** The credential a creation or rotation hands a secret for: its hash is the sealed secret. */
  ghost predicate Vouched(world: World, ring: Ring, principal: Id, secret: Word) {
    exists i :: 0 <= i < |ring.credentials| && ring.credentials[i].principal == principal
                && ring.credentials[i].hash == world.seal(ring.credentials[i].salt, secret)
  }

  lemma VouchedStays(world: World, before: Ring, after: Ring, principal: Id, secret: Word)
    requires RingKept(before, after) && Vouched(world, before, principal, secret)
    ensures Vouched(world, after, principal, secret)
  {
    var i :| 0 <= i < |before.credentials| && before.credentials[i].principal == principal
             && before.credentials[i].hash == world.seal(before.credentials[i].salt, secret);
    assert CredentialKept(before.credentials[i], after.credentials[i]);
  }
}
