/** What every publication keeps true of the Catalog. */
module ApiKeyInvariant {
  import opened Prelude
  import opened ApiKeys
  import opened ApiKeyCatalog
  import opened ApiKeyProtocol

  /** Fields a mutation may leave behind: a readable receipt, bound to its request by its digest, about a
      tenant-scoped credential. */
  ghost predicate ProperFields(world: World, home: Id, f: Fields) {
    && ValidReceipt(f) && 1 <= f.scope <= 3 && f.expiry != Some(0) && f.tenant != Some(home)
    && f.digest == DigestOf(world, BindingOf(f))
  }

  /** An audit record at index `p` names its own position and key. */
  ghost predicate RecordOk(world: World, home: Id, audit: seq<Record>, p: nat)
    requires p < |audit|
  {
    audit[p].body.ApiKey? ==>
      && audit[p].body.fields.position == p + 1
      && audit[p].body.fields.key == audit[p].key
      && ProperFields(world, home, audit[p].body.fields)
  }

  /** The audit chain records these fields within its first `frontier` records. */
  ghost predicate Recorded(audit: seq<Record>, frontier: nat, f: Fields) {
    1 <= f.position <= frontier && f.position <= |audit| && audit[f.position - 1].body == ApiKey(f)
  }

  /** The receipts of a snapshot are exactly those of the audit records before its frontier. */
  ghost predicate ReceiptsAgree(audit: seq<Record>, s: Snapshot) {
    forall f :: Receipt(f) in s.objects <==> Recorded(audit, s.frontier, f)
  }

  ghost predicate Holds(ring: Ring, principal: Id, scope: Byte, expiry: Option<U64>) {
    exists i :: 0 <= i < |ring.credentials| && ring.credentials[i].principal == principal
                && ring.credentials[i].scope == scope && ring.credentials[i].expiry == expiry
  }

  ghost predicate Revoked(ring: Ring, principal: Id) {
    exists i :: 0 <= i < |ring.credentials| && ring.credentials[i].principal == principal && !ring.credentials[i].active
  }

  /** The ring shows what the mutation did: its credential is there, a rotation's successor has the scope
      and expiry of its predecessor, and a revoked credential is inactive. */
  ghost predicate Enacted(ring: Ring, f: Fields) {
    && Holds(ring, f.principal, f.scope, f.expiry)
    && (f.action.Rotate? ==> Holds(ring, f.target, f.scope, f.expiry))
    && (f.action.Revoke? ==> f.principal == f.target && Revoked(ring, f.target))
  }

  lemma EnactedStays(before: Ring, after: Ring, f: Fields)
    requires RingKept(before, after) && Enacted(before, f)
    ensures Enacted(after, f)
  {
    HoldsStays(before, after, f.principal, f.scope, f.expiry);
    if f.action.Rotate? {
      HoldsStays(before, after, f.target, f.scope, f.expiry);
    }
    if f.action.Revoke? {
      var i :| 0 <= i < |before.credentials| && before.credentials[i].principal == f.target && !before.credentials[i].active;
      assert CredentialKept(before.credentials[i], after.credentials[i]);
    }
  }

  lemma HoldsStays(before: Ring, after: Ring, principal: Id, scope: Byte, expiry: Option<U64>)
    requires RingKept(before, after) && Holds(before, principal, scope, expiry)
    ensures Holds(after, principal, scope, expiry)
  {
    var i :| 0 <= i < |before.credentials| && before.credentials[i].principal == principal
             && before.credentials[i].scope == scope && before.credentials[i].expiry == expiry;
    assert CredentialKept(before.credentials[i], after.credentials[i]);
  }

  ghost predicate AllEnacted(audit: seq<Record>, s: Snapshot) {
    forall f :: Recorded(audit, s.frontier, f) ==> Enacted(RingOf(s.objects, f.tenant), f)
  }

  /** The number of mutations of one tenant's keys in the audit chain. */
  ghost function Mutations(audit: seq<Record>, who: Option<Id>): nat {
    if audit == [] then 0
    else
      var last := audit[|audit| - 1];
      Mutations(audit[..|audit| - 1], who) + if last.body.ApiKey? && last.body.fields.tenant == who then 1 else 0
  }

  /** Every tenant's generation is the one it began with plus the number of its mutations. */
  ghost predicate Counted(audit: seq<Record>, origin: Snapshot, s: Snapshot) {
    && s.frontier <= |audit|
    && forall who :: RingOf(s.objects, who).generation == RingOf(origin.objects, who).generation + Mutations(audit[..s.frontier], who)
  }

  ghost predicate SnapshotOk(home: Id, audit: seq<Record>, origin: Snapshot, s: Snapshot) {
    && Keyed(s.objects, home)
    && ReceiptsAgree(audit, s)
    && AllEnacted(audit, s)
    && Counted(audit, origin, s)
  }

  /** Everything a later snapshot keeps of an earlier one: each ring, and each receipt byte for byte. */
  ghost predicate SnapshotKept(before: Snapshot, after: Snapshot) {
    && before.frontier <= after.frontier
    && (forall who :: RingKept(RingOf(before.objects, who), RingOf(after.objects, who)))
    && (forall f :: Receipt(f) in before.objects ==> Receipt(f) in after.objects)
  }

  lemma SnapshotKeptTransitive(a: Snapshot, b: Snapshot, c: Snapshot)
    requires SnapshotKept(a, b) && SnapshotKept(b, c)
    ensures SnapshotKept(a, c)
  {
    forall who
      ensures RingKept(RingOf(a.objects, who), RingOf(c.objects, who))
    {
      RingKeptTransitive(RingOf(a.objects, who), RingOf(b.objects, who), RingOf(c.objects, who));
    }
  }

  /** The whole difference a mutation makes to its ring: one active credential appended, or one credential
      deactivated where it stands. A rotation leaves its predecessor as it was. */
  ghost predicate ExactChange(before: Ring, after: Ring, f: Fields) {
    && after.generation == before.generation + 1
    && if f.action.Revoke? then
         exists i: nat :: Deactivates(before.credentials, after.credentials, i, f.target)
       else
         && |after.credentials| == |before.credentials| + 1
         && after.credentials[..|before.credentials|] == before.credentials
         && var added := after.credentials[|before.credentials|];
            added.principal == f.principal && added.active && added.scope == f.scope && added.expiry == f.expiry
  }

  ghost predicate Deactivates(before: seq<Credential>, after: seq<Credential>, i: nat, principal: Id) {
    && i < |before| && before[i].principal == principal && before[i].active
    && after == before[i := before[i].(active := false)]
  }

  /** How one generation leads to the next: an API-key record changes the one ring it names, exactly;
      anything else changes no ring. */
  ghost predicate Stepped(audit: seq<Record>, a: Snapshot, b: Snapshot) {
    if a.frontier < b.frontier && a.frontier < |audit| && audit[a.frontier].body.ApiKey? then
      var f := audit[a.frontier].body.fields;
      && ExactChange(RingOf(a.objects, f.tenant), RingOf(b.objects, f.tenant), f)
      && forall who :: who != f.tenant ==> RingOf(b.objects, who) == RingOf(a.objects, who)
    else
      forall who :: RingOf(b.objects, who) == RingOf(a.objects, who)
  }

  /** The replaced ring is a valid successor of the one before it. */
  ghost predicate Succeeds(home: Id, before: Snapshot, f: Fields, o: Object) {
    && match f.tenant {
       case None => o.Governance? && o.tenant == home && ReadableGovernance(o)
       case Some(tenant) => o.Keyring? && o.tenant == tenant && ReadableKeyring(o)
       }
    && o.ring.generation == f.generation == RingOf(before.objects, f.tenant).generation + 1
    && RingKept(RingOf(before.objects, f.tenant), o.ring)
    && ExactChange(RingOf(before.objects, f.tenant), o.ring, f)
    && Enacted(o.ring, f)
  }

  /** A proposal that may be published over `s`. */
  ghost predicate Sound(world: World, home: Id, s: Snapshot, key: Id, p: Proposal) {
    && ProperFields(world, home, p.fields) && p.fields.key == key && p.fields.position == s.frontier + 1
    && exists o :: Succeeds(home, s, p.fields, o)
                   && p.objects == WithoutRing(s.objects, p.fields.tenant) + {o, Receipt(p.fields)}
  }

  ghost predicate StagedOk(world: World, home: Id, c: Catalog, key: Id)
    requires key in c.staged
  {
    (c.staged[key].Written? || c.staged[key].Complete?) ==>
      var p := c.staged[key].p;
      && p.basis < |c.history| && Sound(world, home, c.history[p.basis], key, p)
      && (key in c.transactions ==> p.basis < |c.history| - 1)
  }

  ghost predicate OutcomeOk(c: Catalog, key: Id)
    requires key in c.transactions
  {
    c.transactions[key].Published? ==>
      Recorded(c.audit, |c.audit|, c.transactions[key].fields) && c.transactions[key].fields.key == key
  }

  ghost predicate KeysDistinct(audit: seq<Record>) {
    forall p, q :: 0 <= p < q < |audit| ==> audit[p].key != audit[q].key
  }

  /** The part of the invariant that speaks of the audit chain. */
  ghost predicate AuditOk(world: World, home: Id, audit: seq<Record>, transactions: map<Id, Outcome>) {
    && (forall p :: 0 <= p < |audit| ==> RecordOk(world, home, audit, p))
    && KeysDistinct(audit)
    && (forall p {:trigger Outcomes(audit[p], transactions)} :: 0 <= p < |audit| ==> Outcomes(audit[p], transactions))
  }

  /** A recorded transaction has an outcome, and an API-key one its own. */
  ghost predicate Outcomes(r: Record, transactions: map<Id, Outcome>) {
    && r.key in transactions
    && (r.body.ApiKey? ==> transactions[r.key].Published? && transactions[r.key].fields == r.body.fields)
  }

  ghost predicate AllOk(home: Id, audit: seq<Record>, history: seq<Snapshot>) {
    forall i {:trigger SnapshotOk(home, audit, history[0], history[i])} ::
      0 <= i < |history| ==> SnapshotOk(home, audit, history[0], history[i])
  }

  ghost predicate AllKept(history: seq<Snapshot>) {
    forall i, j {:trigger SnapshotKept(history[i], history[j])} ::
      0 <= i <= j < |history| ==> SnapshotKept(history[i], history[j])
  }

  ghost predicate SteppedAt(audit: seq<Record>, history: seq<Snapshot>, i: nat) {
    i + 1 < |history| ==> history[i].frontier <= history[i + 1].frontier <= |audit| && Stepped(audit, history[i], history[i + 1])
  }

  ghost predicate AllStepped(audit: seq<Record>, history: seq<Snapshot>) {
    forall i: nat {:trigger SteppedAt(audit, history, i)} :: SteppedAt(audit, history, i)
  }

  /** The part of the invariant that speaks of snapshots. */
  ghost predicate HistoryOk(home: Id, audit: seq<Record>, history: seq<Snapshot>) {
    AllOk(home, audit, history) && AllKept(history) && AllStepped(audit, history)
  }

  ghost predicate TransactionsOk(world: World, home: Id, c: Catalog) {
    && (forall key :: key in c.transactions ==> OutcomeOk(c, key))
    && (forall key :: key in c.staged ==> StagedOk(world, home, c, key))
  }

  ghost predicate Inv(world: World, home: Id, c: Catalog) {
    && Standing(c)
    && c.history[Current(c)].frontier == |c.audit|
    && AuditOk(world, home, c.audit, c.transactions)
    && HistoryOk(home, c.audit, c.history)
    && TransactionsOk(world, home, c)
  }
}
