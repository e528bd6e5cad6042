/** The entities of API-key administration. */
module ApiKeys {
  import opened Prelude
  import opened BigEndian

  /** A non-zero 16-byte identifier: a principal, a tenant or an idempotency key. */
  type Id = n: nat | 0 < n < POWER_16 witness 1

  /** A 32-byte digest, salt or secret. */
  type Word = n: nat | n < POWER_32

  /** A resource generation is never zero. */
  type Generation = n: U64 | n >= 1 witness 1

  const MAX_CREDENTIALS: nat := 128

  datatype Failure =
    | Unauthorized
    | StaleGeneration
    | IdempotencyConflict
    | CapacityExceeded
    | CredentialUnavailable
    | PersistenceUnavailable

  datatype Action = Create | Rotate | Revoke

  datatype Scope = Ingest | Query | TenantAdministration | SystemAdministration

  function ScopeCode(scope: Scope): Option<Byte> {
    match scope
    case Ingest => Some(1)
    case Query => Some(2)
    case TenantAdministration => Some(3)
    case SystemAdministration => None
  }

  function ScopeFromCode(code: Byte): Option<Scope> {
    match code
    case 1 => Some(Ingest)
    case 2 => Some(Query)
    case 3 => Some(TenantAdministration)
    case 4 => Some(SystemAdministration)
    case _ => None
  }

  datatype Credential = Credential(principal: Id, scope: Byte, active: bool, expiry: Option<U64>, salt: Word, hash: Word)

  /** What the credential constructor admits, and an expiry that survives its zero-for-none encoding. */
  predicate ValidCredential(c: Credential) {
    1 <= c.scope <= 4 && c.salt != 0 && c.hash != 0 && c.expiry != Some(0)
  }

  /** An expiry as an encoding that writes zero for none gives it back. */
  function StoredExpiry(expiry: Option<U64>): Option<U64> {
    if expiry == Some(0) then None else expiry
  }

  function StoredCredential(c: Credential): (r: Credential)
    ensures c.expiry != Some(0) ==> r == c
  {
    c.(expiry := StoredExpiry(c.expiry))
  }

  /** A tenant's credentials under their generation. */
  datatype Ring = Ring(generation: U64, credentials: seq<Credential>)

  predicate DistinctPrincipals(credentials: seq<Credential>) {
    forall i, j :: 0 <= i < j < |credentials| ==> credentials[i].principal != credentials[j].principal
  }

  predicate ValidRing(r: Ring) {
    && r.generation >= 1 && |r.credentials| <= MAX_CREDENTIALS && DistinctPrincipals(r.credentials)
    && forall i :: 0 <= i < |r.credentials| ==> ValidCredential(r.credentials[i])
  }

  /** Exactly one credential of the default tenant administers the system. */
  predicate OneAdministrator(credentials: seq<Credential>) {
    exists i :: 0 <= i < |credentials| && AdministratorAt(credentials, i)
  }

  predicate AdministratorAt(credentials: seq<Credential>, i: nat)
    requires i < |credentials|
  {
    credentials[i].scope == 4 && forall j :: 0 <= j < |credentials| && j != i ==> credentials[j].scope != 4
  }

  /** What a committed mutation leaves behind for replay, and what its audit record binds. */
  datatype Fields = Fields(key: Id, actor: Id, tenant: Option<Id>, action: Action, scope: Byte, expiry: Option<U64>,
                           expected: Generation, generation: Generation, principal: Id, target: Id, position: U64,
                           digest: Word)

  /** A receipt that its decoder accepts. */
  predicate ValidReceipt(f: Fields) {
    f.position != 0 && f.digest != 0 && ScopeFromCode(f.scope).Some? && f.expected + 1 == f.generation
  }

  datatype Object =
    | Governance(tenant: Id, ring: Ring, rest: Bytes)
    | Keyring(tenant: Id, ring: Ring)
    | Receipt(fields: Fields)
    | Other(content: Bytes)

  predicate ReadableGovernance(o: Object) {
    o.Governance? && ValidRing(o.ring) && |o.ring.credentials| >= 1 && OneAdministrator(o.ring.credentials)
  }

  predicate ReadableKeyring(o: Object) {
    o.Keyring? && ValidRing(o.ring) && |o.ring.credentials| >= 1
  }

  /** The sole governance object of a snapshot. */
  function FindGovernance(objects: set<Object>): Result<Object, Failure> {
    if forall o :: o in objects ==> !o.Governance? then Err(StaleGeneration)
    else if exists g :: g in objects && SoleGovernance(objects, g) then
      var g :| g in objects && SoleGovernance(objects, g);
      if ReadableGovernance(g) then Ok(g) else Err(PersistenceUnavailable)
    else Err(PersistenceUnavailable)
  }

  predicate SoleGovernance(objects: set<Object>, g: Object) {
    g in objects && g.Governance? && forall o :: o in objects && o.Governance? ==> o == g
  }

  /** The keyring of a tenant: every keyring must decode, and no tenant may have two. */
  function FindKeyring(objects: set<Object>, tenant: Id): Result<Option<Ring>, Failure> {
    if exists o :: o in objects && o.Keyring? && !ReadableKeyring(o) then Err(PersistenceUnavailable)
    else if forall o :: o in objects && o.Keyring? ==> o.tenant != tenant then Ok(None)
    else if exists k :: k in objects && SoleKeyring(objects, tenant, k) then
      var k :| k in objects && SoleKeyring(objects, tenant, k);
      Ok(Some(k.ring))
    else Err(PersistenceUnavailable)
  }

  predicate SoleKeyring(objects: set<Object>, tenant: Id, k: Object) {
    && k in objects && k.Keyring? && k.tenant == tenant
    && forall o :: o in objects && o.Keyring? && o.tenant == tenant ==> o == k
  }

  /** The receipt of an idempotency key: every receipt must decode, and no key may have two. */
  function FindReceipt(objects: set<Object>, key: Id): Result<Option<Fields>, Failure> {
    if exists o :: o in objects && o.Receipt? && !ValidReceipt(o.fields) then Err(PersistenceUnavailable)
    else if forall o :: o in objects && o.Receipt? ==> o.fields.key != key then Ok(None)
    else if exists r :: r in objects && SoleReceipt(objects, key, r) then
      var r :| r in objects && SoleReceipt(objects, key, r);
      Ok(Some(r.fields))
    else Err(PersistenceUnavailable)
  }

  predicate SoleReceipt(objects: set<Object>, key: Id, r: Object) {
    && r in objects && r.Receipt? && r.fields.key == key
    && forall o :: o in objects && o.Receipt? && o.fields.key == key ==> o == r
  }

  /** A snapshot whose API-key objects can all be found: one governance object for the default tenant,
      and at most one readable keyring for every other tenant. */
  ghost predicate Keyed(objects: set<Object>, home: Id) {
    && (exists g :: SoleGovernance(objects, g) && g.tenant == home && ReadableGovernance(g))
    && (forall o :: o in objects && o.Keyring? ==> ReadableKeyring(o) && o.tenant != home && SoleKeyring(objects, o.tenant, o))
  }

  /** The credentials of the default tenant, or of a provisioned one that may have none yet. */
  ghost function RingOf(objects: set<Object>, who: Option<Id>): Ring {
    match who
    case None => if exists g :: SoleGovernance(objects, g) then (var g :| SoleGovernance(objects, g); g.ring) else Ring(0, [])
    case Some(tenant) =>
      if exists k :: SoleKeyring(objects, tenant, k) then (var k :| SoleKeyring(objects, tenant, k); k.ring) else Ring(1, [])
  }

  /** In a keyed snapshot no lookup of a governance object or a keyring fails. */
  lemma LookupsSucceed(objects: set<Object>, home: Id, tenant: Id)
    requires Keyed(objects, home)
    ensures FindGovernance(objects).Ok? && SoleGovernance(objects, FindGovernance(objects).value)
    ensures FindGovernance(objects).value.tenant == home && FindGovernance(objects).value.ring == RingOf(objects, None)
    ensures FindKeyring(objects, tenant).Ok?
    ensures FindKeyring(objects, tenant).value.Some? ==> FindKeyring(objects, tenant).value.value == RingOf(objects, Some(tenant))
    ensures FindKeyring(objects, tenant).value.None? ==> RingOf(objects, Some(tenant)) == Ring(1, [])
  {
    var g :| SoleGovernance(objects, g) && g.tenant == home && ReadableGovernance(g);
    if k :| k in objects && k.Keyring? && k.tenant == tenant {
      assert SoleKeyring(objects, tenant, k);
    }
  }

  lemma RingsAreValid(objects: set<Object>, home: Id, who: Option<Id>)
    requires Keyed(objects, home)
    ensures ValidRing(RingOf(objects, who))
    ensures who.None? ==> OneAdministrator(RingOf(objects, who).credentials)
  {
    if who.None? {
      LookupsSucceed(objects, home, home);
    } else {
      LookupsSucceed(objects, home, who.value);
    }
  }

  /** No credential is lost, moved, or changed in scope, expiry or secret, and none becomes active again. */
  ghost predicate RingKept(before: Ring, after: Ring) {
    && before.generation <= after.generation
    && |before.credentials| <= |after.credentials|
    && forall i :: 0 <= i < |before.credentials| ==> CredentialKept(before.credentials[i], after.credentials[i])
  }

  predicate CredentialKept(before: Credential, after: Credential) {
    && before.principal == after.principal && before.scope == after.scope && before.expiry == after.expiry
    && before.salt == after.salt && before.hash == after.hash
    && (after.active ==> before.active)
  }

  lemma RingKeptTransitive(a: Ring, b: Ring, c: Ring)
    requires RingKept(a, b) && RingKept(b, c)
    ensures RingKept(a, c)
  {
    forall i | 0 <= i < |a.credentials|
      ensures CredentialKept(a.credentials[i], c.credentials[i])
    {
      assert CredentialKept(a.credentials[i], b.credentials[i]) && CredentialKept(b.credentials[i], c.credentials[i]);
    }
  }
}
