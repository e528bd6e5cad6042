/** The six API-key operations, one Catalog interaction at a time. */
module ApiKeyProtocol {
  import opened Prelude
  import opened ApiKeys
  import opened ApiKeyDigest
  import opened ApiKeyCatalog

  /** The administrator every operation is checked against, the digest function, and the salted secret hash. */
  datatype World = World(administrator: Id, digest: Bytes -> Word, seal: (Word, Word) -> Word)

  datatype Actor = Actor(principal: Id, scope: Scope, tenant: Option<Id>)

  /** A request to one of the six operations. A creation ignores `target`; a rotation or revocation
      ignores `scope` and `expiry`. */
  datatype Request = Request(action: Action, forTenant: bool, tenant: Option<Id>, actor: Actor, scope: Scope,
                             expiry: Option<U64>, target: Id, expected: Generation, key: Id)

  datatype Answer = Answer(principal: Id, secret: Option<Word>)

  /** Where an operation stands. `who` is the tenant it works on, `None` for the default tenant, and
      `basis` the generation it will commit against; `again` marks the lookup after a resumed transaction. */
  datatype Phase =
    | Start
    | Redirected
    | Looking(who: Option<Id>, basis: nat, again: bool)
    | Auditing(who: Option<Id>, basis: nat, again: bool)
    | Resuming(who: Option<Id>, basis: nat)
    | Repinning(who: Option<Id>)
    | Committing(who: Option<Id>, basis: nat)
    | Done(outcome: Result<Answer, Failure>)

  /** Fresh random material, and where the step is interrupted. */
  datatype Choice = Choice(principal: Id, salt: Word, secret: Word, fault: Fault)

  predicate Authorizes(world: World, actor: Actor) {
    actor.principal == world.administrator && actor.scope.SystemAdministration? && actor.tenant.None?
  }

  function DigestOf(world: World, b: Binding): Word {
    world.digest(Preimage(b))
  }

  function BoundTarget(action: Action, target: Id): Option<Id> {
    if action.Create? then None else Some(target)
  }

  /** The binding a receipt or an audit record stands for. */
  function BindingOf(f: Fields): Binding {
    Binding(f.action, f.tenant, f.key, f.actor, BoundTarget(f.action, f.target), f.scope, f.expiry, f.expected)
  }

  /** The binding of a request under a scope and expiry: its own for a creation, its target's otherwise. */
  function BindingAs(r: Request, who: Option<Id>, scope: Byte, expiry: Option<U64>): Binding {
    Binding(r.action, who, r.key, r.actor.principal, BoundTarget(r.action, r.target), scope, expiry, r.expected)
  }

  /** The digest does not take one of these bindings for the other. */
  predicate Separates(world: World, a: Binding, b: Binding) {
    DigestOf(world, a) == DigestOf(world, b) ==> Preimage(a) == Preimage(b)
  }

  /** The tenant an operation works on: naming the default tenant means the default tenant. */
  function Subject(home: Id, r: Request): Option<Id> {
    if r.forTenant && r.tenant != Some(home) then r.tenant else None
  }

  predicate TenantScoped(scope: Scope) {
    !scope.SystemAdministration?
  }

  /** Whether a receipt is the receipt of this very request. */
  predicate Matches(world: World, r: Request, who: Option<Id>, f: Fields) {
    && f.tenant == who && f.action == r.action && f.actor == r.actor.principal && f.expected == r.expected
    && (r.action.Create? ==> Some(f.scope) == ScopeCode(r.scope) && f.expiry == r.expiry)
    && (!r.action.Create? ==> f.target == r.target)
    && f.digest == DigestOf(world, BindingAs(r, who, f.scope, f.expiry))
  }

  /** The active, tenant-scoped credential a rotation or revocation names. */
  predicate IsTarget(ring: Ring, principal: Id, i: nat) {
    && i < |ring.credentials| && ring.credentials[i].principal == principal && ring.credentials[i].active
    && ring.credentials[i].scope != 4
    && forall j :: 0 <= j < i ==> !(ring.credentials[j].principal == principal && ring.credentials[j].active
                                    && ring.credentials[j].scope != 4)
  }

  function FindTarget(ring: Ring, principal: Id): Result<nat, Failure> {
    if exists i :: 0 <= i < |ring.credentials| && IsTarget(ring, principal, i) then
      var i :| 0 <= i < |ring.credentials| && IsTarget(ring, principal, i); Ok(i)
    else Err(CredentialUnavailable)
  }

  /** The ring an operation reads from a snapshot. */
  function ReadRing(s: Snapshot, who: Option<Id>): Result<Ring, Failure> {
    match who
    case None => var g :- FindGovernance(s.objects); Ok(g.ring)
    case Some(tenant) => var k :- FindKeyring(s.objects, tenant); Ok(if k.Some? then k.value else Ring(1, []))
  }

  /** The request's digest: a rotation or revocation binds the scope and expiry of its target. */
  function RequestDigest(world: World, r: Request, who: Option<Id>, ring: Ring): Result<Word, Failure> {
    if r.action.Create? then
      if ScopeCode(r.scope).None? then Err(Unauthorized)
      else Ok(DigestOf(world, BindingAs(r, who, ScopeCode(r.scope).value, r.expiry)))
    else
      var i :- FindTarget(ring, r.target);
      Ok(DigestOf(world, BindingAs(r, who, ring.credentials[i].scope, ring.credentials[i].expiry)))
  }

  predicate Denied(world: World, r: Request, forTenant: bool) {
    || !Authorizes(world, r.actor)
    || (r.action.Create? && !TenantScoped(r.scope))
    || (forTenant && r.tenant.None?)
    || (!forTenant && r.action.Rotate? && r.tenant.Some?)
  }

  /** Pins the generation to commit against and decides whose keys are meant. */
  function Begin(world: World, c: Catalog, r: Request, forTenant: bool): Phase
    requires Standing(c)
  {
    var s := Pinned(c);
    if Denied(world, r, forTenant) then Done(Err(Unauthorized))
    else if FindGovernance(s.objects).Err? then Done(Err(FindGovernance(s.objects).error))
    else if !forTenant then Looking(None, c.visible, false)
    else if r.tenant.value == FindGovernance(s.objects).value.tenant then Redirected
    else if r.tenant.value !in s.registered then Done(Err(CredentialUnavailable))
    else if !r.action.Create? && ReadRing(s, r.tenant).Err? then Done(Err(ReadRing(s, r.tenant).error))
    else Looking(r.tenant, c.visible, false)
  }

  /** The snapshot searched for a receipt: a tenant's creation searches the one it pinned first. */
  function LookedIn(c: Catalog, r: Request, who: Option<Id>, basis: nat): Snapshot
    requires Standing(c) && basis < |c.history|
  {
    if who.Some? && r.action.Create? then c.history[basis] else Pinned(c)
  }

  /** Receipt-first replay: a receipt under the key answers the request or refuses it. */
  function Look(world: World, c: Catalog, r: Request, who: Option<Id>, basis: nat, again: bool): (q: Phase)
    requires Standing(c) && basis < |c.history|
    ensures q.Done? || q == Auditing(who, basis, again)
  {
    var s := LookedIn(c, r, who, basis);
    match FindReceipt(s.objects, r.key)
    case Err(e) => Done(Err(e))
    case Ok(Some(f)) =>
      if Matches(world, r, who, f) then Done(Ok(Answer(f.principal, None))) else Done(Err(IdempotencyConflict))
    case Ok(None) =>
      if who.Some? && r.action.Create? && ReadRing(s, who).Err? then Done(Err(ReadRing(s, who).error))
      else Auditing(who, basis, again)
  }

  /** The last audit record under the key, which must be an API-key record. */
  function ReplayEntry(records: seq<Record>, key: Id): Result<Option<Fields>, Failure> {
    if records == [] then Ok(None)
    else
      var earlier :- ReplayEntry(records[..|records| - 1], key);
      var last := records[|records| - 1];
      if last.key != key then Ok(earlier)
      else if last.body.Foreign? then Err(IdempotencyConflict)
      else Ok(Some(last.body.fields))
  }

  /** What an audit record without a receipt says about a request. */
  function AuditAnswer(world: World, r: Request, who: Option<Id>, f: Fields, ring: Ring): Result<Option<Answer>, Failure> {
    var answer: Result<Option<Answer>, Failure> := Ok(Some(Answer(f.principal, None)));
    if f.action != r.action || f.actor != r.actor.principal || f.expected != r.expected then Err(IdempotencyConflict)
    else
      match r.action
      case Create =>
        var published := exists c :: c in ring.credentials && c.principal == f.principal
                                     && Some(c.scope) == ScopeCode(r.scope) && c.expiry == r.expiry;
        if ScopeFromCode(f.scope) != Some(r.scope) || f.expiry != r.expiry then Err(IdempotencyConflict)
        else if who.None? && f.digest != DigestOf(world, BindingAs(r, who, f.scope, f.expiry)) then Err(IdempotencyConflict)
        else if published then answer
        else if who.None? then Ok(None)
        else Err(PersistenceUnavailable)
      case Rotate =>
        if f.target != r.target then Err(IdempotencyConflict)
        else if who.None? && f.digest != DigestOf(world, BindingAs(r, who, f.scope, f.expiry)) then Err(IdempotencyConflict)
        else if who.Some? && forall c :: c in ring.credentials ==> c.principal != f.principal then Err(IdempotencyConflict)
        else answer
      case Revoke =>
        if f.target != r.target then Err(IdempotencyConflict)
        else if who.Some? && forall c :: c in ring.credentials ==> c.principal != r.target || c.active then
          Err(IdempotencyConflict)
        else answer
  }

  /** The fallback to the audit chain. */
  function Audit(world: World, c: Catalog, r: Request, who: Option<Id>, basis: nat, again: bool): (q: Phase)
    requires Standing(c) && basis < |c.history|
    ensures q.Done? || (!again && (q == Committing(who, basis) || q == Resuming(who, basis)))
  {
    var ring := ReadRing(c.history[basis], who);
    var frontier := Pinned(c).frontier;
    var entry := ReplayEntry(if frontier <= |c.audit| then c.audit[..frontier] else c.audit, r.key);
    if ring.Err? then Done(Err(ring.error))
    else if entry.Err? then Done(Err(entry.error))
    else
      var answer: Result<Option<Answer>, Failure> :=
        if entry.value.None? then Ok(None) else AuditAnswer(world, r, who, entry.value.value, ring.value);
      match answer
      case Err(e) => Done(Err(e))
      case Ok(Some(a)) => Done(Ok(a))
      case Ok(None) =>
        if again then Done(Err(IdempotencyConflict))
        else if who.None? && r.action.Revoke? then Committing(who, basis)
        else Resuming(who, basis)
  }

  /** Whether a resumed transaction of the default tenant is the request's own. */
  predicate ResumedOwn(world: World, r: Request, ring: Ring, digest: Word, f: Fields) {
    && f.action == r.action && f.actor == r.actor.principal && f.expected == r.expected && f.digest == digest
    && (r.action.Create? ==> ScopeFromCode(f.scope) == Some(r.scope) && f.expiry == r.expiry)
    && (!r.action.Create? ==>
          f.target == r.target && exists i :: 0 <= i < |ring.credentials| && IsTarget(ring, r.target, i) && ring.credentials[i].scope == f.scope
                                              && ring.credentials[i].expiry == f.expiry)
  }

  /** Where an operation goes after trying to resume. */
  function AfterResume(world: World, r: Request, who: Option<Id>, basis: nat, ring: Ring, digest: Word,
                             result: Result<Resolution, Failure>): (q: Phase)
    ensures q.Done? || q == Committing(who, basis) || (q == Repinning(who) && who.Some?)
  {
    match result
    case Err(e) => Done(Err(e))
    case Ok(Absent) => Committing(who, basis)
    case Ok(Unavailable) => Done(Err(PersistenceUnavailable))
    case Ok(Resumed(f)) =>
      if who.Some? then Repinning(who)
      else if ResumedOwn(world, r, ring, digest, f) then Done(Ok(Answer(f.principal, None)))
      else Done(Err(IdempotencyConflict))
  }

  /** Resolves a transaction under the digest of the request, and goes on from there. */
  function ResumeUnder(world: World, c: Catalog, r: Request, who: Option<Id>, basis: nat, ring: Ring,
                       digest: Result<Word, Failure>, fault: Fault): (q: (Catalog, Phase))
    requires Standing(c)
    ensures Standing(q.0) && |c.history| <= |q.0.history|
    ensures q.1.Done? || q.1 == Committing(who, basis) || (q.1 == Repinning(who) && who.Some?)
  {
    if digest.Err? then (c, Done(Err(digest.error)))
    else
      var (after, result) := Resume(c, r.key, digest.value, fault);
      (after, AfterResume(world, r, who, basis, ring, digest.value, result))
  }

  /** Resolves a transaction that was prepared under the key but never published. */
  function TryResume(world: World, c: Catalog, r: Request, who: Option<Id>, basis: nat, fault: Fault): (q: (Catalog, Phase))
    requires Standing(c) && basis < |c.history|
    ensures Standing(q.0) && |c.history| <= |q.0.history|
    ensures q.1.Done? || q.1 == Committing(who, basis) || (q.1 == Repinning(who) && who.Some?)
  {
    var ring := ReadRing(c.history[basis], who);
    if ring.Err? then (c, Done(Err(ring.error)))
    else ResumeUnder(world, c, r, who, basis, ring.value, RequestDigest(world, r, who, ring.value), fault)
  }

  /** The pin after a tenant's transaction was resumed. */
  function Repin(c: Catalog, r: Request, who: Option<Id>): Phase
    requires Standing(c)
  {
    if !r.action.Create? && ReadRing(Pinned(c), who).Err? then Done(Err(ReadRing(Pinned(c), who).error))
    else Looking(who, c.visible, true)
  }

  function NextGeneration(r: Request, who: Option<Id>, current: U64): Result<Generation, Failure> {
    var full := if who.Some? && r.action.Create? then PersistenceUnavailable else CapacityExceeded;
    if current != r.expected then Err(StaleGeneration)
    else if r.expected == U64_MAX then Err(full)
    else Ok(r.expected + 1)
  }

  /** The credential that changes and the ring after the change. */
  datatype Change = Change(ring: Ring, principal: Id, target: Id, scope: Byte, expiry: Option<U64>)

  /** A creation or rotation appends a fresh credential; a revocation deactivates its target in place. */
  function ChangeRing(world: World, r: Request, generation: Generation, ring: Ring, choice: Choice): Result<Change, Failure> {
    if r.action.Revoke? then
      var i :- FindTarget(ring, r.target);
      var target := ring.credentials[i];
      Ok(Change(Ring(generation, ring.credentials[i := target.(active := false)]), r.target, r.target, target.scope,
                target.expiry))
    else
      var i :- if r.action.Rotate? then FindTarget(ring, r.target) else Ok(0);
      if |ring.credentials| >= MAX_CREDENTIALS then Err(CapacityExceeded)
      else
        var hash := world.seal(choice.salt, choice.secret);
        if choice.salt == 0 || hash == 0 then Err(PersistenceUnavailable)
        else if r.action.Create? && ScopeCode(r.scope).None? then Err(Unauthorized)
        else
          var scope := if r.action.Create? then ScopeCode(r.scope).value else ring.credentials[i].scope;
          var expiry := if r.action.Create? then r.expiry else ring.credentials[i].expiry;
          var added := Credential(choice.principal, scope, true, expiry, choice.salt, hash);
          var target := if r.action.Create? then choice.principal else r.target;
          Ok(Change(Ring(generation, ring.credentials + [added]), choice.principal, target, scope, expiry))
  }

  /** The object set without the ring that is being replaced. */
  function WithoutRing(objects: set<Object>, who: Option<Id>): set<Object> {
    match who
    case None => set o | o in objects && !o.Governance?
    case Some(tenant) => set o | o in objects && !(o.Keyring? && o.tenant == tenant)
  }

  /** The replacement ring, refused when its encoder would refuse it. */
  function Replacement(s: Snapshot, who: Option<Id>, ring: Ring): Result<Object, Failure> {
    match who
    case None =>
      var g :- FindGovernance(s.objects);
      if 1 <= |ring.credentials| <= MAX_CREDENTIALS && OneAdministrator(ring.credentials) && DistinctPrincipals(ring.credentials)
      then Ok(Governance(g.tenant, ring, g.rest)) else Err(PersistenceUnavailable)
    case Some(tenant) =>
      if 1 <= |ring.credentials| <= MAX_CREDENTIALS then Ok(Keyring(tenant, ring)) else Err(CredentialUnavailable)
  }

  /** The fields a change leaves behind, bound to the request by their digest. */
  function FieldsOf(world: World, s: Snapshot, r: Request, who: Option<Id>, generation: Generation, change: Change): Fields
    requires s.frontier < U64_MAX
  {
    Fields(r.key, r.actor.principal, who, r.action, change.scope, change.expiry, r.expected, generation,
           change.principal, change.target, s.frontier + 1,
           DigestOf(world, BindingAs(r, who, change.scope, change.expiry)))
  }

  /** The objects of the snapshot with the ring replaced and the receipt added. */
  function ProposalOf(s: Snapshot, basis: nat, fields: Fields, replacement: Object): Result<Proposal, Failure> {
    var kept := WithoutRing(s.objects, fields.tenant);
    if !ValidReceipt(fields) || replacement in kept || Receipt(fields) in kept then Err(PersistenceUnavailable)
    else Ok(Proposal(basis, kept + {replacement, Receipt(fields)}, fields))
  }

  /** What a change of a ring proposes, where the audit chain has room. */
  function ProposeChange(world: World, s: Snapshot, basis: nat, r: Request, who: Option<Id>, generation: Generation, change: Change):
    Result<Proposal, Failure>
  {
    var replacement :- Replacement(s, who, change.ring);
    if s.frontier == U64_MAX then Err(CapacityExceeded)
    else ProposalOf(s, basis, FieldsOf(world, s, r, who, generation, change), replacement)
  }

  /** The generation, receipt and audit intent a mutation proposes over its pinned snapshot. */
  function Propose(world: World, s: Snapshot, basis: nat, r: Request, who: Option<Id>, choice: Choice):
    Result<Proposal, Failure>
  {
    var ring :- ReadRing(s, who);
    var generation :- NextGeneration(r, who, ring.generation);
    var change :- ChangeRing(world, r, generation, ring, choice);
    ProposeChange(world, s, basis, r, who, generation, change)
  }

  /** Publishes what was proposed, and answers with the credential it is about. */
  function CommitProposed(c: Catalog, r: Request, proposed: Result<Proposal, Failure>, choice: Choice): (q: (Catalog, Phase))
    requires Standing(c)
    ensures Standing(q.0) && |c.history| <= |q.0.history| && q.1.Done?
  {
    match proposed
    case Err(e) => (c, Done(Err(e)))
    case Ok(p) =>
      var (after, result) := Commit(c, r.key, p, choice.fault);
      match result
      case Err(e) => (after, Done(Err(e)))
      case Ok(position) =>
        if position != p.fields.position then (after, Done(Err(PersistenceUnavailable)))
        else (after, Done(Ok(Answer(p.fields.principal, if r.action.Revoke? then None else Some(choice.secret)))))
  }

  function TryCommit(world: World, c: Catalog, r: Request, who: Option<Id>, basis: nat, choice: Choice): (q: (Catalog, Phase))
    requires Standing(c) && basis < |c.history|
    ensures Standing(q.0) && |c.history| <= |q.0.history| && q.1.Done?
  {
    CommitProposed(c, r, Propose(world, c.history[basis], basis, r, who, choice), choice)
  }

  predicate Placed(c: Catalog, phase: Phase) {
    (phase.Looking? || phase.Auditing? || phase.Resuming? || phase.Committing?) ==> phase.basis < |c.history|
  }

  /** One atomic step of one operation. */
  function Next(world: World, c: Catalog, r: Request, phase: Phase, choice: Choice): (q: (Catalog, Phase))
    requires Standing(c) && Placed(c, phase)
    ensures Standing(q.0)
  {
    match phase
    case Start => (c, Begin(world, c, r, r.forTenant))
    case Redirected => (c, Begin(world, c, r, false))
    case Looking(who, basis, again) => (c, Look(world, c, r, who, basis, again))
    case Auditing(who, basis, again) => (c, Audit(world, c, r, who, basis, again))
    case Resuming(who, basis) => TryResume(world, c, r, who, basis, choice.fault)
    case Repinning(who) => (c, Repin(c, r, who))
    case Committing(who, basis) => TryCommit(world, c, r, who, basis, choice)
    case Done(_) => (c, phase)
  }
}
