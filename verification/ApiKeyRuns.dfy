/** Runs of any number of administrators, interleaved step by step with faults, recoveries and the
    publications of other administrators. */
module ApiKeyRuns {
  import opened Prelude
  import opened ApiKeys
  import opened ApiKeyCatalog
  import opened ApiKeyProtocol
  import opened ApiKeyInvariant
  import opened ApiKeyPublication
  import opened ApiKeyProposals

  datatype Thread = Thread(request: Request, phase: Phase)

  /** `minted` remembers which operation drew a principal. */
  datatype System = System(catalog: Catalog, threads: map<nat, Thread>, minted: map<Id, nat>)

  datatype Event =
    | Spawn(id: nat, request: Request)
    | Step(id: nat, choice: Choice)
    | Elsewhere(key: Id, objects: set<Object>, registered: set<Id>, intent: Option<Bytes>, acknowledged: bool)
    | Recover

  predicate Mints(th: Thread) {
    th.phase.Committing? && !th.request.action.Revoke?
  }

  /** A principal no ring has held and no operation has drawn. */
  ghost predicate Fresh(sys: System, principal: Id) {
    && principal !in sys.minted
    && forall i, who :: 0 <= i < |sys.catalog.history| ==> Unheard(RingOf(sys.catalog.history[i].objects, who), principal)
  }

  /** The wire layer refuses a zero expiry. */
  predicate Admissible(r: Request) {
    r.expiry != Some(0)
  }

  ghost predicate ElsewhereAllowed(home: Id, c: Catalog, key: Id, objects: set<Object>)
    requires Standing(c)
  {
    && key !in c.transactions && key !in c.staged && c.history[Current(c)].frontier < U64_MAX
    && KeepsKeys(c.history[Current(c)].objects, objects, home)
  }

  /** One event. An event that cannot happen changes nothing. */
  ghost function Apply(world: World, home: Id, sys: System, e: Event): (after: System)
    requires Standing(sys.catalog)
    ensures Standing(after.catalog)
  {
    match e
    case Spawn(id, request) =>
      if id in sys.threads || !Admissible(request) then sys
      else sys.(threads := sys.threads[id := Thread(request, Start)])
    case Step(id, choice) =>
      if id !in sys.threads || !Placed(sys.catalog, sys.threads[id].phase) then sys
      else if Mints(sys.threads[id]) && !Fresh(sys, choice.principal) then sys
      else
        var th := sys.threads[id];
        var (catalog, phase) := Next(world, sys.catalog, th.request, th.phase, choice);
        System(catalog, sys.threads[id := th.(phase := phase)],
               if Mints(th) then sys.minted[choice.principal := id] else sys.minted)
    case Elsewhere(key, objects, registered, intent, acknowledged) =>
      if !ElsewhereAllowed(home, sys.catalog, key, objects) then sys
      else sys.(catalog := PublishElsewhere(sys.catalog, key, objects, registered, intent, acknowledged))
    case Recover => sys.(catalog := Recovered(sys.catalog))
  }

  ghost function Run(world: World, home: Id, sys: System, events: seq<Event>): (after: System)
    requires Standing(sys.catalog)
    ensures Standing(after.catalog)
  {
    if events == [] then sys
    else Apply(world, home, Run(world, home, sys, events[..|events| - 1]), events[|events| - 1])
  }

  /** A Catalog without API-key history and without operations in flight. */
  ghost predicate Initial(home: Id, sys: System) {
    var c := sys.catalog;
    && sys.threads == map[] && sys.minted == map[]
    && |c.history| == 1 && c.visible == 0 && c.history[0].frontier == |c.audit|
    && Keyed(c.history[0].objects, home)
    && (forall o :: o in c.history[0].objects ==> !o.Receipt?)
    && (forall p :: 0 <= p < |c.audit| ==> c.audit[p].body.Foreign? && c.audit[p].key in c.transactions)
    && KeysDistinct(c.audit)
    && (forall k :: k in c.transactions ==> c.transactions[k].PublishedElsewhere?)
    && (forall k :: k in c.staged ==> c.staged[k].Opened? || c.staged[k].OpenedElsewhere?)
  }

  /** The Catalog only grows. */
  ghost predicate Extends(c: Catalog, d: Catalog) {
    && c.history <= d.history && c.audit <= d.audit && c.visible <= d.visible
    && (forall k :: k in c.transactions ==> k in d.transactions && d.transactions[k] == c.transactions[k])
  }

  /** A secret was handed out for the credential that was published under the operation's key, by the
      operation that drew its principal. */
  ghost predicate SecretBacked(world: World, c: Catalog, minted: map<Id, nat>, id: nat, key: Id, answer: Answer)
    requires Standing(c) && answer.secret.Some?
  {
    && answer.principal in minted && minted[answer.principal] == id
    && key in c.transactions && c.transactions[key].Published? && c.transactions[key].fields.principal == answer.principal
    && Vouched(world, RingOf(c.history[Current(c)].objects, c.transactions[key].fields.tenant), answer.principal,
               answer.secret.value)
  }

  /** A success is answered only from a mutation that was published under the key for such a request. */
  ghost predicate AnswerBacked(c: Catalog, r: Request, answer: Answer) {
    && r.key in c.transactions && c.transactions[r.key].Published?
    && Answers(c.transactions[r.key].fields, r) && c.transactions[r.key].fields.principal == answer.principal
  }

  predicate Answers(f: Fields, r: Request) {
    && f.action == r.action && f.actor == r.actor.principal && f.expected == r.expected
    && (r.action.Create? ==> ScopeCode(r.scope) == Some(f.scope) && f.expiry == r.expiry)
    && (!r.action.Create? ==> f.target == r.target)
  }

  ghost predicate Justified(c: Catalog, r: Request, phase: Phase) {
    phase.Done? && phase.outcome.Ok? ==> AnswerBacked(c, r, phase.outcome.value)
  }

  ghost predicate PhaseOk(home: Id, c: Catalog, r: Request, phase: Phase) {
    && Placed(c, phase)
    && (phase.Looking? || phase.Auditing? || phase.Resuming? || phase.Repinning? || phase.Committing? ==>
          phase.who != Some(home) && (phase.who.None? || phase.who == r.tenant))
  }

  ghost predicate ThreadOk(world: World, home: Id, c: Catalog, minted: map<Id, nat>, id: nat, th: Thread)
    requires Standing(c)
  {
    && Admissible(th.request) && PhaseOk(home, c, th.request, th.phase) && Justified(c, th.request, th.phase)
    && (th.phase.Done? && th.phase.outcome.Ok? && th.phase.outcome.value.secret.Some? ==>
          SecretBacked(world, c, minted, id, th.request.key, th.phase.outcome.value))
  }

  ghost predicate SystemOk(world: World, home: Id, sys: System) {
    && Inv(world, home, sys.catalog)
    && forall id :: id in sys.threads ==> ThreadOk(world, home, sys.catalog, sys.minted, id, sys.threads[id])
  }

  lemma InitialIsOk(world: World, home: Id, sys: System)
    requires Initial(home, sys)
    ensures SystemOk(world, home, sys)
  {
    var c := sys.catalog;
    var s := c.history[0];
    forall f: Fields
      ensures Receipt(f) !in s.objects && !Recorded(c.audit, s.frontier, f)
    {
    }
    forall who: Option<Id>
      ensures Mutations(c.audit, who) == 0
    {
      NoMutations(c.audit, who);
    }
    assert c.audit[..s.frontier] == c.audit;
    assert SnapshotOk(home, c.audit, s, s);
    KeptReflexive(s);
  }

  lemma {:induction false} NoMutations(audit: seq<Record>, who: Option<Id>)
    requires forall p :: 0 <= p < |audit| ==> audit[p].body.Foreign?
    ensures Mutations(audit, who) == 0
  {
    if audit != [] {
      NoMutations(audit[..|audit| - 1], who);
    }
  }

  /** What holds of an operation keeps holding while the Catalog grows. */
  lemma ThreadStaysOk(world: World, home: Id, c: Catalog, d: Catalog, minted: map<Id, nat>, later: map<Id, nat>, id: nat, th: Thread)
    requires Standing(c) && Inv(world, home, d) && Extends(c, d)
    requires forall p :: p in minted ==> p in later && later[p] == minted[p]
    requires ThreadOk(world, home, c, minted, id, th)
    ensures ThreadOk(world, home, d, later, id, th)
  {
    if th.phase.Done? && th.phase.outcome.Ok? && th.phase.outcome.value.secret.Some? {
      var answer := th.phase.outcome.value;
      var who := c.transactions[th.request.key].fields.tenant;
      assert d.history[Current(c)] == c.history[Current(c)];
      assert SnapshotKept(d.history[Current(c)], d.history[Current(d)]);
      VouchedStays(world, RingOf(c.history[Current(c)].objects, who), RingOf(d.history[Current(d)].objects, who),
                   answer.principal, answer.secret.value);
    }
  }

  lemma CommitExtends(c: Catalog, key: Id, p: Proposal, fault: Fault)
    requires Standing(c)
    ensures Extends(c, Commit(c, key, p, fault).0)
  {
    CommitCases(c, key, p, fault);
  }

  lemma ResumeExtends(world: World, home: Id, c: Catalog, key: Id, digest: Word, fault: Fault)
    requires Standing(c) && (key in c.staged ==> StagedOk(world, home, c, key))
    ensures Extends(c, Resume(c, key, digest, fault).0)
  {
    ResumeCases(c, key, digest, fault);
  }

  predicate NoSecret(phase: Phase) {
    phase.Done? && phase.outcome.Ok? ==> phase.outcome.value.secret.None?
  }

  lemma PinnedIsKeyed(world: World, home: Id, c: Catalog)
    requires Inv(world, home, c)
    ensures Keyed(Pinned(c).objects, home)
  {
    assert SnapshotOk(home, c.audit, c.history[0], c.history[c.visible]);
  }

  lemma BeginIsOk(world: World, home: Id, c: Catalog, r: Request, forTenant: bool)
    requires Standing(c) && Keyed(Pinned(c).objects, home)
    ensures PhaseOk(home, c, r, Begin(world, c, r, forTenant)) && NoSecret(Begin(world, c, r, forTenant))
  {
    LookupsSucceed(Pinned(c).objects, home, home);
  }

  lemma LookIsOk(world: World, home: Id, c: Catalog, r: Request, who: Option<Id>, basis: nat, again: bool)
    requires Standing(c) && PhaseOk(home, c, r, Looking(who, basis, again))
    ensures var q := Look(world, c, r, who, basis, again); PhaseOk(home, c, r, q) && NoSecret(q)
  {
  }

  /** A receipt in a good snapshot is the receipt of the published outcome. */
  lemma ReceiptHasOutcome(world: World, home: Id, c: Catalog, s: Snapshot, f: Fields)
    requires AuditOk(world, home, c.audit, c.transactions) && ReceiptsAgree(c.audit, s) && Receipt(f) in s.objects
    ensures f.key in c.transactions && c.transactions[f.key].Published? && c.transactions[f.key].fields == f
  {
    assert Recorded(c.audit, s.frontier, f);
    assert RecordOk(world, home, c.audit, f.position - 1) && Outcomes(c.audit[f.position - 1], c.transactions);
  }

  /** A lookup answers only from a receipt of its own tenant and request. */
  lemma LookAnswers(world: World, c: Catalog, r: Request, who: Option<Id>, basis: nat, again: bool) returns (f: Option<Fields>)
    requires Standing(c) && basis < |c.history|
    ensures var q := Look(world, c, r, who, basis, again);
            q.Done? && q.outcome.Ok? ==>
              && f.Some? && Receipt(f.value) in LookedIn(c, r, who, basis).objects && f.value.key == r.key
              && f.value.tenant == who && Answers(f.value, r) && q.outcome.value == Answer(f.value.principal, None)
  {
    var found := FindReceipt(LookedIn(c, r, who, basis).objects, r.key);
    f := if found.Ok? then found.value else None;
  }

  lemma LookIsJustified(world: World, home: Id, c: Catalog, r: Request, who: Option<Id>, basis: nat, again: bool)
    requires Inv(world, home, c) && PhaseOk(home, c, r, Looking(who, basis, again))
    ensures Justified(c, r, Look(world, c, r, who, basis, again))
  {
    var f := LookAnswers(world, c, r, who, basis, again);
    var i := if who.Some? && r.action.Create? then basis else c.visible;
    assert SnapshotOk(home, c.audit, c.history[0], c.history[i]);
    if f.Some? && Receipt(f.value) in c.history[i].objects {
      ReceiptHasOutcome(world, home, c, c.history[i], f.value);
    }
  }

  lemma AuditIsOk(world: World, home: Id, c: Catalog, r: Request, who: Option<Id>, basis: nat, again: bool)
    requires Standing(c) && PhaseOk(home, c, r, Auditing(who, basis, again))
    ensures var q := Audit(world, c, r, who, basis, again); PhaseOk(home, c, r, q) && NoSecret(q)
  {
  }

  lemma {:induction false} EntryIsRecorded(records: seq<Record>, key: Id) returns (p: nat)
    requires ReplayEntry(records, key).Ok? && ReplayEntry(records, key).value.Some?
    ensures p < |records| && records[p] == Record(key, ApiKey(ReplayEntry(records, key).value.value))
  {
    var n := |records| - 1;
    if records[n].key == key {
      p := n;
    } else {
      p := EntryIsRecorded(records[..n], key);
    }
  }

  /** The last record under a key that occurs once is the record. */
  lemma {:induction false} EntryIsFound(records: seq<Record>, key: Id, f: Fields, p: nat)
    requires p < |records| && records[p] == Record(key, ApiKey(f)) && forall q :: 0 <= q < |records| && q != p ==> records[q].key != key
    ensures ReplayEntry(records, key) == Ok(Some(f))
  {
    var n := |records| - 1;
    if p < n {
      EntryIsFound(records[..n], key, f, p);
    } else {
      NoEntry(records[..n], key);
    }
  }

  lemma {:induction false} NoEntry(records: seq<Record>, key: Id)
    requires forall q :: 0 <= q < |records| ==> records[q].key != key
    ensures ReplayEntry(records, key) == Ok(None)
  {
    if records != [] {
      NoEntry(records[..|records| - 1], key);
    }
  }

  lemma AuditIsJustified(world: World, home: Id, c: Catalog, r: Request, who: Option<Id>, basis: nat, again: bool)
    requires Standing(c) && AuditOk(world, home, c.audit, c.transactions) && Pinned(c).frontier <= |c.audit|
    requires PhaseOk(home, c, r, Auditing(who, basis, again))
    ensures Justified(c, r, Audit(world, c, r, who, basis, again))
  {
    var records := c.audit[..Pinned(c).frontier];
    var entry := ReplayEntry(records, r.key);
    if entry.Ok? && entry.value.Some? {
      var p := EntryIsRecorded(records, r.key);
      assert c.audit[p] == records[p] && Outcomes(c.audit[p], c.transactions);
      ScopesRoundTrip(entry.value.value.scope, r.scope);
    }
  }

  lemma ScopesRoundTrip(code: Byte, scope: Scope)
    ensures TenantScoped(scope) && ScopeFromCode(code) == Some(scope) ==> ScopeCode(scope) == Some(code)
    ensures ScopeCode(scope) == Some(code) ==> ScopeFromCode(code) == Some(scope)
  {
  }

  /** Everything but a resume or a commit leaves the Catalog alone, hands out no secret, and stays with
      the tenant it works on. */
  lemma QuietStepIsOk(world: World, home: Id, c: Catalog, r: Request, phase: Phase, choice: Choice)
    requires Standing(c) && Keyed(Pinned(c).objects, home) && PhaseOk(home, c, r, phase)
    requires !phase.Resuming? && !phase.Committing? && !phase.Done?
    ensures Next(world, c, r, phase, choice).0 == c
    ensures PhaseOk(home, c, r, Next(world, c, r, phase, choice).1) && NoSecret(Next(world, c, r, phase, choice).1)
  {
    match phase
    case Start => BeginIsOk(world, home, c, r, r.forTenant);
    case Redirected => BeginIsOk(world, home, c, r, false);
    case Looking(who, basis, again) => LookIsOk(world, home, c, r, who, basis, again);
    case Auditing(who, basis, again) => AuditIsOk(world, home, c, r, who, basis, again);
    case Repinning(_) =>
  }

  lemma QuietStepIsJustified(world: World, home: Id, c: Catalog, r: Request, phase: Phase, choice: Choice)
    requires Inv(world, home, c) && PhaseOk(home, c, r, phase)
    requires !phase.Resuming? && !phase.Committing? && !phase.Done?
    ensures Justified(c, r, Next(world, c, r, phase, choice).1)
  {
    assert SnapshotOk(home, c.audit, c.history[0], c.history[c.visible]);
    match phase
    case Looking(who, basis, again) => LookIsJustified(world, home, c, r, who, basis, again);
    case Auditing(who, basis, again) => AuditIsJustified(world, home, c, r, who, basis, again);
    case _ =>
  }

  lemma AfterResumeIsOk(world: World, home: Id, c: Catalog, r: Request, who: Option<Id>, basis: nat, ring: Ring, digest: Word,
                        result: Result<Resolution, Failure>)
    requires PhaseOk(home, c, r, Resuming(who, basis))
    ensures var q := AfterResume(world, r, who, basis, ring, digest, result); PhaseOk(home, c, r, q) && NoSecret(q)
  {
  }

  /** A resume step moves the Catalog only by resuming, and hands out no secret. */
  lemma ResumeStepCases(world: World, home: Id, c: Catalog, r: Request, who: Option<Id>, basis: nat, fault: Fault)
    returns (digest: Word)
    requires Standing(c) && PhaseOk(home, c, r, Resuming(who, basis))
    ensures var q := TryResume(world, c, r, who, basis, fault);
            && (q.0 == c || q.0 == Resume(c, r.key, digest, fault).0)
            && NoSecret(q.1)
            && PhaseOk(home, c, r, q.1)
  {
    digest := 0;
    var ring := ReadRing(c.history[basis], who);
    if ring.Ok? {
      var d := RequestDigest(world, r, who, ring.value);
      if d.Ok? {
        digest := d.value;
        AfterResumeIsOk(world, home, c, r, who, basis, ring.value, digest, Resume(c, r.key, digest, fault).1);
      }
    }
  }

  /** What a resume that reports a resumed transaction has done. */
  lemma ResumedCase(c: Catalog, key: Id, digest: Word, fault: Fault)
    requires Standing(c) && Resume(c, key, digest, fault).1.Ok? && Resume(c, key, digest, fault).1.value.Resumed?
    ensures var q := Resume(c, key, digest, fault);
            var f := q.1.value.fields;
            && f.digest == digest && key in c.staged && c.staged[key].Complete? && c.staged[key].p.fields == f
            && q.0.visible == Current(q.0)
            && key in q.0.transactions && q.0.transactions[key].Published? && q.0.transactions[key].fields == f
  {
  }

  /** A default-tenant operation takes a resumed transaction for its own by the digest of its own binding. */
  lemma OwnIsBound(world: World, r: Request, ring: Ring, digest: Word, f: Fields)
    requires RequestDigest(world, r, None, ring) == Ok(digest) && ResumedOwn(world, r, ring, digest, f)
    ensures digest == f.digest == DigestOf(world, BindingAs(r, None, f.scope, f.expiry))
  {
    ScopesRoundTrip(f.scope, r.scope);
  }

  lemma ResumeIsJustified(world: World, c: Catalog, r: Request, who: Option<Id>, basis: nat, fault: Fault)
    requires Standing(c) && basis < |c.history|
    ensures var q := TryResume(world, c, r, who, basis, fault); Justified(q.0, r, q.1)
  {
    var ring := ReadRing(c.history[basis], who);
    if ring.Ok? && RequestDigest(world, r, who, ring.value).Ok? {
      ResumedIsJustified(world, c, r, who, basis, ring.value, RequestDigest(world, r, who, ring.value).value, fault);
    }
  }

  lemma ResumedIsJustified(world: World, c: Catalog, r: Request, who: Option<Id>, basis: nat, ring: Ring, digest: Word, fault: Fault)
    requires Standing(c) && RequestDigest(world, r, who, ring) == Ok(digest)
    ensures var q := ResumeUnder(world, c, r, who, basis, ring, Ok(digest), fault); Justified(q.0, r, q.1)
  {
    var result := Resume(c, r.key, digest, fault).1;
    if result.Ok? && result.value.Resumed? {
      ResumedCase(c, r.key, digest, fault);
      OwnAnswers(world, r, who, ring, digest, result);
    }
  }

  lemma OwnAnswers(world: World, r: Request, who: Option<Id>, ring: Ring, digest: Word, result: Result<Resolution, Failure>)
    requires RequestDigest(world, r, who, ring) == Ok(digest)
    ensures forall f :: result == Ok(Resumed(f)) && ResumedOwn(world, r, ring, digest, f) ==> Answers(f, r)
  {
    forall f | result == Ok(Resumed(f)) && ResumedOwn(world, r, ring, digest, f)
      ensures Answers(f, r)
    {
      ScopesRoundTrip(f.scope, r.scope);
    }
  }

  lemma ResumeStepIsOk(world: World, home: Id, c: Catalog, r: Request, who: Option<Id>, basis: nat, fault: Fault)
    requires Inv(world, home, c) && PhaseOk(home, c, r, Resuming(who, basis))
    ensures var q := TryResume(world, c, r, who, basis, fault);
            && Inv(world, home, q.0) && Extends(c, q.0) && PhaseOk(home, q.0, r, q.1) && NoSecret(q.1)
            && Justified(q.0, r, q.1)
  {
    ResumeIsJustified(world, c, r, who, basis, fault);
    var digest := ResumeStepCases(world, home, c, r, who, basis, fault);
    ResumeKeeps(world, home, c, r.key, digest, fault);
    ResumeExtends(world, home, c, r.key, digest, fault);
  }

  /** A commit that succeeds has published this very proposal. */
  lemma CommittedOutcome(c: Catalog, key: Id, p: Proposal, fault: Fault)
    requires Standing(c) && Commit(c, key, p, fault).1.Ok?
    ensures var d := Commit(c, key, p, fault).0;
            && key in d.transactions && d.transactions[key] == Published(p.objects, p.fields)
            && (key !in c.transactions ==> d.history[Current(d)].objects == p.objects)
            && (key in c.transactions ==> d == Recovered(c)) && d.visible == Current(d)
  {
  }

  /** A principal that is fresh cannot have been published. */
  lemma FreshIsUnpublished(world: World, home: Id, sys: System, key: Id, f: Fields)
    requires Inv(world, home, sys.catalog) && Fresh(sys, f.principal)
    requires key in sys.catalog.transactions && sys.catalog.transactions[key].Published?
    ensures sys.catalog.transactions[key].fields.principal != f.principal
  {
    var c := sys.catalog;
    var g := c.transactions[key].fields;
    var s := c.history[Current(c)];
    assert OutcomeOk(c, key);
    assert SnapshotOk(home, c.audit, c.history[0], s);
    assert Recorded(c.audit, s.frontier, g);
    assert Enacted(RingOf(s.objects, g.tenant), g);
    assert Unheard(RingOf(s.objects, g.tenant), f.principal);
  }

  /** The ring a proposal publishes holds the credential whose secret it hands out. */
  lemma ProposalIsVouched(world: World, home: Id, s: Snapshot, basis: nat, r: Request, who: Option<Id>, choice: Choice)
    requires Keyed(s.objects, home) && who != Some(home) && Admissible(r) && !r.action.Revoke?
    requires Unheard(RingOf(s.objects, who), choice.principal) && Propose(world, s, basis, r, who, choice).Ok?
    ensures Vouched(world, RingOf(Propose(world, s, basis, r, who, choice).value.objects, who), choice.principal, choice.secret)
  {
    var ring := RingOf(s.objects, who);
    var generation, change, o := ProposalParts(world, home, s, basis, r, who, choice);
    var p := Propose(world, s, basis, r, who, choice).value;
    PublishedRing(home, s, p, o, who);
    ChangeIsVouched(world, r, generation, ring, choice);
  }

  /** The credential a change adds is opened by the secret that was drawn. */
  lemma ChangeIsVouched(world: World, r: Request, generation: Generation, ring: Ring, choice: Choice)
    requires !r.action.Revoke? && ChangeRing(world, r, generation, ring, choice).Ok?
    ensures Vouched(world, ChangeRing(world, r, generation, ring, choice).value.ring, choice.principal, choice.secret)
  {
    var after := ChangeRing(world, r, generation, ring, choice).value.ring;
    assert after.credentials[|ring.credentials|].hash == world.seal(after.credentials[|ring.credentials|].salt, choice.secret);
  }

  lemma PublishedRing(home: Id, s: Snapshot, p: Proposal, o: Object, who: Option<Id>)
    requires Keyed(s.objects, home) && p.fields.tenant == who && p.objects == WithoutRing(s.objects, who) + {o, Receipt(p.fields)}
    requires if who.None? then o.Governance? else o.Keyring? && o.tenant == who.value
    ensures RingOf(p.objects, who) == o.ring
  {
    if who.None? {
      assert SoleGovernance(p.objects, o);
    } else {
      assert SoleKeyring(p.objects, who.value, o);
    }
  }

  /** A commit step moves the Catalog only by committing its proposal, and ends the operation. */
  lemma CommitStepCases(world: World, c: Catalog, r: Request, who: Option<Id>, basis: nat, choice: Choice)
    requires Standing(c) && basis < |c.history|
    ensures var q := TryCommit(world, c, r, who, basis, choice);
            var proposed := Propose(world, c.history[basis], basis, r, who, choice);
            && (q.0 == c || (proposed.Ok? && q.0 == Commit(c, r.key, proposed.value, choice.fault).0))
            && q.1.Done? && (r.action.Revoke? ==> NoSecret(q.1))
  {
  }

  lemma CommitStepIsOk(world: World, home: Id, sys: System, r: Request, who: Option<Id>, basis: nat, choice: Choice)
    requires Inv(world, home, sys.catalog) && PhaseOk(home, sys.catalog, r, Committing(who, basis)) && Admissible(r)
    requires r.action.Revoke? || Fresh(sys, choice.principal)
    ensures var q := TryCommit(world, sys.catalog, r, who, basis, choice);
            && Inv(world, home, q.0) && Extends(sys.catalog, q.0)
            && q.1.Done? && (r.action.Revoke? ==> NoSecret(q.1))
  {
    var c := sys.catalog;
    CommitStepCases(world, c, r, who, basis, choice);
    var proposed := Propose(world, c.history[basis], basis, r, who, choice);
    if proposed.Ok? {
      assert SnapshotOk(home, c.audit, c.history[0], c.history[basis]);
      ProposalsAreSound(world, home, c.history[basis], basis, r, who, choice);
      CommitKeeps(world, home, c, r.key, proposed.value, choice.fault);
      CommitExtends(c, r.key, proposed.value, choice.fault);
    }
  }

  /** A commit that answers with a secret has just published the credential the secret opens. */
  lemma SecretIsBacked(world: World, home: Id, sys: System, id: nat, r: Request, who: Option<Id>, basis: nat, choice: Choice)
    requires Inv(world, home, sys.catalog) && PhaseOk(home, sys.catalog, r, Committing(who, basis)) && Admissible(r)
    requires !r.action.Revoke? && Fresh(sys, choice.principal)
    requires var o := TryCommit(world, sys.catalog, r, who, basis, choice).1; o.Done? && o.outcome.Ok?
    ensures var q := TryCommit(world, sys.catalog, r, who, basis, choice);
            && q.1.outcome.value == Answer(choice.principal, Some(choice.secret))
            && SecretBacked(world, q.0, sys.minted[choice.principal := id], id, r.key, q.1.outcome.value)
  {
    var c := sys.catalog;
    var s := c.history[basis];
    var p := Propose(world, s, basis, r, who, choice).value;
    assert SnapshotOk(home, c.audit, c.history[0], s);
    ProposalsAreSound(world, home, s, basis, r, who, choice);
    ProposalIsVouched(world, home, s, basis, r, who, choice);
    CommittedOutcome(c, r.key, p, choice.fault);
    if r.key in c.transactions {
      FreshIsUnpublished(world, home, sys, r.key, p.fields);
    }
  }

  lemma AcknowledgedCommit(world: World, c: Catalog, r: Request, who: Option<Id>, basis: nat, choice: Choice)
    requires Standing(c) && basis < |c.history|
    requires var o := TryCommit(world, c, r, who, basis, choice).1; o.Done? && o.outcome.Ok?
    ensures var q := TryCommit(world, c, r, who, basis, choice);
            var proposed := Propose(world, c.history[basis], basis, r, who, choice);
            && proposed.Ok? && r.key in q.0.transactions && q.0.visible == Current(q.0)
            && q.0.transactions[r.key] == Published(proposed.value.objects, proposed.value.fields)
            && q.1.outcome.value.principal == proposed.value.fields.principal
  {
    var p := Propose(world, c.history[basis], basis, r, who, choice).value;
    CommittedOutcome(c, r.key, p, choice.fault);
  }

  /** A proposal's fields answer the request it was made for. */
  lemma ProposalAnswers(world: World, home: Id, s: Snapshot, basis: nat, r: Request, who: Option<Id>, choice: Choice)
    requires Keyed(s.objects, home) && Propose(world, s, basis, r, who, choice).Ok?
    ensures var f := Propose(world, s, basis, r, who, choice).value.fields; Answers(f, r) && f.tenant == who && f.key == r.key
  {
    var ring := RingOf(s.objects, who);
    ReadsTheRing(s, home, who);
    var generation, change, o := ProposalChain(world, s, basis, r, who, choice, ring);
    ChangeAnswers(world, s, r, who, generation, ring, choice);
  }

  lemma ChangeAnswers(world: World, s: Snapshot, r: Request, who: Option<Id>, generation: Generation, ring: Ring, choice: Choice)
    requires ChangeRing(world, r, generation, ring, choice).Ok? && s.frontier < U64_MAX
    ensures Answers(FieldsOf(world, s, r, who, generation, ChangeRing(world, r, generation, ring, choice).value), r)
  {
  }

  lemma CommitIsJustified(world: World, home: Id, c: Catalog, r: Request, who: Option<Id>, basis: nat, choice: Choice)
    requires Inv(world, home, c) && basis < |c.history|
    ensures var q := TryCommit(world, c, r, who, basis, choice); Justified(q.0, r, q.1)
  {
    assert SnapshotOk(home, c.audit, c.history[0], c.history[basis]);
    var q := TryCommit(world, c, r, who, basis, choice);
    if q.1.Done? && q.1.outcome.Ok? {
      AcknowledgedCommit(world, c, r, who, basis, choice);
      ProposalAnswers(world, home, c.history[basis], basis, r, who, choice);
    }
  }

  /** A secret in a commit's answer is backed. */
  lemma CommitSecretIsOk(world: World, home: Id, sys: System, id: nat, r: Request, who: Option<Id>, basis: nat, choice: Choice)
    requires Inv(world, home, sys.catalog) && PhaseOk(home, sys.catalog, r, Committing(who, basis)) && Admissible(r)
    requires r.action.Revoke? || Fresh(sys, choice.principal)
    ensures var q := TryCommit(world, sys.catalog, r, who, basis, choice);
            var minted := if r.action.Revoke? then sys.minted else sys.minted[choice.principal := id];
            q.1.outcome.Ok? && q.1.outcome.value.secret.Some? ==>
              SecretBacked(world, q.0, minted, id, r.key, q.1.outcome.value)
  {
    CommitStepCases(world, sys.catalog, r, who, basis, choice);
    if TryCommit(world, sys.catalog, r, who, basis, choice).1.outcome.Ok? && !r.action.Revoke? {
      SecretIsBacked(world, home, sys, id, r, who, basis, choice);
    }
  }

  lemma CommitThreadIsOk(world: World, home: Id, sys: System, id: nat, th: Thread, choice: Choice)
    requires Inv(world, home, sys.catalog) && ThreadOk(world, home, sys.catalog, sys.minted, id, th)
    requires th.phase.Committing? && (th.request.action.Revoke? || Fresh(sys, choice.principal))
    ensures var q := TryCommit(world, sys.catalog, th.request, th.phase.who, th.phase.basis, choice);
            var minted := if th.request.action.Revoke? then sys.minted else sys.minted[choice.principal := id];
            && Inv(world, home, q.0) && Extends(sys.catalog, q.0)
            && ThreadOk(world, home, q.0, minted, id, th.(phase := q.1))
  {
    CommitIsJustified(world, home, sys.catalog, th.request, th.phase.who, th.phase.basis, choice);
    CommitStepIsOk(world, home, sys, th.request, th.phase.who, th.phase.basis, choice);
    CommitSecretIsOk(world, home, sys, id, th.request, th.phase.who, th.phase.basis, choice);
  }

  /** Every step of every operation keeps the Catalog and the operation good. */
  lemma NextIsOk(world: World, home: Id, sys: System, id: nat, th: Thread, choice: Choice)
    requires Inv(world, home, sys.catalog) && ThreadOk(world, home, sys.catalog, sys.minted, id, th)
    requires Mints(th) ==> Fresh(sys, choice.principal)
    ensures var q := Next(world, sys.catalog, th.request, th.phase, choice);
            var minted := if Mints(th) then sys.minted[choice.principal := id] else sys.minted;
            && Inv(world, home, q.0) && Extends(sys.catalog, q.0)
            && ThreadOk(world, home, q.0, minted, id, th.(phase := q.1))
  {
    var c := sys.catalog;
    if th.phase.Committing? {
      CommitThreadIsOk(world, home, sys, id, th, choice);
    } else if th.phase.Resuming? {
      ResumeStepIsOk(world, home, c, th.request, th.phase.who, th.phase.basis, choice.fault);
    } else if !th.phase.Done? {
      assert SnapshotOk(home, c.audit, c.history[0], c.history[c.visible]);
      QuietStepIsOk(world, home, c, th.request, th.phase, choice);
      QuietStepIsJustified(world, home, c, th.request, th.phase, choice);
    }
  }

  lemma StepIsOk(world: World, home: Id, sys: System, id: nat, choice: Choice)
    requires Inv(world, home, sys.catalog) && id in sys.threads
    requires ThreadOk(world, home, sys.catalog, sys.minted, id, sys.threads[id])
    ensures var after := Apply(world, home, sys, Step(id, choice));
            && Inv(world, home, after.catalog) && Extends(sys.catalog, after.catalog)
            && id in after.threads && ThreadOk(world, home, after.catalog, after.minted, id, after.threads[id])
  {
    if Mints(sys.threads[id]) ==> Fresh(sys, choice.principal) {
      NextIsOk(world, home, sys, id, sys.threads[id], choice);
    }
  }

  lemma ElsewhereIsFine(world: World, home: Id, c: Catalog, key: Id, objects: set<Object>, registered: set<Id>,
                        intent: Option<Bytes>, acknowledged: bool)
    requires Inv(world, home, c) && ElsewhereAllowed(home, c, key, objects)
    ensures var d := PublishElsewhere(c, key, objects, registered, intent, acknowledged);
            Inv(world, home, d) && Extends(c, d)
  {
    var d := PublishElsewhere(c, key, objects, registered, intent, acknowledged);
    ElsewhereAppends(c, key, objects, registered, intent, acknowledged);
    AppendedKeeps(world, home, c, d, key, objects, intent);
  }

  /** Every event keeps the system good and lets the Catalog only grow. */
  lemma ApplyIsOk(world: World, home: Id, sys: System, e: Event)
    requires SystemOk(world, home, sys)
    ensures SystemOk(world, home, Apply(world, home, sys, e))
    ensures Extends(sys.catalog, Apply(world, home, sys, e).catalog)
  {
    var after := Apply(world, home, sys, e);
    match e {
      case Spawn(_, _) =>
      case Step(id, choice) =>
        if id in sys.threads {
          StepIsOk(world, home, sys, id, choice);
        }
      case Elsewhere(key, objects, registered, intent, acknowledged) =>
        if ElsewhereAllowed(home, sys.catalog, key, objects) {
          ElsewhereIsFine(world, home, sys.catalog, key, objects, registered, intent, acknowledged);
        }
      case Recover =>
        RecoveredKeeps(world, home, sys.catalog);
    }
    OthersStay(world, home, sys, after, e);
  }

  /** What an event leaves of an operation that did not take the step. */
  lemma Untouched(world: World, home: Id, sys: System, e: Event, id: nat)
    requires Standing(sys.catalog) && id in Apply(world, home, sys, e).threads && !(e.Step? && e.id == id)
    ensures var after := Apply(world, home, sys, e);
            && (id in sys.threads ==> after.threads[id] == sys.threads[id])
            && (id !in sys.threads ==> after.threads[id].phase.Start? && Admissible(after.threads[id].request))
            && (forall p :: p in sys.minted ==> p in after.minted && after.minted[p] == sys.minted[p])
  {
  }

  lemma OthersStay(world: World, home: Id, sys: System, after: System, e: Event)
    requires SystemOk(world, home, sys) && Inv(world, home, after.catalog) && Extends(sys.catalog, after.catalog)
    requires after == Apply(world, home, sys, e)
    requires e.Step? && e.id in sys.threads ==>
               ThreadOk(world, home, after.catalog, after.minted, e.id, after.threads[e.id])
    ensures SystemOk(world, home, after)
  {
    forall id | id in after.threads
      ensures ThreadOk(world, home, after.catalog, after.minted, id, after.threads[id])
    {
      if !(e.Step? && e.id == id) {
        Untouched(world, home, sys, e, id);
        if id in sys.threads {
          ThreadStaysOk(world, home, sys.catalog, after.catalog, sys.minted, after.minted, id, sys.threads[id]);
        }
      }
    }
  }

  lemma {:induction false} RunIsOk(world: World, home: Id, sys: System, events: seq<Event>)
    requires SystemOk(world, home, sys)
    ensures SystemOk(world, home, Run(world, home, sys, events))
    ensures Extends(sys.catalog, Run(world, home, sys, events).catalog)
  {
    if events != [] {
      var front := events[..|events| - 1];
      RunIsOk(world, home, sys, front);
      ApplyIsOk(world, home, Run(world, home, sys, front), events[|events| - 1]);
      ExtendsTransitive(sys.catalog, Run(world, home, sys, front).catalog, Run(world, home, sys, events).catalog);
    }
  }

  lemma ExtendsTransitive(a: Catalog, b: Catalog, c: Catalog)
    requires Extends(a, b) && Extends(b, c)
    ensures Extends(a, c)
  {
  }
}
