/** Retries: once a mutation is visible under a key, every later operation under that key answers from its
    receipt and changes nothing. */
module ApiKeyReplay {
  import opened Prelude
  import opened ApiKeys
  import opened ApiKeyCatalog
  import opened ApiKeyProtocol
  import opened ApiKeyInvariant
  import opened ApiKeyRuns
  import opened ApiKeySafety

  /** The request that left this receipt, as far as its operation distinguishes requests. */
  predicate SameRequest(r: Request, who: Option<Id>, f: Fields) {
    && r.action == f.action && who == f.tenant && r.actor.principal == f.actor && r.expected == f.expected
    && (r.action.Create? ==> ScopeCode(r.scope) == Some(f.scope) && r.expiry == f.expiry)
    && (!r.action.Create? ==> r.target == f.target)
  }

  /** Under a receipt's key, a request is taken for its repetition exactly when it is the same request:
      the digest comparison never separates equal requests, and needs no collision resistance to
      separate different ones. */
  lemma MatchesExactlyTheSame(world: World, home: Id, r: Request, who: Option<Id>, f: Fields)
    requires ProperFields(world, home, f) && r.key == f.key
    ensures Matches(world, r, who, f) <==> SameRequest(r, who, f)
  {
    if SameRequest(r, who, f) {
      assert BindingAs(r, who, f.scope, f.expiry) == BindingOf(f);
    }
  }

  /** The answer a receipt gives. */
  function Replayed(r: Request, who: Option<Id>, f: Fields): Result<Answer, Failure> {
    if SameRequest(r, who, f) then Ok(Answer(f.principal, None)) else Err(IdempotencyConflict)
  }

  /** A tenant's operation that names the default tenant is handed to the default tenant's operation. */
  predicate NamesDefault(home: Id, r: Request) {
    r.forTenant && r.tenant == Some(home)
  }

  /** The request is refused by the operation it is made to, or by the one it is handed to. */
  predicate Barred(world: World, home: Id, r: Request) {
    Denied(world, r, r.forTenant) || (NamesDefault(home, r) && Denied(world, r, false))
  }

  /** A generation with the receipt does not register the request's tenant. */
  predicate LacksTenant(home: Id, s: Snapshot, r: Request, f: Fields) {
    Receipt(f) in s.objects && Subject(home, r).Some? && Subject(home, r).value !in s.registered
  }

  ghost predicate Unregistered(home: Id, c: Catalog, r: Request, f: Fields) {
    exists i :: 0 <= i < |c.history| && LacksTenant(home, c.history[i], r, f)
  }

  /** How an operation ends under a key that has a receipt: unauthorized exactly when the request is refused,
      without the credential only when the tenant was not registered, and otherwise as the receipt says. */
  ghost predicate Verdict(world: World, home: Id, c: Catalog, r: Request, f: Fields, outcome: Result<Answer, Failure>) {
    if Barred(world, home, r) then outcome == Err(Unauthorized)
    else
      || outcome == Replayed(r, Subject(home, r), f)
      || (outcome == Err(CredentialUnavailable) && Unregistered(home, c, r, f))
  }

  /** An operation that began when the receipt was already visible. */
  ghost predicate Retrying(world: World, home: Id, c: Catalog, th: Thread, f: Fields) {
    && Standing(c) && th.request.key == f.key && Receipt(f) in Pinned(c).objects
    && match th.phase
       case Start => true
       case Redirected => NamesDefault(home, th.request) && !Denied(world, th.request, th.request.forTenant)
       case Looking(who, basis, _) =>
         && basis < |c.history| && Receipt(f) in c.history[basis].objects && who == Subject(home, th.request)
         && !Barred(world, home, th.request)
       case Done(outcome) => Verdict(world, home, c, th.request, f, outcome)
       case _ => false
  }

  /** Steps left until a retry is answered. */
  function StepsLeft(phase: Phase): nat {
    match phase
    case Start => 3
    case Redirected => 2
    case Looking(_, _, _) => 1
    case _ => 0
  }

  lemma ReceiptAnswers(world: World, home: Id, c: Catalog, s: Snapshot, r: Request, who: Option<Id>, f: Fields)
    requires AuditOk(world, home, c.audit, c.transactions) && ReceiptsAgree(c.audit, s)
    requires r.key == f.key && Receipt(f) in s.objects
    ensures FindReceipt(s.objects, r.key) == Ok(Some(f)) && (Matches(world, r, who, f) <==> SameRequest(r, who, f))
  {
    ReceiptIsFound(world, home, c, s, r.key);
    assert Recorded(c.audit, s.frontier, f);
    assert RecordOk(world, home, c.audit, f.position - 1);
    MatchesExactlyTheSame(world, home, r, who, f);
  }

  lemma LookFindsReceipt(world: World, home: Id, c: Catalog, r: Request, who: Option<Id>, basis: nat, again: bool, f: Fields)
    requires Inv(world, home, c) && basis < |c.history| && r.key == f.key
    requires Receipt(f) in LookedIn(c, r, who, basis).objects
    ensures Look(world, c, r, who, basis, again) == Done(Replayed(r, who, f))
  {
    var i := if who.Some? && r.action.Create? then basis else c.visible;
    assert SnapshotOk(home, c.audit, c.history[0], c.history[i]);
    ReceiptAnswers(world, home, c, c.history[i], r, who, f);
  }

  /** Whether an operation gets as far as looking for a receipt. */
  predicate Admitted(world: World, home: Id, c: Catalog, r: Request)
    requires Standing(c)
  {
    !Barred(world, home, r) && (Subject(home, r).Some? ==> Subject(home, r).value in Pinned(c).registered)
  }

  /** Where a request leads in its first step. */
  lemma FirstPhase(world: World, home: Id, c: Catalog, r: Request)
    requires Standing(c) && Keyed(Pinned(c).objects, home)
    ensures Begin(world, c, r, r.forTenant) ==
            if Denied(world, r, r.forTenant) then Done(Err(Unauthorized))
            else if NamesDefault(home, r) then Redirected
            else if Admitted(world, home, c, r) then Looking(Subject(home, r), c.visible, false)
            else Done(Err(CredentialUnavailable))
  {
    LookupsSucceed(Pinned(c).objects, home, if r.tenant.Some? then r.tenant.value else home);
  }

  lemma RedirectedPhase(world: World, home: Id, c: Catalog, r: Request)
    requires Standing(c) && Keyed(Pinned(c).objects, home)
    ensures Begin(world, c, r, false) == if Denied(world, r, false) then Done(Err(Unauthorized)) else Looking(None, c.visible, false)
  {
    LookupsSucceed(Pinned(c).objects, home, home);
  }

  lemma RetryBegins(world: World, home: Id, c: Catalog, r: Request, f: Fields)
    requires Standing(c) && Keyed(Pinned(c).objects, home) && r.key == f.key && Receipt(f) in Pinned(c).objects
    ensures var q := Begin(world, c, r, r.forTenant); Retrying(world, home, c, Thread(r, q), f) && StepsLeft(q) < 3
  {
    FirstPhase(world, home, c, r);
    if !Barred(world, home, r) && !Admitted(world, home, c, r) {
      assert LacksTenant(home, c.history[c.visible], r, f);
    }
  }

  lemma RetryIsRedirected(world: World, home: Id, c: Catalog, r: Request, f: Fields)
    requires Standing(c) && Keyed(Pinned(c).objects, home) && Retrying(world, home, c, Thread(r, Redirected), f)
    ensures var q := Begin(world, c, r, false); Retrying(world, home, c, Thread(r, q), f) && StepsLeft(q) < 2
  {
    RedirectedPhase(world, home, c, r);
  }

  /** A retry's own step changes nothing, and brings it closer to its verdict. */
  lemma RetryStep(world: World, home: Id, c: Catalog, th: Thread, f: Fields, choice: Choice)
    requires Inv(world, home, c) && Placed(c, th.phase) && Retrying(world, home, c, th, f)
    ensures var q := Next(world, c, th.request, th.phase, choice);
            && q.0 == c && Retrying(world, home, c, th.(phase := q.1), f)
            && (!th.phase.Done? ==> StepsLeft(q.1) < StepsLeft(th.phase))
  {
    PinnedIsKeyed(world, home, c);
    match th.phase
    case Start => RetryBegins(world, home, c, th.request, f);
    case Redirected => RetryIsRedirected(world, home, c, th.request, f);
    case Looking(who, basis, again) => LookFindsReceipt(world, home, c, th.request, who, basis, again, f);
    case Done(_) =>
  }

  /** Whatever else happens, a retry stays a retry. */
  lemma RetryStays(world: World, home: Id, c: Catalog, d: Catalog, th: Thread, f: Fields)
    requires Inv(world, home, d) && Standing(c) && Extends(c, d) && Retrying(world, home, c, th, f)
    ensures Retrying(world, home, d, th, f)
  {
    assert d.history[c.visible] == c.history[c.visible];
    assert SnapshotKept(d.history[c.visible], d.history[d.visible]);
    if th.phase.Done? && Unregistered(home, c, th.request, f) {
      var i :| 0 <= i < |c.history| && LacksTenant(home, c.history[i], th.request, f);
      assert LacksTenant(home, d.history[i], th.request, f);
    }
  }

  /** An event that is not an operation's own step leaves the operation where it is. */
  lemma OtherEvents(world: World, home: Id, sys: System, e: Event, id: nat)
    requires Standing(sys.catalog) && id in sys.threads && !(e.Step? && e.id == id)
    ensures var after := Apply(world, home, sys, e); id in after.threads && after.threads[id] == sys.threads[id]
  {
  }

  lemma RetryEvent(world: World, home: Id, sys: System, e: Event, id: nat, f: Fields)
    requires SystemOk(world, home, sys) && id in sys.threads && Retrying(world, home, sys.catalog, sys.threads[id], f)
    ensures var after := Apply(world, home, sys, e);
            && id in after.threads && after.threads[id].request == sys.threads[id].request
            && Retrying(world, home, after.catalog, after.threads[id], f)
            && (e.Step? && e.id == id ==> after.catalog == sys.catalog)
  {
    if e.Step? && e.id == id {
      assert ThreadOk(world, home, sys.catalog, sys.minted, id, sys.threads[id]);
      RetryStep(world, home, sys.catalog, sys.threads[id], f, e.choice);
    } else {
      OtherEvents(world, home, sys, e, id);
      ApplyIsOk(world, home, sys, e);
      RetryStays(world, home, sys.catalog, Apply(world, home, sys, e).catalog, sys.threads[id], f);
    }
  }

  /** From the moment a mutation is visible, whatever runs in between, an operation that begins under its key
      ends in its verdict: the same principal without a secret for the same request and a conflict for any other,
      but unauthorized exactly when the request is refused, and without the credential only when a generation
      with the receipt does not register its tenant. */
  lemma {:induction false} RetriesGetTheReceipt(world: World, home: Id, sys: System, events: seq<Event>, id: nat, f: Fields)
    requires SystemOk(world, home, sys) && id in sys.threads && sys.threads[id].phase.Start?
    requires sys.threads[id].request.key == f.key && Receipt(f) in Pinned(sys.catalog).objects
    ensures var after := Run(world, home, sys, events);
            && id in after.threads && after.threads[id].request == sys.threads[id].request
            && Retrying(world, home, after.catalog, after.threads[id], f)
  {
    if events != [] {
      var front := events[..|events| - 1];
      RetriesGetTheReceipt(world, home, sys, front, id, f);
      RunIsOk(world, home, sys, front);
      RetryEvent(world, home, Run(world, home, sys, front), events[|events| - 1], id, f);
    }
  }

  /** An admitted retry is answered from the receipt in its second step, or in its third when it names the
      default tenant and is handed on. */
  lemma RetryIsAnswered(world: World, home: Id, c: Catalog, r: Request, f: Fields, choice: Choice)
    requires Inv(world, home, c) && r.key == f.key && Receipt(f) in Pinned(c).objects && Admitted(world, home, c, r)
    ensures var looking := Looking(Subject(home, r), c.visible, false);
            && Next(world, c, r, Start, choice) == (c, if NamesDefault(home, r) then Redirected else looking)
            && (NamesDefault(home, r) ==> Next(world, c, r, Redirected, choice) == (c, looking))
            && Next(world, c, r, looking, choice) == (c, Done(Replayed(r, Subject(home, r), f)))
  {
    PinnedIsKeyed(world, home, c);
    FirstPhase(world, home, c, r);
    RedirectedPhase(world, home, c, r);
    LookFindsReceipt(world, home, c, r, Subject(home, r), c.visible, false, f);
  }

  /** What is published is visible once readers have caught up. */
  lemma PublishedIsVisible(world: World, home: Id, d: Catalog, key: Id)
    requires Inv(world, home, d) && d.visible == Current(d) && key in d.transactions && d.transactions[key].Published?
    ensures Receipt(d.transactions[key].fields) in Pinned(d).objects
  {
    assert SnapshotOk(home, d.audit, d.history[0], d.history[Current(d)]);
    assert OutcomeOk(d, key);
    assert Recorded(d.audit, Pinned(d).frontier, d.transactions[key].fields);
  }

  /** A commit that is acknowledged is visible at once, under a receipt of the request it answered. */
  lemma AcknowledgedIsVisible(world: World, home: Id, sys: System, r: Request, who: Option<Id>, basis: nat, choice: Choice)
    requires Inv(world, home, sys.catalog) && PhaseOk(home, sys.catalog, r, Committing(who, basis)) && Admissible(r)
    requires r.action.Revoke? || Fresh(sys, choice.principal)
    requires var o := TryCommit(world, sys.catalog, r, who, basis, choice).1; o.Done? && o.outcome.Ok?
    ensures var q := TryCommit(world, sys.catalog, r, who, basis, choice);
            exists f :: Receipt(f) in Pinned(q.0).objects && f.key == r.key && SameRequest(r, who, f)
                        && f.principal == q.1.outcome.value.principal
  {
    var c := sys.catalog;
    CommitStepIsOk(world, home, sys, r, who, basis, choice);
    AcknowledgedCommit(world, c, r, who, basis, choice);
    assert SnapshotOk(home, c.audit, c.history[0], c.history[basis]);
    ProposalAnswers(world, home, c.history[basis], basis, r, who, choice);
    PublishedIsVisible(world, home, TryCommit(world, c, r, who, basis, choice).0, r.key);
  }

  /** A default-tenant rotation that names the default tenant is refused by the operation it is handed to. */
  lemma NamedDefaultRotationIsRefused(world: World, home: Id, c: Catalog, r: Request, first: Choice, second: Choice)
    requires Inv(world, home, c) && r.action.Rotate? && r.forTenant && r.tenant == Some(home) && Authorizes(world, r.actor)
    ensures var q := Next(world, c, r, Start, first);
            q == (c, Redirected) && Next(world, c, r, q.1, second) == (c, Done(Err(Unauthorized)))
  {
    assert SnapshotOk(home, c.audit, c.history[0], c.history[c.visible]);
    LookupsSucceed(Pinned(c).objects, home, home);
  }
}
