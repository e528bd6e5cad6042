/** What holds in every run of the API-key operations, from a Catalog without API-key history. */
module ApiKeySafety {
  import opened Prelude
  import opened ApiKeys
  import opened ApiKeyCatalog
  import opened ApiKeyProtocol
  import opened ApiKeyInvariant
  import opened ApiKeyProposals
  import opened ApiKeyRuns

  lemma ReachableIsOk(world: World, home: Id, start: System, events: seq<Event>)
    requires Initial(home, start)
    ensures SystemOk(world, home, Run(world, home, start, events))
  {
    InitialIsOk(world, home, start);
    RunIsOk(world, home, start, events);
  }

  /** The generation at one place of a run's history. */
  ghost function At(world: World, home: Id, start: System, events: seq<Event>, i: nat): Snapshot
    requires Standing(start.catalog) && i < |Run(world, home, start, events).catalog.history|
  {
    Run(world, home, start, events).catalog.history[i]
  }

  /** No generation ever holds two receipts under one idempotency key. */
  lemma OneReceiptPerKey(world: World, home: Id, start: System, events: seq<Event>, i: nat, f: Fields, g: Fields)
    requires Initial(home, start) && i < |Run(world, home, start, events).catalog.history|
    requires Receipt(f) in At(world, home, start, events, i).objects && Receipt(g) in At(world, home, start, events, i).objects
    requires f.key == g.key
    ensures f == g
  {
    ReachableIsOk(world, home, start, events);
    var c := Run(world, home, start, events).catalog;
    assert SnapshotOk(home, c.audit, c.history[0], c.history[i]);
    SameKeySameReceipt(world, home, c, c.history[i], f, g);
  }

  lemma SameKeySameReceipt(world: World, home: Id, c: Catalog, s: Snapshot, f: Fields, g: Fields)
    requires AuditOk(world, home, c.audit, c.transactions) && ReceiptsAgree(c.audit, s)
    requires Receipt(f) in s.objects && Receipt(g) in s.objects && f.key == g.key
    ensures f == g
  {
    assert Recorded(c.audit, s.frontier, f) && Recorded(c.audit, s.frontier, g);
    assert RecordOk(world, home, c.audit, f.position - 1) && RecordOk(world, home, c.audit, g.position - 1);
  }

  /** Every generation stays readable: no lookup of the governance object, of any tenant's keyring or of any
      key's receipt ever fails. */
  lemma EveryGenerationIsReadable(world: World, home: Id, start: System, events: seq<Event>, i: nat, tenant: Id, key: Id)
    requires Initial(home, start) && i < |Run(world, home, start, events).catalog.history|
    ensures var s := At(world, home, start, events, i);
            && FindGovernance(s.objects).Ok? && FindKeyring(s.objects, tenant).Ok? && FindReceipt(s.objects, key).Ok?
  {
    ReachableIsOk(world, home, start, events);
    var c := Run(world, home, start, events).catalog;
    assert SnapshotOk(home, c.audit, c.history[0], c.history[i]);
    LookupsSucceed(c.history[i].objects, home, tenant);
    ReceiptIsFound(world, home, c, c.history[i], key);
  }

  /** A receipt lookup finds exactly the receipt that is there. */
  lemma ReceiptIsFound(world: World, home: Id, c: Catalog, s: Snapshot, key: Id)
    requires AuditOk(world, home, c.audit, c.transactions) && ReceiptsAgree(c.audit, s)
    ensures FindReceipt(s.objects, key).Ok?
    ensures forall f :: Receipt(f) in s.objects && f.key == key ==> FindReceipt(s.objects, key).value == Some(f)
    ensures FindReceipt(s.objects, key).value.None? ==> forall f :: Receipt(f) in s.objects ==> f.key != key
  {
    forall o | o in s.objects && o.Receipt?
      ensures ValidReceipt(o.fields)
    {
      assert Recorded(c.audit, s.frontier, o.fields);
      assert RecordOk(world, home, c.audit, o.fields.position - 1);
    }
    forall o | o in s.objects && o.Receipt? && o.fields.key == key
      ensures SoleReceipt(s.objects, key, o)
    {
      forall q | q in s.objects && q.Receipt? && q.fields.key == key
        ensures q == o
      {
        SameKeySameReceipt(world, home, c, s, o.fields, q.fields);
      }
    }
  }

  /** Receipts and API-key audit records correspond one to one, each at its own position. */
  lemma ReceiptsMatchTheAudit(world: World, home: Id, start: System, events: seq<Event>, i: nat, f: Fields)
    requires Initial(home, start) && i < |Run(world, home, start, events).catalog.history|
    ensures var s := At(world, home, start, events, i);
            Receipt(f) in s.objects <==> Recorded(Run(world, home, start, events).catalog.audit, s.frontier, f)
  {
    ReachableIsOk(world, home, start, events);
    var c := Run(world, home, start, events).catalog;
    assert SnapshotOk(home, c.audit, c.history[0], c.history[i]);
  }

  /** The audit fallback never finds a record whose receipt is missing. */
  lemma FallbackHasReceipt(world: World, home: Id, start: System, events: seq<Event>, i: nat, key: Id)
    requires Initial(home, start) && i < |Run(world, home, start, events).catalog.history|
    ensures var c := Run(world, home, start, events).catalog;
            var s := c.history[i];
            && s.frontier <= |c.audit|
            && var entry := ReplayEntry(c.audit[..s.frontier], key);
               entry.Ok? && entry.value.Some? ==> entry.value.value.key == key && Receipt(entry.value.value) in s.objects
  {
    ReachableIsOk(world, home, start, events);
    var c := Run(world, home, start, events).catalog;
    assert SnapshotOk(home, c.audit, c.history[0], c.history[i]);
    EntryHasReceipt(world, home, c, c.history[i], key);
  }

  lemma EntryHasReceipt(world: World, home: Id, c: Catalog, s: Snapshot, key: Id)
    requires AuditOk(world, home, c.audit, c.transactions) && ReceiptsAgree(c.audit, s) && s.frontier <= |c.audit|
    ensures var entry := ReplayEntry(c.audit[..s.frontier], key);
            entry.Ok? && entry.value.Some? ==> entry.value.value.key == key && Receipt(entry.value.value) in s.objects
  {
    var entry := ReplayEntry(c.audit[..s.frontier], key);
    if entry.Ok? && entry.value.Some? {
      var p := EntryIsRecorded(c.audit[..s.frontier], key);
      assert c.audit[p].body == ApiKey(entry.value.value) && c.audit[p].key == key;
      assert RecordOk(world, home, c.audit, p);
      assert Recorded(c.audit, s.frontier, entry.value.value);
    }
  }

  /** At most one response under a key carries a secret, and the credential that secret opens is published. */
  lemma OneSecretPerKey(world: World, home: Id, start: System, events: seq<Event>, t: nat, u: nat)
    requires Initial(home, start)
    requires var sys := Run(world, home, start, events);
             && t in sys.threads && u in sys.threads && sys.threads[t].request.key == sys.threads[u].request.key
             && HoldsSecret(sys.threads[t]) && HoldsSecret(sys.threads[u])
    ensures t == u
    ensures var sys := Run(world, home, start, events);
            var c, r, answer := sys.catalog, sys.threads[t].request, sys.threads[t].phase.outcome.value;
            && r.key in c.transactions && c.transactions[r.key].Published?
            && c.transactions[r.key].fields.principal == answer.principal
            && Vouched(world, RingOf(c.history[Current(c)].objects, c.transactions[r.key].fields.tenant), answer.principal,
                       answer.secret.value)
  {
    ReachableIsOk(world, home, start, events);
    var sys := Run(world, home, start, events);
    assert ThreadOk(world, home, sys.catalog, sys.minted, t, sys.threads[t]);
    assert ThreadOk(world, home, sys.catalog, sys.minted, u, sys.threads[u]);
  }

  /** Every success, with or without a secret, is answered from a mutation published under the request's key for
      the same action, actor, generation and target, or scope and expiry. */
  lemma EverySuccessIsPublished(world: World, home: Id, start: System, events: seq<Event>, t: nat)
    requires Initial(home, start) && t in Run(world, home, start, events).threads
    requires Succeeded(Run(world, home, start, events).threads[t])
    ensures var sys := Run(world, home, start, events);
            AnswerBacked(sys.catalog, sys.threads[t].request, sys.threads[t].phase.outcome.value)
  {
    ReachableIsOk(world, home, start, events);
    var sys := Run(world, home, start, events);
    assert ThreadOk(world, home, sys.catalog, sys.minted, t, sys.threads[t]);
  }

  /** Administrators agree: any two successes under one key, in whatever order they came about, answer requests
      that agree on action, actor, generation and target, or scope and expiry, and name the same principal. */
  lemma SuccessesAgree(world: World, home: Id, start: System, events: seq<Event>, t: nat, u: nat)
    requires Initial(home, start)
    requires var sys := Run(world, home, start, events);
             && t in sys.threads && u in sys.threads && sys.threads[t].request.key == sys.threads[u].request.key
             && Succeeded(sys.threads[t]) && Succeeded(sys.threads[u])
    ensures var sys := Run(world, home, start, events);
            var a, b := sys.threads[t], sys.threads[u];
            && a.phase.outcome.value.principal == b.phase.outcome.value.principal
            && a.request.action == b.request.action && a.request.actor.principal == b.request.actor.principal
            && a.request.expected == b.request.expected
            && (a.request.action.Create? ==> a.request.scope == b.request.scope && a.request.expiry == b.request.expiry)
            && (!a.request.action.Create? ==> a.request.target == b.request.target)
  {
    EverySuccessIsPublished(world, home, start, events, t);
    EverySuccessIsPublished(world, home, start, events, u);
    var sys := Run(world, home, start, events);
    ScopesRoundTrip(sys.catalog.transactions[sys.threads[t].request.key].fields.scope, sys.threads[t].request.scope);
    ScopesRoundTrip(sys.catalog.transactions[sys.threads[t].request.key].fields.scope, sys.threads[u].request.scope);
  }

  predicate Succeeded(th: Thread) {
    th.phase.Done? && th.phase.outcome.Ok?
  }

  predicate HoldsSecret(th: Thread) {
    th.phase.Done? && th.phase.outcome.Ok? && th.phase.outcome.value.secret.Some?
  }

  /** Each tenant's generation is its initial one plus the number of its committed mutations. */
  lemma GenerationsCount(world: World, home: Id, start: System, events: seq<Event>, i: nat, who: Option<Id>)
    requires Initial(home, start) && i < |Run(world, home, start, events).catalog.history|
    ensures var c := Run(world, home, start, events).catalog;
            && c.history[i].frontier <= |c.audit|
            && RingOf(c.history[i].objects, who).generation
               == RingOf(start.catalog.history[0].objects, who).generation + Mutations(c.audit[..c.history[i].frontier], who)
  {
    InitialIsOk(world, home, start);
    RunIsOk(world, home, start, events);
    var c := Run(world, home, start, events).catalog;
    assert SnapshotOk(home, c.audit, c.history[0], c.history[i]);
    assert c.history[0] == start.catalog.history[0];
  }

  /** Between any two generations no credential disappears, changes scope, expiry or secret, or becomes active
      again, and no receipt changes. */
  lemma CredentialsOnlyAge(world: World, home: Id, start: System, events: seq<Event>, i: nat, j: nat, who: Option<Id>)
    requires Initial(home, start) && i <= j < |Run(world, home, start, events).catalog.history|
    ensures var a, b := At(world, home, start, events, i), At(world, home, start, events, j);
            && RingKept(RingOf(a.objects, who), RingOf(b.objects, who))
            && forall f :: Receipt(f) in a.objects ==> Receipt(f) in b.objects
  {
    ReachableIsOk(world, home, start, events);
    var c := Run(world, home, start, events).catalog;
    assert SnapshotKept(c.history[i], c.history[j]);
  }

  /** Each generation changes at most the one ring its audit record names, and by exactly what it records:
      a rotation appends a successor with its predecessor's scope and expiry and leaves the predecessor as it was. */
  lemma GenerationsStepExactly(world: World, home: Id, start: System, events: seq<Event>, i: nat)
    requires Initial(home, start) && i + 1 < |Run(world, home, start, events).catalog.history|
    ensures var c := Run(world, home, start, events).catalog;
            var a, b := c.history[i], c.history[i + 1];
            && Stepped(c.audit, a, b)
            && (a.frontier < b.frontier && a.frontier < |c.audit| && c.audit[a.frontier].body.ApiKey? ==>
                  Enacted(RingOf(b.objects, c.audit[a.frontier].body.fields.tenant), c.audit[a.frontier].body.fields))
  {
    ReachableIsOk(world, home, start, events);
    var c := Run(world, home, start, events).catalog;
    assert SteppedAt(c.audit, c.history, i);
    var a, b := c.history[i], c.history[i + 1];
    if a.frontier < b.frontier && a.frontier < |c.audit| && c.audit[a.frontier].body.ApiKey? {
      assert SnapshotOk(home, c.audit, c.history[0], b);
      assert RecordOk(world, home, c.audit, a.frontier);
      assert Recorded(c.audit, b.frontier, c.audit[a.frontier].body.fields);
    }
  }
}
