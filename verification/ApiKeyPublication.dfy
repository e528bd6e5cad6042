/** Publications keep the invariant, whoever makes them and wherever they are interrupted. */
module ApiKeyPublication {
  import opened Prelude
  import opened ApiKeys
  import opened ApiKeyCatalog
  import opened ApiKeyProtocol
  import opened ApiKeyInvariant

  ghost function Rebuilt(objects: set<Object>, f: Fields, o: Object): set<Object> {
    WithoutRing(objects, f.tenant) + {o, Receipt(f)}
  }

  /** Replacing a ring leaves a keyed snapshot in which only that ring changed. */
  lemma RebuiltRings(home: Id, s: Snapshot, f: Fields, o: Object, other: Option<Id>)
    requires Keyed(s.objects, home) && Succeeds(home, s, f, o) && f.tenant != Some(home)
    ensures Keyed(Rebuilt(s.objects, f, o), home)
    ensures RingOf(Rebuilt(s.objects, f, o), f.tenant) == o.ring
    ensures other != f.tenant ==> RingOf(Rebuilt(s.objects, f, o), other) == RingOf(s.objects, other)
  {
    var after := Rebuilt(s.objects, f, o);
    var g :| SoleGovernance(s.objects, g) && g.tenant == home && ReadableGovernance(g);
    if f.tenant.None? {
      assert SoleGovernance(after, o);
      RebuiltGovernance(home, s, f, o, other);
    } else {
      assert SoleGovernance(after, g);
      RebuiltKeyring(home, s, f, o, other);
    }
  }

  lemma RebuiltGovernance(home: Id, s: Snapshot, f: Fields, o: Object, other: Option<Id>)
    requires Keyed(s.objects, home) && Succeeds(home, s, f, o) && f.tenant.None?
    requires SoleGovernance(Rebuilt(s.objects, f, o), o)
    ensures Keyed(Rebuilt(s.objects, f, o), home)
    ensures RingOf(Rebuilt(s.objects, f, o), None) == o.ring
    ensures other.Some? ==> RingOf(Rebuilt(s.objects, f, o), other) == RingOf(s.objects, other)
  {
    var after := Rebuilt(s.objects, f, o);
    forall k | k in after && k.Keyring?
      ensures ReadableKeyring(k) && k.tenant != home && SoleKeyring(after, k.tenant, k)
    {
      assert SoleKeyring(s.objects, k.tenant, k);
    }
    if other.Some? {
      SameKeyrings(s.objects, after, other.value);
    }
  }

  lemma RebuiltKeyring(home: Id, s: Snapshot, f: Fields, o: Object, other: Option<Id>)
    requires Keyed(s.objects, home) && Succeeds(home, s, f, o) && f.tenant.Some? && f.tenant != Some(home)
    ensures Keyed(Rebuilt(s.objects, f, o), home)
    ensures RingOf(Rebuilt(s.objects, f, o), f.tenant) == o.ring
    ensures other != f.tenant ==> RingOf(Rebuilt(s.objects, f, o), other) == RingOf(s.objects, other)
  {
    var after := Rebuilt(s.objects, f, o);
    var g :| SoleGovernance(s.objects, g) && g.tenant == home && ReadableGovernance(g);
    assert SoleGovernance(after, g);
    assert SoleKeyring(after, f.tenant.value, o);
    forall k | k in after && k.Keyring?
      ensures ReadableKeyring(k) && k.tenant != home && SoleKeyring(after, k.tenant, k)
    {
      assert k != o ==> SoleKeyring(s.objects, k.tenant, k);
    }
    if other.Some? && other != f.tenant {
      SameKeyrings(s.objects, after, other.value);
    }
  }

  lemma SameKeyrings(before: set<Object>, after: set<Object>, tenant: Id)
    requires forall o :: o in before && o.Keyring? && o.tenant == tenant ==> o in after
    requires forall o :: o in after && o.Keyring? && o.tenant == tenant ==> o in before
    ensures RingOf(after, Some(tenant)) == RingOf(before, Some(tenant))
  {
    forall k
      ensures SoleKeyring(before, tenant, k) <==> SoleKeyring(after, tenant, k)
    {
    }
  }

  /** The new generation keeps everything the old one held. */
  lemma RebuiltKeeps(home: Id, s: Snapshot, f: Fields, o: Object, registered: set<Id>)
    requires Keyed(s.objects, home) && Succeeds(home, s, f, o) && f.tenant != Some(home) && f.position == s.frontier + 1
    ensures SnapshotKept(s, Snapshot(Rebuilt(s.objects, f, o), f.position, registered))
  {
    forall who
      ensures RingKept(RingOf(s.objects, who), RingOf(Rebuilt(s.objects, f, o), who))
    {
      RebuiltRings(home, s, f, o, who);
    }
  }

  lemma RecordedGrows(audit: seq<Record>, frontier: nat, r: Record, f: Fields)
    requires frontier <= |audit|
    ensures Recorded(audit, frontier, f) <==> Recorded(audit + [r], frontier, f)
  {
    if 1 <= f.position <= frontier {
      assert (audit + [r])[f.position - 1] == audit[f.position - 1];
    }
  }

  /** What is true of a snapshot does not depend on later audit records. */
  lemma SnapshotStaysOk(home: Id, audit: seq<Record>, r: Record, origin: Snapshot, s: Snapshot)
    requires SnapshotOk(home, audit, origin, s)
    ensures SnapshotOk(home, audit + [r], origin, s)
  {
    forall f
      ensures Recorded(audit, s.frontier, f) <==> Recorded(audit + [r], s.frontier, f)
    {
      RecordedGrows(audit, s.frontier, r, f);
    }
    assert (audit + [r])[..s.frontier] == audit[..s.frontier];
  }

  lemma NewReceipts(audit: seq<Record>, s: Snapshot, f: Fields, o: Object, registered: set<Id>)
    requires ReceiptsAgree(audit, s) && s.frontier == |audit| && f.position == s.frontier + 1 && !o.Receipt?
    ensures ReceiptsAgree(audit + [Record(f.key, ApiKey(f))], Snapshot(Rebuilt(s.objects, f, o), f.position, registered))
  {
    var longer := audit + [Record(f.key, ApiKey(f))];
    forall g
      ensures Receipt(g) in Rebuilt(s.objects, f, o) <==> Recorded(longer, f.position, g)
    {
      assert Receipt(g) in s.objects <==> Recorded(audit, s.frontier, g);
      RecordedGrows(audit, s.frontier, Record(f.key, ApiKey(f)), g);
      assert longer[|audit|].body == ApiKey(f);
    }
  }

  lemma NewEnacted(home: Id, audit: seq<Record>, s: Snapshot, f: Fields, o: Object, registered: set<Id>)
    requires Keyed(s.objects, home) && AllEnacted(audit, s) && s.frontier == |audit| && f.position == s.frontier + 1
    requires Succeeds(home, s, f, o) && f.tenant != Some(home)
    ensures AllEnacted(audit + [Record(f.key, ApiKey(f))], Snapshot(Rebuilt(s.objects, f, o), f.position, registered))
  {
    var longer := audit + [Record(f.key, ApiKey(f))];
    forall g | Recorded(longer, f.position, g)
      ensures Enacted(RingOf(Rebuilt(s.objects, f, o), g.tenant), g)
    {
      RebuiltRings(home, s, f, o, g.tenant);
      RecordedGrows(audit, s.frontier, Record(f.key, ApiKey(f)), g);
      if g.position <= s.frontier {
        if g.tenant == f.tenant {
          EnactedStays(RingOf(s.objects, f.tenant), o.ring, g);
        }
      } else {
        assert longer[|audit|].body == ApiKey(f);
      }
    }
  }

  lemma NewCounted(home: Id, audit: seq<Record>, origin: Snapshot, s: Snapshot, f: Fields, o: Object, registered: set<Id>)
    requires Keyed(s.objects, home) && Counted(audit, origin, s) && s.frontier == |audit| && f.position == s.frontier + 1
    requires Succeeds(home, s, f, o) && f.tenant != Some(home)
    ensures Counted(audit + [Record(f.key, ApiKey(f))], origin, Snapshot(Rebuilt(s.objects, f, o), f.position, registered))
  {
    var longer := audit + [Record(f.key, ApiKey(f))];
    assert longer[..f.position] == longer && longer[..|audit|] == audit && audit[..s.frontier] == audit;
    forall who
      ensures RingOf(Rebuilt(s.objects, f, o), who).generation == RingOf(origin.objects, who).generation + Mutations(longer, who)
    {
      RebuiltRings(home, s, f, o, who);
    }
  }

  lemma NewStepped(home: Id, audit: seq<Record>, s: Snapshot, f: Fields, o: Object, registered: set<Id>)
    requires Keyed(s.objects, home) && s.frontier == |audit| && f.position == s.frontier + 1
    requires Succeeds(home, s, f, o) && f.tenant != Some(home)
    ensures Stepped(audit + [Record(f.key, ApiKey(f))], s, Snapshot(Rebuilt(s.objects, f, o), f.position, registered))
  {
    forall who
      ensures who == f.tenant ==> RingOf(Rebuilt(s.objects, f, o), who) == o.ring
      ensures who != f.tenant ==> RingOf(Rebuilt(s.objects, f, o), who) == RingOf(s.objects, who)
    {
      RebuiltRings(home, s, f, o, who);
    }
  }

  /** A sound proposal leads from a good snapshot to a good snapshot. */
  lemma NewSnapshotOk(world: World, home: Id, audit: seq<Record>, origin: Snapshot, s: Snapshot, key: Id, p: Proposal,
                      registered: set<Id>)
    requires SnapshotOk(home, audit, origin, s) && s.frontier == |audit| && Sound(world, home, s, key, p)
    ensures SnapshotOk(home, audit + [Record(key, ApiKey(p.fields))], origin, Snapshot(p.objects, p.fields.position, registered))
    ensures SnapshotKept(s, Snapshot(p.objects, p.fields.position, registered))
    ensures Stepped(audit + [Record(key, ApiKey(p.fields))], s, Snapshot(p.objects, p.fields.position, registered))
  {
    var f := p.fields;
    var o :| Succeeds(home, s, f, o) && p.objects == Rebuilt(s.objects, f, o);
    RebuiltRings(home, s, f, o, None);
    NewReceipts(audit, s, f, o, registered);
    NewEnacted(home, audit, s, f, o, registered);
    NewCounted(home, audit, origin, s, f, o, registered);
    RebuiltKeeps(home, s, f, o, registered);
    NewStepped(home, audit, s, f, o, registered);
  }

  lemma AllOkGrows(home: Id, audit: seq<Record>, longer: seq<Record>, history: seq<Snapshot>, s: Snapshot)
    requires |history| > 0 && AllOk(home, audit, history)
    requires longer == audit || (|longer| == |audit| + 1 && longer == audit + [longer[|audit|]])
    requires SnapshotOk(home, longer, history[0], s)
    ensures AllOk(home, longer, history + [s])
  {
    var after := history + [s];
    forall i | 0 <= i < |after|
      ensures SnapshotOk(home, longer, after[0], after[i])
    {
      if i < |history| && longer != audit {
        SnapshotStaysOk(home, audit, longer[|audit|], history[0], history[i]);
      }
    }
  }

  lemma AllKeptGrows(history: seq<Snapshot>, s: Snapshot)
    requires |history| > 0 && AllKept(history) && SnapshotKept(history[|history| - 1], s)
    ensures AllKept(history + [s])
  {
    var after := history + [s];
    forall i, j | 0 <= i <= j < |after|
      ensures SnapshotKept(after[i], after[j])
    {
      if j == |history| {
        if i < j {
          SnapshotKeptTransitive(history[i], history[|history| - 1], s);
        } else {
          KeptReflexive(s);
        }
      }
    }
  }

  lemma AllSteppedGrows(audit: seq<Record>, longer: seq<Record>, history: seq<Snapshot>, s: Snapshot)
    requires |history| > 0 && AllStepped(audit, history) && audit <= longer
    requires history[|history| - 1].frontier <= s.frontier <= |longer| && Stepped(longer, history[|history| - 1], s)
    ensures AllStepped(longer, history + [s])
  {
    var after := history + [s];
    forall i: nat
      ensures SteppedAt(longer, after, i)
    {
      if i + 1 < |history| {
        assert SteppedAt(audit, history, i);
        StaysStepped(audit, longer, history[i], history[i + 1]);
      }
    }
  }

  lemma HistoryGrows(home: Id, audit: seq<Record>, longer: seq<Record>, history: seq<Snapshot>, s: Snapshot)
    requires |history| > 0 && HistoryOk(home, audit, history)
    requires longer == audit || (|longer| == |audit| + 1 && longer == audit + [longer[|audit|]])
    requires SnapshotOk(home, longer, history[0], s) && SnapshotKept(history[|history| - 1], s)
    requires Stepped(longer, history[|history| - 1], s)
    ensures HistoryOk(home, longer, history + [s])
  {
    AllOkGrows(home, audit, longer, history, s);
    AllKeptGrows(history, s);
    AllSteppedGrows(audit, longer, history, s);
  }

  lemma StaysStepped(audit: seq<Record>, longer: seq<Record>, a: Snapshot, b: Snapshot)
    requires Stepped(audit, a, b) && a.frontier <= b.frontier <= |audit| && audit <= longer
    ensures Stepped(longer, a, b)
  {
  }

  lemma KeptReflexive(s: Snapshot)
    ensures SnapshotKept(s, s)
  {
  }

  lemma AuditGrows(world: World, home: Id, audit: seq<Record>, transactions: map<Id, Outcome>, r: Record, o: Outcome)
    requires AuditOk(world, home, audit, transactions) && r.key !in transactions
    requires r.body.ApiKey? ==> r.body.fields.position == |audit| + 1 && r.body.fields.key == r.key
                                && ProperFields(world, home, r.body.fields)
    requires r.body.ApiKey? ==> o.Published? && o.fields == r.body.fields
    ensures AuditOk(world, home, audit + [r], transactions[r.key := o])
  {
    var longer := audit + [r];
    var more := transactions[r.key := o];
    forall p | 0 <= p < |longer|
      ensures Outcomes(longer[p], more)
    {
      assert p < |audit| ==> Outcomes(audit[p], transactions);
    }
    forall p, q | 0 <= p < q < |longer|
      ensures longer[p].key != longer[q].key
    {
      assert Outcomes(audit[p], transactions);
    }
    forall p | 0 <= p < |longer|
      ensures RecordOk(world, home, longer, p)
    {
      assert p < |audit| ==> RecordOk(world, home, audit, p);
    }
  }

  /** Every outcome and every staged proposal stays good while the Catalog grows around it. */
  lemma OthersStayOk(world: World, home: Id, c: Catalog, d: Catalog, key: Id)
    requires TransactionsOk(world, home, c)
    requires c.history <= d.history && c.audit <= d.audit
    requires key in d.transactions ==> OutcomeOk(d, key)
    requires key in d.staged ==> StagedOk(world, home, d, key)
    requires d.transactions == c.transactions || (key in d.transactions && d.transactions == c.transactions[key := d.transactions[key]])
    requires d.staged == c.staged || (key in d.staged && d.staged == c.staged[key := d.staged[key]])
    ensures TransactionsOk(world, home, d)
  {
    forall k | k in d.transactions
      ensures OutcomeOk(d, k)
    {
      assert k != key ==> OutcomeOk(c, k);
    }
    forall k | k in d.staged
      ensures StagedOk(world, home, d, k)
    {
      assert k != key ==> StagedOk(world, home, c, k);
    }
  }

  lemma PublishedIsOk(world: World, home: Id, c: Catalog, key: Id, p: Proposal)
    requires Standing(c) && TransactionsOk(world, home, c) && c.history[Current(c)].frontier == |c.audit|
    requires p.basis == Current(c) && Sound(world, home, c.history[Current(c)], key, p)
    ensures TransactionsOk(world, home, Publish(c, key, p))
  {
    var d := Publish(c, key, p);
    assert d.audit[|c.audit|].body == ApiKey(p.fields);
    assert d.history[p.basis] == c.history[p.basis];
    OthersStayOk(world, home, c, d, key);
  }

  lemma PublishedHistoryOk(world: World, home: Id, c: Catalog, key: Id, p: Proposal)
    requires Standing(c) && HistoryOk(home, c.audit, c.history) && c.history[Current(c)].frontier == |c.audit|
    requires Sound(world, home, c.history[Current(c)], key, p)
    ensures HistoryOk(home, Publish(c, key, p).audit, Publish(c, key, p).history)
  {
    SoundGrows(world, home, c.audit, c.history, key, p, c.history[Current(c)].registered);
  }

  lemma SoundGrows(world: World, home: Id, audit: seq<Record>, history: seq<Snapshot>, key: Id, p: Proposal, registered: set<Id>)
    requires |history| > 0 && HistoryOk(home, audit, history)
    requires history[|history| - 1].frontier == |audit| && Sound(world, home, history[|history| - 1], key, p)
    ensures HistoryOk(home, audit + [Record(key, ApiKey(p.fields))],
                      history + [Snapshot(p.objects, p.fields.position, registered)])
  {
    var longer, t := audit + [Record(key, ApiKey(p.fields))], Snapshot(p.objects, p.fields.position, registered);
    NewSnapshotOk(world, home, audit, history[0], history[|history| - 1], key, p, registered);
    HistoryGrows(home, audit, longer, history, t);
  }

  lemma PublishedAuditOk(world: World, home: Id, c: Catalog, key: Id, p: Proposal)
    requires Standing(c) && AuditOk(world, home, c.audit, c.transactions) && key !in c.transactions
    requires c.history[Current(c)].frontier == |c.audit| && Sound(world, home, c.history[Current(c)], key, p)
    ensures AuditOk(world, home, Publish(c, key, p).audit, Publish(c, key, p).transactions)
  {
    AuditGrows(world, home, c.audit, c.transactions, Record(key, ApiKey(p.fields)), Published(p.objects, p.fields));
  }

  /** Publishing a sound proposal over the current generation keeps the invariant. */
  lemma PublishKeeps(world: World, home: Id, c: Catalog, key: Id, p: Proposal)
    requires Inv(world, home, c) && key !in c.transactions
    requires p.basis == Current(c) && Sound(world, home, c.history[Current(c)], key, p)
    ensures Inv(world, home, Publish(c, key, p))
  {
    PublishedHistoryOk(world, home, c, key, p);
    PublishedAuditOk(world, home, c, key, p);
    PublishedIsOk(world, home, c, key, p);
  }

  /** What another administrator's publication adds. */
  ghost predicate Appended(c: Catalog, d: Catalog, key: Id, objects: set<Object>, intent: Option<Bytes>)
    requires Standing(c)
  {
    && |d.history| == |c.history| + 1 && d.history == c.history + [d.history[|c.history|]]
    && d.history[|c.history|].objects == objects && d.history[|c.history|].frontier == |d.audit|
    && d.audit == (if intent.Some? then c.audit + [Record(key, Foreign(intent.value))] else c.audit)
    && d.transactions == c.transactions[key := PublishedElsewhere] && d.staged == c.staged[key := OpenedElsewhere]
    && Standing(d) && c.visible <= d.visible
  }

  lemma ElsewhereAppends(c: Catalog, key: Id, objects: set<Object>, registered: set<Id>, intent: Option<Bytes>, acknowledged: bool)
    requires Standing(c) && c.history[Current(c)].frontier == |c.audit| < U64_MAX
    ensures Appended(c, PublishElsewhere(c, key, objects, registered, intent, acknowledged), key, objects, intent)
  {
  }

  lemma AppendedHistoryOk(home: Id, c: Catalog, d: Catalog, key: Id, objects: set<Object>, intent: Option<Bytes>)
    requires Standing(c) && HistoryOk(home, c.audit, c.history) && c.history[Current(c)].frontier == |c.audit|
    requires Appended(c, d, key, objects, intent) && KeepsKeys(c.history[Current(c)].objects, objects, home)
    ensures HistoryOk(home, d.audit, d.history)
  {
    ElsewhereSnapshotOk(home, c.audit, d.audit, c.history[0], c.history[Current(c)], d.history[|c.history|]);
    HistoryGrows(home, c.audit, d.audit, c.history, d.history[|c.history|]);
  }

  lemma AppendedKeeps(world: World, home: Id, c: Catalog, d: Catalog, key: Id, objects: set<Object>, intent: Option<Bytes>)
    requires Inv(world, home, c) && key !in c.transactions && key !in c.staged
    requires Appended(c, d, key, objects, intent) && KeepsKeys(c.history[Current(c)].objects, objects, home)
    ensures Inv(world, home, d)
  {
    AppendedHistoryOk(home, c, d, key, objects, intent);
    ElsewhereAuditOk(world, home, c, key, intent);
    OthersStayOk(world, home, c, d, key);
  }

  /** Another administrator's publication keeps it too. */
  lemma PublishElsewhereKeeps(world: World, home: Id, c: Catalog, key: Id, objects: set<Object>, registered: set<Id>,
                              intent: Option<Bytes>, acknowledged: bool)
    requires Inv(world, home, c) && key !in c.transactions && key !in c.staged
    requires c.history[Current(c)].frontier < U64_MAX && KeepsKeys(c.history[Current(c)].objects, objects, home)
    ensures Inv(world, home, PublishElsewhere(c, key, objects, registered, intent, acknowledged))
  {
    ElsewhereAppends(c, key, objects, registered, intent, acknowledged);
    AppendedKeeps(world, home, c, PublishElsewhere(c, key, objects, registered, intent, acknowledged), key, objects, intent);
  }

  lemma ElsewhereAuditOk(world: World, home: Id, c: Catalog, key: Id, intent: Option<Bytes>)
    requires AuditOk(world, home, c.audit, c.transactions) && key !in c.transactions
    ensures AuditOk(world, home, if intent.Some? then c.audit + [Record(key, Foreign(intent.value))] else c.audit,
                    c.transactions[key := PublishedElsewhere])
  {
    if intent.Some? {
      AuditGrows(world, home, c.audit, c.transactions, Record(key, Foreign(intent.value)), PublishedElsewhere);
    } else {
      var more := c.transactions[key := PublishedElsewhere];
      forall p | 0 <= p < |c.audit|
        ensures Outcomes(c.audit[p], more)
      {
        assert Outcomes(c.audit[p], c.transactions);
      }
    }
  }

  lemma ElsewhereSnapshotOk(home: Id, audit: seq<Record>, longer: seq<Record>, origin: Snapshot, s: Snapshot, t: Snapshot)
    requires SnapshotOk(home, audit, origin, s) && s.frontier == |audit| && t.frontier == |longer|
    requires KeepsKeys(s.objects, t.objects, home)
    requires longer == audit || (|longer| == |audit| + 1 && longer == audit + [longer[|audit|]] && longer[|audit|].body.Foreign?)
    ensures SnapshotOk(home, longer, origin, t) && SnapshotKept(s, t) && Stepped(longer, s, t)
  {
    forall who: Option<Id>
      ensures RingOf(t.objects, who) == RingOf(s.objects, who)
    {
      if who.Some? {
        SameKeyrings(s.objects, t.objects, who.value);
      }
    }
    forall f
      ensures Recorded(longer, t.frontier, f) <==> Recorded(audit, s.frontier, f)
    {
    }
    forall who: Option<Id>
      ensures Mutations(longer[..t.frontier], who) == Mutations(audit[..s.frontier], who)
    {
      assert longer[..t.frontier] == longer && audit[..s.frontier] == audit;
      assert longer != audit ==> longer[..|audit|] == audit;
    }
  }

  lemma RecoveredKeeps(world: World, home: Id, c: Catalog)
    requires Inv(world, home, c)
    ensures Inv(world, home, Recovered(c))
  {
    OthersStayOk(world, home, c, Recovered(c), 1);
  }

  /** What a commit can leave: nothing new, an interrupted preparation, or the publication. */
  lemma CommitCases(c: Catalog, key: Id, p: Proposal, fault: Fault)
    requires Standing(c)
    ensures var now, after := Recovered(c), Commit(c, key, p, fault).0;
            || after == c
            || after == now
            || (&& key !in now.transactions && p.basis == Current(now) && !StagingConflicts(now, key, p)
                && (|| after == Publish(now, key, p)
                    || after == Recovered(Publish(now, key, p))
                    || after == now.(staged := now.staged[key := LeftInStaging(now, key, p, fault)])))
  {
  }

  lemma StagingIsOk(world: World, home: Id, c: Catalog, key: Id, p: Proposal, fault: Fault)
    requires Standing(c) && TransactionsOk(world, home, c) && key !in c.transactions && p.basis == Current(c)
    requires Sound(world, home, c.history[Current(c)], key, p) && !StagingConflicts(c, key, p)
    ensures TransactionsOk(world, home, c.(staged := c.staged[key := LeftInStaging(c, key, p, fault)]))
  {
    var left := c.(staged := c.staged[key := LeftInStaging(c, key, p, fault)]);
    assert key in c.staged ==> StagedOk(world, home, c, key);
    assert StagedOk(world, home, left, key);
    OthersStayOk(world, home, c, left, key);
  }

  /** A commit keeps the invariant under every fault. */
  lemma CommitKeeps(world: World, home: Id, c: Catalog, key: Id, p: Proposal, fault: Fault)
    requires Inv(world, home, c) && p.basis < |c.history| && Sound(world, home, c.history[p.basis], key, p)
    ensures Inv(world, home, Commit(c, key, p, fault).0)
  {
    CommitCases(c, key, p, fault);
    RecoveredKeeps(world, home, c);
    var now, after := Recovered(c), Commit(c, key, p, fault).0;
    if after != c && after != now {
      EffectKeeps(world, home, now, key, p, fault);
    }
  }

  lemma EffectKeeps(world: World, home: Id, c: Catalog, key: Id, p: Proposal, fault: Fault)
    requires Inv(world, home, c) && p.basis == Current(c) && Sound(world, home, c.history[p.basis], key, p)
    requires key !in c.transactions && !StagingConflicts(c, key, p)
    ensures Inv(world, home, Publish(c, key, p)) && Inv(world, home, Recovered(Publish(c, key, p)))
    ensures Inv(world, home, c.(staged := c.staged[key := LeftInStaging(c, key, p, fault)]))
  {
    PublishKeeps(world, home, c, key, p);
    RecoveredKeeps(world, home, Publish(c, key, p));
    StagingIsOk(world, home, c, key, p, fault);
  }

  /** What resuming can leave: nothing new, or the publication of what was staged. */
  lemma ResumeCases(c: Catalog, key: Id, digest: Word, fault: Fault)
    requires Standing(c)
    ensures var now, after := Recovered(c), Resume(c, key, digest, fault).0;
            || after == c
            || after == now
            || (&& key in now.staged && now.staged[key].Complete? && now.staged[key].p.basis == Current(now)
                && (|| after == Publish(now, key, now.staged[key].p)
                    || after == Recovered(Publish(now, key, now.staged[key].p))))
  {
  }

  /** So does resuming a prepared transaction. */
  lemma ResumeKeeps(world: World, home: Id, c: Catalog, key: Id, digest: Word, fault: Fault)
    requires Inv(world, home, c)
    ensures Inv(world, home, Resume(c, key, digest, fault).0)
  {
    ResumeCases(c, key, digest, fault);
    RecoveredKeeps(world, home, c);
    var now, after := Recovered(c), Resume(c, key, digest, fault).0;
    if after != c && after != now {
      assert StagedOk(world, home, now, key);
      PublishKeeps(world, home, now, key, now.staged[key].p);
      RecoveredKeeps(world, home, Publish(now, key, now.staged[key].p));
    }
  }
}
