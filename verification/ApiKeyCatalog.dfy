/** The Catalog as API-key administration uses it: pinned generations, one audit chain, published
    transactions, and transactions prepared in staging. */
module ApiKeyCatalog {
  import opened Prelude
  import opened ApiKeys

  /** One published generation. Its identity is its place in the history, so identities are never reused. */
  datatype Snapshot = Snapshot(objects: set<Object>, frontier: U64, registered: set<Id>)

  datatype Body = ApiKey(fields: Fields) | Foreign(intent: Bytes)

  /** An audit record stands at position one more than its index. */
  datatype Record = Record(key: Id, body: Body)

  /** A proposed generation over the pinned `basis`. The fields stand for its receipt and audit intent,
      and their digest is the request digest it is prepared under. */
  datatype Proposal = Proposal(basis: nat, objects: set<Object>, fields: Fields)

  /** A transaction's staging directory: created, holding a prepared commit but not yet its transaction
      digest, complete with or without its artifacts, or opened by another administrator. */
  datatype Staging = Opened | Written(p: Proposal) | Complete(p: Proposal, artifacts: bool) | OpenedElsewhere

  datatype Outcome = Published(objects: set<Object>, fields: Fields) | PublishedElsewhere

  /** `history` is durable. `visible` is the generation readers pin: it lags after a publication whose
      acknowledgement was lost, until the next commit or resume recovers it. */
  datatype Catalog = Catalog(history: seq<Snapshot>, visible: nat, audit: seq<Record>, transactions: map<Id, Outcome>,
                             staged: map<Id, Staging>)

  predicate Standing(c: Catalog) {
    c.visible < |c.history|
  }

  function Current(c: Catalog): nat
    requires Standing(c)
  {
    |c.history| - 1
  }

  function Pinned(c: Catalog): Snapshot
    requires Standing(c)
  {
    c.history[c.visible]
  }

  function Recovered(c: Catalog): (r: Catalog)
    requires Standing(c)
    ensures Standing(r)
  {
    c.(visible := Current(c))
  }

  /** Where an operation is interrupted. */
  datatype Fault =
    | NoFault
    | Refused
    | Unreachable
    | AfterOpen
    | AfterWrite
    | AfterPrepare
    | AfterArtifacts
    | AfterPublish

  /** The atomic publication of a proposal over the current generation. */
  function Publish(c: Catalog, key: Id, p: Proposal): (r: Catalog)
    requires Standing(c)
    ensures Standing(r)
  {
    c.(history := c.history + [Snapshot(p.objects, p.fields.position, c.history[Current(c)].registered)],
       audit := c.audit + [Record(key, ApiKey(p.fields))],
       transactions := c.transactions[key := Published(p.objects, p.fields)],
       staged := c.staged[key := Complete(p, true)])
  }

  /** Whether preparing `p` meets a different transaction in its staging directory. */
  predicate StagingConflicts(c: Catalog, key: Id, p: Proposal) {
    key in c.staged &&
    match c.staged[key]
    case Opened => false
    case Written(q) => q != p
    case Complete(q, _) => q != p
    case OpenedElsewhere => true
  }

  /** What an interrupted preparation leaves in staging. */
  function LeftInStaging(c: Catalog, key: Id, p: Proposal, fault: Fault): Staging {
    var before := if key in c.staged then c.staged[key] else Opened;
    match fault
    case AfterWrite => if before.Complete? then before else Written(p)
    case AfterPrepare => if before.Complete? then before else Complete(p, false)
    case AfterArtifacts => Complete(p, true)
    case _ => before
  }

  /** Compare-and-swap publication of a prepared administrative transaction. */
  function Commit(c: Catalog, key: Id, p: Proposal, fault: Fault): (r: (Catalog, Result<U64, Failure>))
    requires Standing(c)
    ensures Standing(r.0) && |c.history| <= |r.0.history|
  {
    if fault.Refused? then (c, Err(CapacityExceeded))
    else if fault.Unreachable? then (c, Err(PersistenceUnavailable))
    else
      var now := Recovered(c);
      if key in now.transactions then
        if now.transactions[key] != Published(p.objects, p.fields) then (now, Err(IdempotencyConflict))
        else if !fault.NoFault? then (now, Err(PersistenceUnavailable))
        else (now, Ok(p.fields.position))
      else if p.basis != Current(now) then (now, Err(StaleGeneration))
      else if fault.AfterOpen? then
        (if key in now.staged then now else now.(staged := now.staged[key := Opened]), Err(PersistenceUnavailable))
      else if StagingConflicts(now, key, p) then (now, Err(IdempotencyConflict))
      else
        match fault
        case NoFault => (Recovered(Publish(now, key, p)), Ok(p.fields.position))
        case AfterPublish => (Publish(now, key, p), Err(PersistenceUnavailable))
        case _ => (now.(staged := now.staged[key := LeftInStaging(now, key, p, fault)]), Err(PersistenceUnavailable))
  }

  datatype Resolution = Absent | Unavailable | Resumed(fields: Fields)

  /** Publishes a transaction that was prepared under the same request, if its basis is still current. */
  function Resume(c: Catalog, key: Id, digest: Word, fault: Fault): (r: (Catalog, Result<Resolution, Failure>))
    requires Standing(c)
    ensures Standing(r.0) && |c.history| <= |r.0.history|
  {
    if fault.Refused? || fault.Unreachable? then (c, Err(PersistenceUnavailable))
    else
      var now := Recovered(c);
      if key !in now.staged then (now, Ok(Absent))
      else
        match now.staged[key]
        case Complete(p, artifacts) =>
          if p.fields.digest != digest then (now, Err(IdempotencyConflict))
          else if p.basis != Current(now) || p.fields.position != now.history[Current(now)].frontier + 1 then
            (now, Ok(Unavailable))
          else if !artifacts then (now, Err(PersistenceUnavailable))
          else if fault.NoFault? then (Recovered(Publish(now, key, p)), Ok(Resumed(p.fields)))
          else if fault.AfterPublish? then (Publish(now, key, p), Err(PersistenceUnavailable))
          else (now, Err(PersistenceUnavailable))
        case _ => (now, Ok(Unavailable))
  }

  /** Another administrator keeps every receipt and keyring, and the default tenant's credentials. */
  ghost predicate KeepsKeys(before: set<Object>, after: set<Object>, home: Id) {
    && (forall o :: o in before && (o.Receipt? || o.Keyring?) ==> o in after)
    && (forall o :: o in after && (o.Receipt? || o.Keyring?) ==> o in before)
    && Keyed(after, home) && RingOf(after, None) == RingOf(before, None)
  }

  /** A publication by another administrator, with or without an audit record, acknowledged or not. */
  function PublishElsewhere(c: Catalog, key: Id, objects: set<Object>, registered: set<Id>, intent: Option<Bytes>,
                            acknowledged: bool): (r: Catalog)
    requires Standing(c) && c.history[Current(c)].frontier < U64_MAX
    ensures Standing(r)
  {
    var last := c.history[Current(c)];
    var frontier := if intent.Some? then last.frontier + 1 else last.frontier;
    var after := c.(history := c.history + [Snapshot(objects, frontier, registered)],
                    audit := if intent.Some? then c.audit + [Record(key, Foreign(intent.value))] else c.audit,
                    transactions := c.transactions[key := PublishedElsewhere],
                    staged := c.staged[key := OpenedElsewhere]);
    if acknowledged then Recovered(after) else after
  }
}
