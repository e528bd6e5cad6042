/** The Catalog as the object it is: a commit and a resume update it stage by stage, and an interruption
    leaves behind what the stages before it wrote. */
module ApiKeyStore {
  import opened Prelude
  import opened ApiKeys
  import opened ApiKeyCatalog

  class CatalogStore {
    var history: seq<Snapshot>
    var visible: nat
    var audit: seq<Record>
    var transactions: map<Id, Outcome>
    var staged: map<Id, Staging>

    predicate Valid()
      reads this
    {
      visible < |history|
    }

    function Value(): Catalog
      reads this
    {
      Catalog(history, visible, audit, transactions, staged)
    }

    constructor (opening: Catalog)
      requires Standing(opening)
      ensures Valid() && Value() == opening
    {
      history, visible, audit := opening.history, opening.visible, opening.audit;
      transactions, staged := opening.transactions, opening.staged;
    }

    /** Readers catch up with the last published generation. */
    method Recover()
      requires Valid()
      modifies this`visible
      ensures Valid() && Value() == Recovered(old(Value()))
    {
      visible := |history| - 1;
    }

    /** Opens the transaction's staging directory and completes it, unless it holds another transaction. */
    method PrepareTransaction(key: Id, p: Proposal, fault: Fault) returns (r: Result<(), Failure>)
      requires Valid() && !fault.Refused? && !fault.Unreachable?
      modifies this`staged
      ensures r == Err(IdempotencyConflict) <==> !fault.AfterOpen? && StagingConflicts(old(Value()), key, p)
      ensures r.Err? && r.error.IdempotencyConflict? ==> staged == old(staged)
      ensures fault.AfterOpen? ==>
                r == Err(PersistenceUnavailable) && staged == if key in old(staged) then old(staged) else old(staged)[key := Opened]
      ensures r.Ok? ==> exists artifacts :: staged == old(staged)[key := Complete(p, artifacts)]
      ensures !fault.AfterOpen? && !StagingConflicts(old(Value()), key, p) ==>
                if fault.AfterWrite? || fault.AfterPrepare? then
                  r == Err(PersistenceUnavailable) && staged == old(staged)[key := LeftInStaging(old(Value()), key, p, fault)]
                else r.Ok?
    {
      if key !in staged {
        staged := staged[key := Opened];
      }
      if fault.AfterOpen? {
        return Err(PersistenceUnavailable);
      }
      var found := staged[key];
      if found.OpenedElsewhere? || ((found.Written? || found.Complete?) && found.p != p) {
        return Err(IdempotencyConflict);
      }
      if found.Opened? {
        staged := staged[key := Written(p)];
      }
      if fault.AfterWrite? {
        return Err(PersistenceUnavailable);
      }
      if !found.Complete? {
        staged := staged[key := Complete(p, false)];
      }
      r := if fault.AfterPrepare? then Err(PersistenceUnavailable) else Ok(());
    }

    /** The marker makes a complete transaction a generation. */
    method PublishMarker(key: Id, p: Proposal)
      requires Valid() && key in staged && staged[key] == Complete(p, true)
      modifies this`history, this`audit, this`transactions
      ensures Valid() && Value() == Publish(old(Value()), key, p)
    {
      history := history + [Snapshot(p.objects, p.fields.position, history[|history| - 1].registered)];
      audit := audit + [Record(key, ApiKey(p.fields))];
      transactions := transactions[key := Published(p.objects, p.fields)];
      assert old(staged)[key := Complete(p, true)] == staged;
    }

    method CommitPrepared(key: Id, p: Proposal, fault: Fault) returns (r: Result<U64, Failure>)
      requires Valid()
      modifies this
      ensures Valid() && (Value(), r) == Commit(old(Value()), key, p, fault)
    {
      if fault.Refused? || fault.Unreachable? {
        return Err(if fault.Refused? then CapacityExceeded else PersistenceUnavailable);
      }
      Recover();
      if key in transactions {
        if transactions[key] != Published(p.objects, p.fields) {
          return Err(IdempotencyConflict);
        }
        return if fault.NoFault? then Ok(p.fields.position) else Err(PersistenceUnavailable);
      }
      if p.basis != |history| - 1 {
        return Err(StaleGeneration);
      }
      label recovered:
      var prepared := PrepareTransaction(key, p, fault);
      if prepared.Err? {
        return Err(prepared.error);
      }
      staged := staged[key := Complete(p, true)];
      assert staged == old@recovered(staged)[key := Complete(p, true)];
      if fault.AfterArtifacts? {
        return Err(PersistenceUnavailable);
      }
      PublishMarker(key, p);
      if fault.AfterPublish? {
        return Err(PersistenceUnavailable);
      }
      Recover();
      r := Ok(p.fields.position);
    }

    method ResumePrepared(key: Id, digest: Word, fault: Fault) returns (r: Result<Resolution, Failure>)
      requires Valid()
      modifies this
      ensures Valid() && (Value(), r) == Resume(old(Value()), key, digest, fault)
    {
      if fault.Refused? || fault.Unreachable? {
        return Err(PersistenceUnavailable);
      }
      Recover();
      if key !in staged {
        return Ok(Absent);
      }
      if !staged[key].Complete? {
        return Ok(Unavailable);
      }
      var p := staged[key].p;
      if p.fields.digest != digest {
        return Err(IdempotencyConflict);
      }
      if p.basis != |history| - 1 || p.fields.position != history[|history| - 1].frontier + 1 {
        return Ok(Unavailable);
      }
      if !staged[key].artifacts || !(fault.NoFault? || fault.AfterPublish?) {
        return Err(PersistenceUnavailable);
      }
      PublishMarker(key, p);
      if fault.AfterPublish? {
        return Err(PersistenceUnavailable);
      }
      Recover();
      r := Ok(Resumed(p.fields));
    }
  }
}
