/** Every receipt, keyring and audit record of every run decodes back to the value it was written for. */
module ApiKeyDurability {
  import opened Prelude
  import opened ApiKeys
  import opened ApiKeyCatalog
  import opened ApiKeyProtocol
  import opened ApiKeyInvariant
  import opened ApiKeyRuns
  import opened ApiKeySafety
  import opened ApiKeyReceipt
  import opened ApiKeyKeyring
  import opened ApiKeyAudit

  lemma ReceiptsAreProper(world: World, home: Id, start: System, events: seq<Event>, i: nat, f: Fields)
    requires Initial(home, start) && i < |Run(world, home, start, events).catalog.history|
    requires Receipt(f) in At(world, home, start, events, i).objects
    ensures ProperFields(world, home, f)
  {
    ReachableIsOk(world, home, start, events);
    var c := Run(world, home, start, events).catalog;
    assert SnapshotOk(home, c.audit, c.history[0], c.history[i]);
    ReceiptIsProper(world, home, c, c.history[i], f);
  }

  lemma ReceiptIsProper(world: World, home: Id, c: Catalog, s: Snapshot, f: Fields)
    requires AuditOk(world, home, c.audit, c.transactions) && ReceiptsAgree(c.audit, s) && Receipt(f) in s.objects
    ensures ProperFields(world, home, f)
  {
    assert Recorded(c.audit, s.frontier, f);
    assert RecordOk(world, home, c.audit, f.position - 1);
  }

  lemma ProperFieldsDecode(world: World, home: Id, f: Fields)
    requires ProperFields(world, home, f)
    ensures EncodeReceipt(f).Ok? && DecodeReceipt(EncodeReceipt(f).value) == Ok(f)
    ensures DecodeIntent(EncodeIntent(f), f.key, f.position) == Ok(f)
  {
    ReceiptRoundTrip(f);
    IntentRoundTrip(f);
  }

  lemma ReceiptsDecode(world: World, home: Id, start: System, events: seq<Event>, i: nat, f: Fields)
    requires Initial(home, start) && i < |Run(world, home, start, events).catalog.history|
    requires Receipt(f) in At(world, home, start, events, i).objects
    ensures EncodeReceipt(f).Ok? && DecodeReceipt(EncodeReceipt(f).value) == Ok(f)
    ensures DecodeIntent(EncodeIntent(f), f.key, f.position) == Ok(f)
  {
    ReceiptsAreProper(world, home, start, events, i, f);
    ProperFieldsDecode(world, home, f);
  }

  lemma KeyringsDecode(world: World, home: Id, start: System, events: seq<Event>, i: nat, tenant: Id, ring: Ring)
    requires Initial(home, start) && i < |Run(world, home, start, events).catalog.history|
    requires Keyring(tenant, ring) in At(world, home, start, events, i).objects
    ensures 1 <= |ring.credentials| <= MAX_CREDENTIALS && DistinctPrincipals(ring.credentials)
    ensures Writable(ring) && DecodeKeyring(KeyringForm(tenant, ring)) == Ok((tenant, ring))
    ensures forall other :: Keyring(tenant, other) in At(world, home, start, events, i).objects ==> other == ring
  {
    ReachableIsOk(world, home, start, events);
    var c := Run(world, home, start, events).catalog;
    assert SnapshotOk(home, c.audit, c.history[0], c.history[i]);
    assert ReadableKeyring(Keyring(tenant, ring));
    forall other | Keyring(tenant, other) in c.history[i].objects
      ensures other == ring
    {
      assert SoleKeyring(c.history[i].objects, tenant, Keyring(tenant, ring));
      assert Keyring(tenant, other) == Keyring(tenant, ring);
    }
    forall n | 0 <= n < |ring.credentials|
      ensures ring.credentials[n].expiry != Some(0)
    {
      assert ValidCredential(ring.credentials[n]);
    }
    ProperKeyringRoundTrip(tenant, ring);
  }
}
