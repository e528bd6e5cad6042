/** The loops that read and rebuild the Catalog's byte objects, against the lookups of the protocol. */
module ApiKeyObjects {
  import opened Prelude
  import opened ApiKeys
  import opened ApiKeyReceipt
  import opened ApiKeyKeyring
  import opened ApiKeyCatalog
  import opened ApiKeyProtocol

  predicate Starts(b: Bytes, magic: Bytes) {
    |b| >= |magic| && b[..|magic|] == magic
  }

  function GovernanceMagic(): Bytes {
    Ascii("POSGOV")
  }

  /** The bytes an object is stored as. The governance object's own codec is not modelled beyond its magic. */
  ghost predicate Encodes(b: Bytes, o: Object) {
    match o
    case Receipt(f) => EncodeReceipt(f) == Ok(b)
    case Keyring(tenant, ring) =>
      && Writable(ring) && b == KeyringForm(tenant, ring)
      && forall i :: 0 <= i < |ring.credentials| ==> ring.credentials[i].expiry != Some(0)
    case Governance(_, _, _) => Starts(b, GovernanceMagic())
    case Other(content) =>
      b == content && !Starts(b, ReceiptMagic()) && !Starts(b, KeyringMagic()) && !Starts(b, GovernanceMagic())
  }

  ghost predicate Viewed(objects: seq<Bytes>, view: seq<Object>) {
    && |objects| == |view| && Distinct(view)
    && forall i {:trigger Encodes(objects[i], view[i])} :: 0 <= i < |view| ==> Encodes(objects[i], view[i])
  }

  /** The fourth byte tells the three magics apart. */
  lemma FourthByte(b: Bytes)
    ensures Starts(b, ReceiptMagic()) ==> |b| >= 6 && b[3] == 'K' as int
    ensures Starts(b, KeyringMagic()) ==> |b| >= 6 && b[3] == 'T' as int
    ensures Starts(b, GovernanceMagic()) ==> |b| >= 6 && b[3] == 'G' as int
  {
    if Starts(b, ReceiptMagic()) {
      assert b[3] == ReceiptMagic()[3];
    }
    if Starts(b, KeyringMagic()) {
      assert b[3] == KeyringMagic()[3];
    }
    if Starts(b, GovernanceMagic()) {
      assert b[3] == GovernanceMagic()[3];
    }
  }

  /** An object's magic says what it is. */
  lemma MagicTells(b: Bytes, o: Object)
    requires Encodes(b, o)
    ensures Starts(b, ReceiptMagic()) <==> o.Receipt?
    ensures Starts(b, KeyringMagic()) <==> o.Keyring?
    ensures Starts(b, GovernanceMagic()) <==> o.Governance?
  {
    FourthByte(b);
    match o {
      case Receipt(f) => ReceiptRoundTrip(f);
      case Keyring(tenant, ring) => ProperKeyringRoundTrip(tenant, ring);
      case Governance(_, _, _) =>
      case Other(_) =>
    }
  }

  lemma ReceiptDecodes(b: Bytes, f: Fields)
    requires Encodes(b, Receipt(f))
    ensures DecodeReceipt(b) == if ValidReceipt(f) then Ok(f) else Err(PersistenceUnavailable)
  {
    ReceiptRoundTrip(f);
  }

  /** What has been found among the first `n` objects. */
  ghost predicate FoundReceipt(view: seq<Object>, n: nat, key: Id, found: Option<Fields>)
    requires n <= |view|
  {
    && (forall i :: 0 <= i < n && view[i].Receipt? ==> ValidReceipt(view[i].fields))
    && (forall i :: 0 <= i < n && view[i].Receipt? && view[i].fields.key == key ==> found == Some(view[i].fields))
    && (found.Some? ==> Receipt(found.value) in view[..n] && found.value.key == key)
  }

  /** Searches every object for the key's receipt; an unreadable or a second one is an error. */
  method FindReceiptIn(objects: seq<Bytes>, ghost view: seq<Object>, key: Id) returns (r: Result<Option<Fields>, Failure>)
    requires Viewed(objects, view)
    ensures r == FindReceipt(Elements(view), key)
  {
    var found: Option<Fields> := None;
    for n := 0 to |objects|
      invariant FoundReceipt(view, n, key, found)
    {
      MagicTells(objects[n], view[n]);
      assert view[n] in Elements(view);
      if Starts(objects[n], ReceiptMagic()) {
        ReceiptDecodes(objects[n], view[n].fields);
        var decoded := DecodeReceipt(objects[n]);
        if decoded.Err? {
          return Err(PersistenceUnavailable);
        }
        if decoded.value.key == key {
          if found.Some? {
            return Err(PersistenceUnavailable);
          }
          found := Some(decoded.value);
        }
      }
      assert view[..n + 1] == view[..n] + [view[n]];
    }
    r := Ok(found);
  }

  lemma KeyringDecodes(b: Bytes, tenant: Id, ring: Ring)
    requires Encodes(b, Keyring(tenant, ring))
    ensures DecodeKeyring(b) == if ReadableKeyring(Keyring(tenant, ring)) then Ok((tenant, ring)) else Err(PersistenceUnavailable)
  {
    ProperKeyringRoundTrip(tenant, ring);
  }

  /** What the loops over keyrings learn about one object. */
  lemma KeyringAt(objects: seq<Bytes>, view: seq<Object>, n: nat)
    requires Viewed(objects, view) && n < |view|
    ensures Starts(objects[n], KeyringMagic()) <==> view[n].Keyring?
    ensures view[n].Keyring? ==>
              DecodeKeyring(objects[n]) == if ReadableKeyring(view[n]) then Ok((view[n].tenant, view[n].ring))
                                           else Err(PersistenceUnavailable)
    ensures view[n] in Elements(view) && view[..n + 1] == view[..n] + [view[n]]
  {
    MagicTells(objects[n], view[n]);
    if view[n].Keyring? {
      KeyringDecodes(objects[n], view[n].tenant, view[n].ring);
    }
  }

  ghost predicate FoundKeyring(view: seq<Object>, n: nat, tenant: Id, found: Option<Ring>)
    requires n <= |view|
  {
    && (forall i :: 0 <= i < n && view[i].Keyring? ==> ReadableKeyring(view[i]))
    && (forall i :: 0 <= i < n && view[i].Keyring? && view[i].tenant == tenant ==> found == Some(view[i].ring))
    && (found.Some? ==> Keyring(tenant, found.value) in view[..n])
  }

  lemma KeyringFound(view: seq<Object>, tenant: Id, found: Option<Ring>)
    requires FoundKeyring(view, |view|, tenant, found)
    ensures FindKeyring(Elements(view), tenant) == Ok(found)
  {
    assert view[..|view|] == view;
    if found.Some? {
      assert SoleKeyring(Elements(view), tenant, Keyring(tenant, found.value));
    }
  }

  lemma SecondKeyring(view: seq<Object>, n: nat, tenant: Id, ring: Ring)
    requires Distinct(view) && n < |view| && Keyring(tenant, ring) in view[..n]
    requires view[n].Keyring? && view[n].tenant == tenant
    ensures FindKeyring(Elements(view), tenant) == Err(PersistenceUnavailable)
  {
    var i :| 0 <= i < n && view[i] == Keyring(tenant, ring);
    assert view[i] in Elements(view) && view[n] in Elements(view) && view[i] != view[n];
  }

  /** Searches every object for the tenant's keyring. */
  method FindKeyringIn(objects: seq<Bytes>, ghost view: seq<Object>, tenant: Id) returns (r: Result<Option<Ring>, Failure>)
    requires Viewed(objects, view)
    ensures r == FindKeyring(Elements(view), tenant)
  {
    var found: Option<Ring> := None;
    for n := 0 to |objects|
      invariant FoundKeyring(view, n, tenant, found)
    {
      KeyringAt(objects, view, n);
      if Starts(objects[n], KeyringMagic()) {
        var decoded := DecodeTenantKeyring(objects[n]);
        if decoded.Err? {
          return Err(decoded.error);
        }
        if decoded.value.0 == tenant {
          if found.Some? {
            SecondKeyring(view, n, tenant, found.value);
            return Err(PersistenceUnavailable);
          }
          found := Some(decoded.value.1);
        }
      }
    }
    KeyringFound(view, tenant, found);
    r := Ok(found);
  }

  /** The object a mutation replaces: the governance object, or the tenant's keyring. */
  predicate Superseded(o: Object, who: Option<Id>) {
    if who.None? then o.Governance? else o.Keyring? && o.tenant == who.value
  }

  /** The bytes of the first `n` objects that are not replaced, unchanged and in order. */
  ghost function KeptBytes(objects: seq<Bytes>, view: seq<Object>, n: nat, who: Option<Id>): seq<Bytes>
    requires n <= |objects| == |view|
  {
    if n == 0 then []
    else
      var front := KeptBytes(objects, view, n - 1, who);
      if Superseded(view[n - 1], who) then front else front + [objects[n - 1]]
  }

  /** The objects kept of the first `n`, with what they are. */
  ghost predicate KeptSoFar(view: seq<Object>, n: nat, who: Option<Id>, kept: seq<Bytes>, after: seq<Object>)
    requires n <= |view|
  {
    && |kept| == |after| && (forall i {:trigger Encodes(kept[i], after[i])} :: 0 <= i < |after| ==> Encodes(kept[i], after[i]))
    && Elements(after) == WithoutRing(Elements(view[..n]), who)
  }

  /** The rebuilt bytes so far. */
  ghost predicate Rebuilding(objects: seq<Bytes>, view: seq<Object>, n: nat, who: Option<Id>, kept: seq<Bytes>, after: seq<Object>)
  {
    n <= |objects| == |view| && KeptSoFar(view, n, who, kept, after) && kept == KeptBytes(objects, view, n, who)
  }

  lemma RebuildNext(objects: seq<Bytes>, view: seq<Object>, n: nat, who: Option<Id>, kept: seq<Bytes>, after: seq<Object>)
    requires Viewed(objects, view) && n < |view| && Rebuilding(objects, view, n, who, kept, after)
    ensures if Superseded(view[n], who) then Rebuilding(objects, view, n + 1, who, kept, after)
            else Rebuilding(objects, view, n + 1, who, kept + [objects[n]], after + [view[n]])
  {
    KeepNext(view, n, who, kept, after, objects[n]);
  }

  lemma KeepNext(view: seq<Object>, n: nat, who: Option<Id>, kept: seq<Bytes>, after: seq<Object>, b: Bytes)
    requires n < |view| && KeptSoFar(view, n, who, kept, after) && Encodes(b, view[n])
    ensures if Superseded(view[n], who) then KeptSoFar(view, n + 1, who, kept, after)
            else KeptSoFar(view, n + 1, who, kept + [b], after + [view[n]])
  {
    assert view[..n + 1] == view[..n] + [view[n]];
    var o, before, longer := view[n], Elements(view[..n]), Elements(view[..n + 1]);
    assert longer == before + {o};
    assert Elements(after + [o]) == Elements(after) + {o};
    assert WithoutRing(longer, who) == if Superseded(o, who) then WithoutRing(before, who) else WithoutRing(before, who) + {o};
  }

  /** The byte objects are the encodings of these objects. */
  ghost predicate Stores(bytes: seq<Bytes>, objects: set<Object>) {
    exists view: seq<Object> ::
      |bytes| == |view| && Elements(view) == objects && forall i :: 0 <= i < |view| ==> Encodes(bytes[i], view[i])
  }

  lemma AppendBoth(view: seq<Object>, who: Option<Id>, kept: seq<Bytes>, after: seq<Object>, replacement: Bytes, o: Object,
                   receipt: Bytes, f: Fields)
    requires KeptSoFar(view, |view|, who, kept, after) && Encodes(replacement, o) && Encodes(receipt, Receipt(f))
    ensures Stores(kept + [replacement, receipt], WithoutRing(Elements(view), who) + {o, Receipt(f)})
  {
    assert view[..|view|] == view;
    var objects, more := kept + [replacement, receipt], after + [o, Receipt(f)];
    assert |objects| == |more| && forall i :: 0 <= i < |more| ==> Encodes(objects[i], more[i]);
    assert Elements(more) == WithoutRing(Elements(view), who) + {o, Receipt(f)};
  }

  /** Keeps an object unless it is replaced. */
  method KeepUnless(objects: seq<Bytes>, ghost view: seq<Object>, n: nat, ghost who: Option<Id>, replaced: bool, kept: seq<Bytes>,
                    ghost after: seq<Object>) returns (longer: seq<Bytes>, ghost more: seq<Object>)
    requires Viewed(objects, view) && n < |objects| && Rebuilding(objects, view, n, who, kept, after)
    requires replaced <==> Superseded(view[n], who)
    ensures Rebuilding(objects, view, n + 1, who, longer, more)
  {
    RebuildNext(objects, view, n, who, kept, after);
    longer, more := if replaced then kept else kept + [objects[n]], if replaced then after else after + [view[n]];
  }

  lemma GovernanceAt(objects: seq<Bytes>, view: seq<Object>, n: nat)
    requires Viewed(objects, view) && n < |view|
    ensures Starts(objects[n], GovernanceMagic()) <==> Superseded(view[n], None)
  {
    MagicTells(objects[n], view[n]);
  }

  /** The object set a default-tenant mutation proposes. */
  method RebuildForDefault(objects: seq<Bytes>, ghost view: seq<Object>, replacement: Bytes, ghost o: Object,
                           receipt: Bytes, ghost f: Fields) returns (rebuilt: seq<Bytes>)
    requires Viewed(objects, view) && Encodes(replacement, o) && Encodes(receipt, Receipt(f))
    ensures Stores(rebuilt, WithoutRing(Elements(view), None) + {o, Receipt(f)})
    ensures rebuilt == KeptBytes(objects, view, |objects|, None) + [replacement, receipt]
  {
    rebuilt := [];
    ghost var after: seq<Object> := [];
    for n := 0 to |objects|
      invariant Rebuilding(objects, view, n, None, rebuilt, after)
    {
      GovernanceAt(objects, view, n);
      rebuilt, after := KeepUnless(objects, view, n, None, Starts(objects[n], GovernanceMagic()), rebuilt, after);
    }
    AppendBoth(view, None, rebuilt, after, replacement, o, receipt, f);
    rebuilt := rebuilt + [replacement, receipt];
  }

  /** Whether an object is the keyring that is being replaced; an unreadable keyring is an error. */
  method IsReplaced(objects: seq<Bytes>, ghost view: seq<Object>, n: nat, tenant: Id) returns (r: Result<bool, Failure>)
    requires Viewed(objects, view) && n < |objects|
    ensures r == if view[n].Keyring? && !ReadableKeyring(view[n]) then Err(PersistenceUnavailable)
                 else Ok(Superseded(view[n], Some(tenant)))
  {
    KeyringAt(objects, view, n);
    if !Starts(objects[n], KeyringMagic()) {
      return Ok(false);
    }
    var decoded := DecodeTenantKeyring(objects[n]);
    r := if decoded.Err? then Err(decoded.error) else Ok(decoded.value.0 == tenant);
  }

  /** The object set a provisioned tenant's mutation proposes; an unreadable keyring of any tenant stops it. */
  method RebuildForTenant(objects: seq<Bytes>, ghost view: seq<Object>, tenant: Id, replacement: Bytes, ghost o: Object,
                          receipt: Bytes, ghost f: Fields) returns (r: Result<seq<Bytes>, Failure>)
    requires Viewed(objects, view) && Encodes(replacement, o) && Encodes(receipt, Receipt(f))
    ensures r.Ok? <==> forall q :: q in view && q.Keyring? ==> ReadableKeyring(q)
    ensures r.Ok? ==> Stores(r.value, WithoutRing(Elements(view), Some(tenant)) + {o, Receipt(f)})
    ensures r.Ok? ==> r.value == KeptBytes(objects, view, |objects|, Some(tenant)) + [replacement, receipt]
  {
    var rebuilt: seq<Bytes> := [];
    ghost var after: seq<Object> := [];
    for n := 0 to |objects|
      invariant Rebuilding(objects, view, n, Some(tenant), rebuilt, after)
      invariant forall i :: 0 <= i < n && view[i].Keyring? ==> ReadableKeyring(view[i])
    {
      var replaced := IsReplaced(objects, view, n, tenant);
      if replaced.Err? {
        return Err(replaced.error);
      }
      rebuilt, after := KeepUnless(objects, view, n, Some(tenant), replaced.value, rebuilt, after);
    }
    AppendBoth(view, Some(tenant), rebuilt, after, replacement, o, receipt, f);
    r := Ok(rebuilt + [replacement, receipt]);
  }

  /** The loop over the audit chain: the last record under the key decides, and a foreign one is a conflict. */
  method FindReplayEntry(records: seq<Record>, key: Id) returns (r: Result<Option<Fields>, Failure>)
    ensures r == ReplayEntry(records, key)
  {
    var matching: Option<Fields> := None;
    for n := 0 to |records|
      invariant ReplayEntry(records[..n], key) == Ok(matching)
    {
      assert records[..n + 1][..n] == records[..n];
      if records[n].key == key {
        if records[n].body.Foreign? {
          ConflictSpreads(records, n + 1, key);
          return Err(IdempotencyConflict);
        }
        matching := Some(records[n].body.fields);
      }
    }
    assert records[..|records|] == records;
    r := Ok(matching);
  }

  lemma {:induction false} ConflictSpreads(records: seq<Record>, n: nat, key: Id)
    requires n <= |records| && ReplayEntry(records[..n], key).Err?
    ensures ReplayEntry(records, key) == ReplayEntry(records[..n], key)
    decreases |records| - n
  {
    if n < |records| {
      assert records[..n + 1][..n] == records[..n];
      ConflictSpreads(records, n + 1, key);
    } else {
      assert records[..n] == records;
    }
  }
}
