/** The audit intent of an API-key mutation, version three. */
module ApiKeyAudit {
  import opened Prelude
  import opened BigEndian
  import opened ByteLayout
  import opened ApiKeys
  import opened ApiKeyReceipt

  function IntentMagic(): (r: Bytes)
    ensures |r| == 8
  {
    Ascii("POSKEY03")
  }

  function TenantSuffix(tenant: Option<Id>): Bytes {
    if tenant.Some? then [1] + Encode(tenant.value, 16) else [0]
  }

  function IntentParts(f: Fields): (parts: seq<Bytes>)
    ensures |parts| == 12
  {
    [IntentMagic(), [ActionCode(f.action)], Encode(f.actor, 16), Encode(f.principal, 16), Encode(f.target, 16), [f.scope],
     Encode(if f.expiry.Some? then f.expiry.value else 0, 8), Encode(f.expected, 8), Encode(f.generation, 8),
     Encode(f.key, 16), Encode(f.digest, 32), TenantSuffix(f.tenant)]
  }

  function EncodeIntent(f: Fields): Bytes {
    Joined(IntentParts(f))
  }

  function ReadSuffix(b: Bytes): Result<Option<Id>, Failure>
    requires |b| >= 1
  {
    if b[0] == 0 && |b| == 1 then Ok(None)
    else if b[0] == 1 && |b| == 17 then var id :- ReadId(b[1..17]); Ok(Some(id))
    else Err(PersistenceUnavailable)
  }

  /** Reads an intent back under the transaction and position it was recorded at. */
  function DecodeIntent(b: Bytes, key: Id, position: U64): Result<Fields, Failure> {
    if |b| < 131 || b[..8] != IntentMagic() then Err(PersistenceUnavailable)
    else
      var action :- ActionFromCode(b[8]);
      var tenant :- ReadSuffix(b[130..]);
      if b[82..98] != Encode(key, 16) then Err(PersistenceUnavailable)
      else
        var actor :- ReadId(b[9..25]);
        var principal :- ReadId(b[25..41]);
        var target :- ReadId(b[41..57]);
        if !(1 <= b[57] <= 3) then Err(PersistenceUnavailable)
        else
          var seconds := ReadLong(b[58..66]);
          var expected :- ReadGeneration(b[66..74]);
          var generation :- ReadGeneration(b[74..82]);
          var digest := ReadWord(b[98..130]);
          if expected + 1 != generation || digest == 0 then Err(PersistenceUnavailable)
          else
            Ok(Fields(key, actor, tenant, action, b[57], if seconds == 0 then None else Some(seconds), expected, generation,
                      principal, target, position, digest))
  }

  ghost predicate IntentShaped(parts: seq<Bytes>) {
    && |parts| == 12 && |parts[0]| == 8 && |parts[1]| == 1 && |parts[2]| == 16 && |parts[3]| == 16 && |parts[4]| == 16
    && |parts[5]| == 1 && |parts[6]| == 8 && |parts[7]| == 8 && |parts[8]| == 8 && |parts[9]| == 16 && |parts[10]| == 32
  }

  lemma IntentOffsets(parts: seq<Bytes>)
    requires IntentShaped(parts)
    ensures Offset(parts, 0) == 0 && Offset(parts, 1) == 8 && Offset(parts, 2) == 9 && Offset(parts, 3) == 25
    ensures Offset(parts, 4) == 41 && Offset(parts, 5) == 57 && Offset(parts, 6) == 58 && Offset(parts, 7) == 66
    ensures Offset(parts, 8) == 74 && Offset(parts, 9) == 82 && Offset(parts, 10) == 98 && Offset(parts, 11) == 130
    ensures Offset(parts, 12) == 130 + |parts[11]|
  {
    assert Offset(parts, 1) == 8;
    assert Offset(parts, 2) == 9;
    assert Offset(parts, 3) == 25;
    assert Offset(parts, 4) == 41;
    assert Offset(parts, 5) == 57;
    assert Offset(parts, 6) == 58;
    assert Offset(parts, 7) == 66;
    assert Offset(parts, 8) == 74;
    assert Offset(parts, 9) == 82;
    assert Offset(parts, 10) == 98;
  }

  ghost predicate IntentNames(b: Bytes, f: Fields) {
    && |b| >= 131 && b[..8] == IntentMagic() && b[8] == ActionCode(f.action) && b[9..25] == Encode(f.actor, 16)
    && b[25..41] == Encode(f.principal, 16) && b[41..57] == Encode(f.target, 16) && b[57] == f.scope
  }

  ghost predicate IntentBinds(b: Bytes, f: Fields) {
    && |b| >= 131 && b[58..66] == Encode(if f.expiry.Some? then f.expiry.value else 0, 8)
    && b[66..74] == Encode(f.expected, 8) && b[74..82] == Encode(f.generation, 8) && b[82..98] == Encode(f.key, 16)
    && b[98..130] == Encode(f.digest, 32) && b[130..] == TenantSuffix(f.tenant)
  }

  lemma IntentIsNamed(f: Fields)
    ensures IntentNames(EncodeIntent(f), f)
  {
    var parts := IntentParts(f);
    IntentOffsets(parts);
    JoinedLength(parts);
    SingleByte(EncodeIntent(f), 8);
    SingleByte(EncodeIntent(f), 57);
    PartAt(parts, 0);
    PartAt(parts, 1);
    PartAt(parts, 2);
    PartAt(parts, 3);
    PartAt(parts, 4);
    PartAt(parts, 5);
  }

  lemma IntentIsBound(f: Fields)
    ensures IntentBinds(EncodeIntent(f), f)
  {
    var parts := IntentParts(f);
    IntentOffsets(parts);
    JoinedLength(parts);
    PartAt(parts, 6);
    PartAt(parts, 7);
    PartAt(parts, 8);
    PartAt(parts, 9);
    PartAt(parts, 10);
    PartAt(parts, 11);
  }

  lemma SuffixRoundTrip(tenant: Option<Id>)
    ensures ReadSuffix(TenantSuffix(tenant)) == Ok(tenant)
  {
    if tenant.Some? {
      IdsRoundTrip(tenant.value);
      assert TenantSuffix(tenant)[1..17] == Encode(tenant.value, 16);
    }
  }

  /** An intent is read back as the fields it was written for, a zero expiry as none, exactly when these are what a
      mutation leaves behind: a tenant scope, a following generation and a non-zero digest. */
  lemma IntentRoundTrip(f: Fields)
    ensures DecodeIntent(EncodeIntent(f), f.key, f.position) ==
            if 1 <= f.scope <= 3 && f.expected + 1 == f.generation && f.digest != 0
            then Ok(f.(expiry := StoredExpiry(f.expiry))) else Err(PersistenceUnavailable)
  {
    IntentIsNamed(f);
    IntentIsBound(f);
    SuffixRoundTrip(f.tenant);
    IdsRoundTrip(f.actor);
    IdsRoundTrip(f.principal);
    IdsRoundTrip(f.target);
    LongsRoundTrip(if f.expiry.Some? then f.expiry.value else 0);
    LongsRoundTrip(f.expected);
    LongsRoundTrip(f.generation);
    WordsRoundTrip(f.digest);
  }
}
