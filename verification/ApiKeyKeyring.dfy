/** The durable form of a provisioned tenant's keyring. */
module ApiKeyKeyring {
  import opened Prelude
  import opened BigEndian
  import opened ByteLayout
  import opened ApiKeys
  import opened ApiKeyReceipt

  const HEADER_BYTES: nat := 34
  const CREDENTIAL_BYTES: nat := 90

  function KeyringMagic(): (r: Bytes)
    ensures |r| == 8
  {
    Ascii("POSTKC01")
  }

  function CredentialParts(c: Credential): (parts: seq<Bytes>)
    ensures |parts| == 6
  {
    [Encode(c.principal, 16), [c.scope], Flag(c.active), Encode(if c.expiry.Some? then c.expiry.value else 0, 8),
     Encode(c.salt, 32), Encode(c.hash, 32)]
  }

  function CredentialForm(c: Credential): (r: Bytes) {
    Joined(CredentialParts(c))
  }

  ghost predicate CredentialShaped(parts: seq<Bytes>) {
    && |parts| == 6 && |parts[0]| == 16 && |parts[1]| == 1 && |parts[2]| == 1 && |parts[3]| == 8 && |parts[4]| == 32
    && |parts[5]| == 32
  }

  lemma CredentialOffsets(parts: seq<Bytes>)
    requires CredentialShaped(parts)
    ensures Offset(parts, 0) == 0 && Offset(parts, 1) == 16 && Offset(parts, 2) == 17 && Offset(parts, 3) == 18
    ensures Offset(parts, 4) == 26 && Offset(parts, 5) == 58 && Offset(parts, 6) == 90
  {
    assert Offset(parts, 1) == 16;
    assert Offset(parts, 2) == 17;
    assert Offset(parts, 3) == 18;
    assert Offset(parts, 4) == 26;
    assert Offset(parts, 5) == 58;
  }

  /** One credential of a keyring: refused unless its constructor admits it. */
  function ReadCredential(b: Bytes): Result<Credential, Failure>
    requires |b| == CREDENTIAL_BYTES
  {
    var principal :- ReadId(b[0..16]);
    if b[17] > 1 then Err(PersistenceUnavailable)
    else
      var seconds := ReadLong(b[18..26]);
      var salt, hash := ReadWord(b[26..58]), ReadWord(b[58..90]);
      if !(1 <= b[16] <= 4) || salt == 0 || hash == 0 then Err(PersistenceUnavailable)
      else Ok(Credential(principal, b[16], b[17] == 1, if seconds != 0 then Some(seconds) else None, salt, hash))
  }

  ghost predicate CredentialIs(b: Bytes, c: Credential) {
    && |b| == 90 && b[0..16] == Encode(c.principal, 16) && b[16] == c.scope && [b[17]] == Flag(c.active)
    && b[18..26] == Encode(if c.expiry.Some? then c.expiry.value else 0, 8)
    && b[26..58] == Encode(c.salt, 32) && b[58..90] == Encode(c.hash, 32)
  }

  lemma CredentialFormIs(c: Credential)
    ensures CredentialIs(CredentialForm(c), c)
  {
    var parts := CredentialParts(c);
    CredentialOffsets(parts);
    JoinedLength(parts);
    SingleByte(CredentialForm(c), 16);
    SingleByte(CredentialForm(c), 17);
    PartAt(parts, 0);
    PartAt(parts, 1);
    PartAt(parts, 2);
    PartAt(parts, 3);
    PartAt(parts, 4);
    PartAt(parts, 5);
  }

  lemma CredentialRejoins(b: Bytes, c: Credential)
    requires CredentialIs(b, c)
    ensures CredentialForm(c) == b
  {
    var parts := CredentialParts(c);
    CredentialOffsets(parts);
    SingleByte(b, 16);
    SingleByte(b, 17);
    forall j | 0 <= j < |parts|
      ensures ReadFrom(b, parts, j)
    {
    }
    Rejoin(b, parts, 0);
    assert parts[0..] == parts && b[0..] == b;
  }

  /** A credential is read back exactly when its constructor admits it, with a zero expiry read as none. */
  lemma CredentialRoundTrip(c: Credential)
    ensures |CredentialForm(c)| == CREDENTIAL_BYTES
    ensures var stored := StoredCredential(c);
            ReadCredential(CredentialForm(c)) == if ValidCredential(stored) then Ok(stored) else Err(PersistenceUnavailable)
  {
    CredentialFormIs(c);
    IdsRoundTrip(c.principal);
    LongsRoundTrip(if c.expiry.Some? then c.expiry.value else 0);
    WordsRoundTrip(c.salt);
    WordsRoundTrip(c.hash);
  }

  lemma CredentialIsCanonical(b: Bytes)
    requires |b| == CREDENTIAL_BYTES && ReadCredential(b).Ok?
    ensures ValidCredential(ReadCredential(b).value) && CredentialForm(ReadCredential(b).value) == b
  {
    var c := ReadCredential(b).value;
    ReadIdBack(b[0..16]);
    ReadLongBack(b[18..26]);
    ReadWordBack(b[26..58]);
    ReadWordBack(b[58..90]);
    CredentialRejoins(b, c);
  }

  /** The credential records of a keyring, one after the other. */
  function CredentialList(credentials: seq<Credential>): (r: Bytes) {
    if credentials == [] then []
    else CredentialList(credentials[..|credentials| - 1]) + CredentialForm(credentials[|credentials| - 1])
  }

  lemma {:induction false} ListLength(credentials: seq<Credential>)
    ensures |CredentialList(credentials)| == CREDENTIAL_BYTES * |credentials|
  {
    if credentials != [] {
      ListLength(credentials[..|credentials| - 1]);
      CredentialFormIs(credentials[|credentials| - 1]);
    }
  }

  function KeyringParts(tenant: Id, ring: Ring): (parts: seq<Bytes>)
    ensures |parts| == 5
  {
    [KeyringMagic(), Encode(tenant, 16), Encode(ring.generation, 8), Encode(|ring.credentials|, 2),
     CredentialList(ring.credentials)]
  }

  function KeyringForm(tenant: Id, ring: Ring): Bytes {
    Joined(KeyringParts(tenant, ring))
  }

  /** What the encoder refuses to write. */
  predicate Writable(ring: Ring) {
    ring.generation != 0 && 1 <= |ring.credentials| <= MAX_CREDENTIALS
  }

  method EncodeTenantKeyring(tenant: Id, generation: U64, credentials: seq<Credential>) returns (r: Result<Bytes, Failure>)
    ensures r == if Writable(Ring(generation, credentials)) then Ok(KeyringForm(tenant, Ring(generation, credentials)))
                 else Err(CredentialUnavailable)
  {
    if generation == 0 || credentials == [] || |credentials| > MAX_CREDENTIALS {
      return Err(CredentialUnavailable);
    }
    var encoded := KeyringMagic();
    encoded := encoded + Encode(tenant, 16);
    encoded := encoded + Encode(generation, 8);
    encoded := encoded + Encode(|credentials|, 2);
    ghost var header := encoded;
    for n := 0 to |credentials|
      invariant encoded == header + CredentialList(credentials[..n])
    {
      var c := credentials[n];
      var record := Encode(c.principal, 16) + [c.scope] + Flag(c.active) +
      Encode(if c.expiry.Some? then c.expiry.value else 0, 8) + Encode(c.salt, 32) + Encode(c.hash, 32);
      FormIsJoined(c);
      NextInList(credentials, n);
      assert header + (CredentialList(credentials[..n]) + record) == encoded + record;
      encoded := encoded + record;
    }
    assert credentials[..|credentials|] == credentials;
    HeaderIsJoined(tenant, Ring(generation, credentials));
    r := Ok(encoded);
  }

  lemma NextInList(credentials: seq<Credential>, n: nat)
    requires n < |credentials|
    ensures CredentialList(credentials[..n + 1]) == CredentialList(credentials[..n]) + CredentialForm(credentials[n])
  {
    assert credentials[..n + 1][..n] == credentials[..n];
  }

  lemma FormIsJoined(c: Credential)
    ensures CredentialForm(c) == Encode(c.principal, 16) + [c.scope] + Flag(c.active) +
                                 Encode(if c.expiry.Some? then c.expiry.value else 0, 8) + Encode(c.salt, 32) + Encode(c.hash, 32)
  {
    var parts := CredentialParts(c);
    assert Joined(parts[6..]) == [];
    assert parts[5..][1..] == parts[6..] && parts[4..][1..] == parts[5..] && parts[3..][1..] == parts[4..];
    assert parts[2..][1..] == parts[3..] && parts[1..][1..] == parts[2..];
    assert Joined(parts[5..]) == Encode(c.hash, 32);
    assert Joined(parts[4..]) == Encode(c.salt, 32) + Encode(c.hash, 32);
    assert Joined(parts[2..]) == parts[2] + (parts[3] + Joined(parts[4..]));
    assert Joined(parts) == parts[0] + (parts[1] + Joined(parts[2..]));
  }

  lemma HeaderIsJoined(tenant: Id, ring: Ring)
    ensures KeyringForm(tenant, ring) == KeyringMagic() + Encode(tenant, 16) + Encode(ring.generation, 8) +
                                         Encode(|ring.credentials|, 2) + CredentialList(ring.credentials)
  {
    var parts := KeyringParts(tenant, ring);
    assert parts[1..][1..] == parts[2..] && parts[2..][1..] == parts[3..] && parts[3..][1..] == parts[4..];
    assert parts[4..][1..] == parts[5..] && Joined(parts[5..]) == [];
    assert Joined(parts[4..]) == CredentialList(ring.credentials);
    assert Joined(parts[2..]) == parts[2] + (parts[3] + Joined(parts[4..]));
    assert Joined(parts) == parts[0] + (parts[1] + Joined(parts[2..]));
  }

  /** Where the credential record `n` starts. */
  function RecordStart(n: nat): nat {
    HEADER_BYTES + n * CREDENTIAL_BYTES
  }

  predicate HasPrincipal(credentials: seq<Credential>, principal: Id) {
    exists i :: 0 <= i < |credentials| && credentials[i].principal == principal
  }

  /** The first `n` credential records; a repeated principal is refused. */
  function Extended(earlier: Result<seq<Credential>, Failure>, record: Result<Credential, Failure>): Result<seq<Credential>, Failure> {
    if earlier.Err? then earlier
    else if record.Err? then Err(record.error)
    else if HasPrincipal(earlier.value, record.value.principal) then Err(PersistenceUnavailable)
    else Ok(earlier.value + [record.value])
  }

  function ReadCredentials(b: Bytes, n: nat): Result<seq<Credential>, Failure>
    requires RecordStart(n) <= |b|
  {
    if n == 0 then Ok([]) else Extended(ReadCredentials(b, n - 1), ReadCredential(b[RecordStart(n - 1)..RecordStart(n)]))
  }

  function DecodeKeyring(b: Bytes): Result<(Id, Ring), Failure> {
    if |b| < 24 then Err(PersistenceUnavailable)
    else
      var tenant :- ReadId(b[8..24]);
      if |b| < 32 || ReadLong(b[24..32]) == 0 || |b| < 34 then Err(PersistenceUnavailable)
      else
        var count := Decode(b[32..34]);
        if count == 0 || count > MAX_CREDENTIALS || |b| != RecordStart(count) then Err(PersistenceUnavailable)
        else
          var credentials :- ReadCredentials(b, count);
          Ok((tenant, Ring(ReadLong(b[24..32]), credentials)))
  }

  method DecodeTenantKeyring(b: Bytes) returns (r: Result<(Id, Ring), Failure>)
    ensures r == DecodeKeyring(b)
  {
    if |b| < 24 {
      return Err(PersistenceUnavailable);
    }
    var tenant :- ReadId(b[8..24]);
    if |b| < 32 {
      return Err(PersistenceUnavailable);
    }
    var generation := ReadLong(b[24..32]);
    if generation == 0 || |b| < 34 {
      return Err(PersistenceUnavailable);
    }
    var count := Decode(b[32..34]);
    if count == 0 || count > MAX_CREDENTIALS || |b| != RecordStart(count) {
      return Err(PersistenceUnavailable);
    }
    var credentials :- ReadRecords(b, count);
    r := Ok((tenant, Ring(generation, credentials)));
  }

  /** Reads the records one after the other, up to the first refusal. */
  method ReadRecords(b: Bytes, count: nat) returns (r: Result<seq<Credential>, Failure>)
    requires RecordStart(count) <= |b|
    ensures r == ReadCredentials(b, count)
  {
    var credentials: seq<Credential> := [];
    for n := 0 to count
      invariant ReadCredentials(b, n) == Ok(credentials)
    {
      var record := ReadCredential(b[RecordStart(n)..RecordStart(n + 1)]);
      if record.Err? {
        FailureSpreads(b, n + 1, count);
        return Err(record.error);
      }
      if HasPrincipal(credentials, record.value.principal) {
        FailureSpreads(b, n + 1, count);
        return Err(PersistenceUnavailable);
      }
      credentials := credentials + [record.value];
    }
    r := Ok(credentials);
  }

  /** A refused record refuses every longer read the same way. */
  lemma {:induction false} FailureSpreads(b: Bytes, n: nat, m: nat)
    requires n <= m && RecordStart(m) <= |b| && ReadCredentials(b, n).Err?
    ensures ReadCredentials(b, m) == ReadCredentials(b, n)
    decreases m
  {
    if n < m {
      FailureSpreads(b, n, m - 1);
    }
  }

  lemma {:induction false} ListAt(credentials: seq<Credential>, n: nat)
    requires n < |credentials|
    ensures CREDENTIAL_BYTES * (n + 1) <= |CredentialList(credentials)|
    ensures CredentialList(credentials)[CREDENTIAL_BYTES * n..CREDENTIAL_BYTES * (n + 1)] == CredentialForm(credentials[n])
    decreases |credentials|
  {
    var front := credentials[..|credentials| - 1];
    ListLength(front);
    ListLength(credentials);
    CredentialFormIs(credentials[n]);
    if n < |front| {
      ListAt(front, n);
      assert front[n] == credentials[n];
    }
  }

  ghost predicate KeyringShaped(parts: seq<Bytes>) {
    |parts| == 5 && |parts[0]| == 8 && |parts[1]| == 16 && |parts[2]| == 8 && |parts[3]| == 2
  }

  lemma KeyringOffsets(parts: seq<Bytes>)
    requires KeyringShaped(parts)
    ensures Offset(parts, 0) == 0 && Offset(parts, 1) == 8 && Offset(parts, 2) == 24 && Offset(parts, 3) == 32
    ensures Offset(parts, 4) == 34 && Offset(parts, 5) == 34 + |parts[4]|
  {
    assert Offset(parts, 1) == 8;
    assert Offset(parts, 2) == 24;
    assert Offset(parts, 3) == 32;
  }

  /** A keyring's bytes, field by field. */
  ghost predicate KeyringIs(b: Bytes, tenant: Id, ring: Ring) {
    && |b| == RecordStart(|ring.credentials|) && b[..8] == KeyringMagic() && b[8..24] == Encode(tenant, 16)
    && b[24..32] == Encode(ring.generation, 8) && b[32..34] == Encode(|ring.credentials|, 2)
    && b[34..] == CredentialList(ring.credentials)
  }

  lemma KeyringFormIs(tenant: Id, ring: Ring)
    ensures KeyringIs(KeyringForm(tenant, ring), tenant, ring)
  {
    var parts := KeyringParts(tenant, ring);
    KeyringOffsets(parts);
    JoinedLength(parts);
    ListLength(ring.credentials);
    PartAt(parts, 0);
    PartAt(parts, 1);
    PartAt(parts, 2);
    PartAt(parts, 3);
    PartAt(parts, 4);
  }

  lemma KeyringRejoins(b: Bytes, tenant: Id, ring: Ring)
    requires KeyringIs(b, tenant, ring)
    ensures KeyringForm(tenant, ring) == b
  {
    var parts := KeyringParts(tenant, ring);
    ListLength(ring.credentials);
    KeyringOffsets(parts);
    forall j | 0 <= j < |parts|
      ensures ReadFrom(b, parts, j)
    {
    }
    Rejoin(b, parts, 0);
    assert parts[0..] == parts && b[0..] == b;
  }

  /** The first `n` credentials would be accepted. */
  ghost predicate Accepted(credentials: seq<Credential>, n: nat)
    requires n <= |credentials|
  {
    && (forall i :: 0 <= i < n ==> ValidCredential(credentials[i]))
    && (forall i, j :: 0 <= i < j < n ==> credentials[i].principal != credentials[j].principal)
  }

  lemma RecordIsRead(b: Bytes, tenant: Id, ring: Ring, n: nat)
    requires KeyringIs(b, tenant, ring) && n < |ring.credentials| && ring.credentials[n].expiry != Some(0)
    ensures RecordStart(n + 1) <= |b|
    ensures ReadCredential(b[RecordStart(n)..RecordStart(n + 1)]) ==
            if ValidCredential(ring.credentials[n]) then Ok(ring.credentials[n]) else Err(PersistenceUnavailable)
  {
    RecordOf(b, tenant, ring, n);
    CredentialRoundTrip(ring.credentials[n]);
  }

  /** The record of a credential reads as the credential, unless it is invalid. */
  ghost predicate RecordReads(b: Bytes, credentials: seq<Credential>, n: nat)
    requires n < |credentials|
  {
    && RecordStart(n + 1) <= |b|
    && ReadCredential(b[RecordStart(n)..RecordStart(n + 1)]) ==
       if ValidCredential(credentials[n]) then Ok(credentials[n]) else Err(PersistenceUnavailable)
  }

  lemma {:induction false} RecordsReadBack(b: Bytes, credentials: seq<Credential>, n: nat)
    requires n <= |credentials| && RecordStart(n) <= |b|
    requires forall i {:trigger RecordReads(b, credentials, i)} :: 0 <= i < n ==> RecordReads(b, credentials, i)
    ensures ReadCredentials(b, n) == if Accepted(credentials, n) then Ok(credentials[..n]) else Err(PersistenceUnavailable)
  {
    if n > 0 {
      RecordsReadBack(b, credentials, n - 1);
      assert RecordReads(b, credentials, n - 1);
      ExtendsAccepted(credentials, n - 1, ReadCredentials(b, n - 1), ReadCredential(b[RecordStart(n - 1)..RecordStart(n)]));
    }
  }

  lemma CredentialsRoundTrip(b: Bytes, tenant: Id, ring: Ring)
    requires KeyringIs(b, tenant, ring)
    requires forall i :: 0 <= i < |ring.credentials| ==> ring.credentials[i].expiry != Some(0)
    ensures ReadCredentials(b, |ring.credentials|) ==
            if Accepted(ring.credentials, |ring.credentials|) then Ok(ring.credentials) else Err(PersistenceUnavailable)
  {
    forall i | 0 <= i < |ring.credentials|
      ensures RecordReads(b, ring.credentials, i)
    {
      RecordIsRead(b, tenant, ring, i);
    }
    RecordsReadBack(b, ring.credentials, |ring.credentials|);
    assert ring.credentials[..|ring.credentials|] == ring.credentials;
  }

  /** Reading one more credential accepts one more. */
  lemma ExtendsAccepted(credentials: seq<Credential>, n: nat, earlier: Result<seq<Credential>, Failure>,
                        record: Result<Credential, Failure>)
    requires n < |credentials|
    requires earlier == if Accepted(credentials, n) then Ok(credentials[..n]) else Err(PersistenceUnavailable)
    requires record == if ValidCredential(credentials[n]) then Ok(credentials[n]) else Err(PersistenceUnavailable)
    ensures Extended(earlier, record) ==
            if Accepted(credentials, n + 1) then Ok(credentials[..n + 1]) else Err(PersistenceUnavailable)
  {
    AcceptedNext(credentials, n);
    assert credentials[..n + 1] == credentials[..n] + [credentials[n]];
  }

  lemma RecordOf(b: Bytes, tenant: Id, ring: Ring, n: nat)
    requires KeyringIs(b, tenant, ring) && n < |ring.credentials|
    ensures RecordStart(n + 1) <= |b| && b[RecordStart(n)..RecordStart(n + 1)] == CredentialForm(ring.credentials[n])
  {
    ListAt(ring.credentials, n);
    SliceOfRest(b, 34, CREDENTIAL_BYTES * n, CREDENTIAL_BYTES * (n + 1));
  }

  lemma SliceOfRest(b: Bytes, k: nat, i: nat, j: nat)
    requires k <= |b| && i <= j <= |b| - k
    ensures b[k..][i..j] == b[k + i..k + j]
  {
  }

  lemma AcceptedNext(credentials: seq<Credential>, n: nat)
    requires n < |credentials|
    ensures Accepted(credentials, n + 1) <==>
            && Accepted(credentials, n) && ValidCredential(credentials[n])
            && !HasPrincipal(credentials[..n], credentials[n].principal)
  {
    if HasPrincipal(credentials[..n], credentials[n].principal) {
      var i :| 0 <= i < n && credentials[..n][i].principal == credentials[n].principal;
      assert credentials[i].principal == credentials[n].principal;
    } else {
      assert forall i :: 0 <= i < n ==> credentials[..n][i] == credentials[i];
    }
  }

  /** The ring as it is read back. */
  function StoredRing(ring: Ring): (r: Ring)
    ensures |r.credentials| == |ring.credentials| && r.generation == ring.generation
    ensures forall i :: 0 <= i < |ring.credentials| ==> r.credentials[i] == StoredCredential(ring.credentials[i])
  {
    Ring(ring.generation, seq(|ring.credentials|, i requires 0 <= i < |ring.credentials| => StoredCredential(ring.credentials[i])))
  }

  lemma {:induction false} StoredList(a: seq<Credential>, b: seq<Credential>)
    requires |a| == |b| && forall i :: 0 <= i < |a| ==> b[i] == StoredCredential(a[i])
    ensures CredentialList(b) == CredentialList(a)
  {
    if a != [] {
      var n := |a| - 1;
      StoredList(a[..n], b[..n]);
      assert CredentialParts(b[n]) == CredentialParts(a[n]);
    }
  }

  /** A keyring that is written is read back exactly when it is readable, valid credentials of distinct principals,
      with zero expiries read as none. */
  lemma KeyringRoundTrip(tenant: Id, ring: Ring)
    requires Writable(ring)
    ensures var stored := StoredRing(ring);
            DecodeKeyring(KeyringForm(tenant, ring)) ==
            if ReadableKeyring(Keyring(tenant, stored)) then Ok((tenant, stored)) else Err(PersistenceUnavailable)
  {
    var stored := StoredRing(ring);
    StoredList(ring.credentials, stored.credentials);
    assert KeyringParts(tenant, stored) == KeyringParts(tenant, ring);
    ProperKeyringRoundTrip(tenant, stored);
  }

  lemma ProperKeyringRoundTrip(tenant: Id, ring: Ring)
    requires Writable(ring) && forall i :: 0 <= i < |ring.credentials| ==> ring.credentials[i].expiry != Some(0)
    ensures |KeyringForm(tenant, ring)| >= 8 && KeyringForm(tenant, ring)[..8] == KeyringMagic()
    ensures DecodeKeyring(KeyringForm(tenant, ring)) ==
            if ReadableKeyring(Keyring(tenant, ring)) then Ok((tenant, ring)) else Err(PersistenceUnavailable)
  {
    var b := KeyringForm(tenant, ring);
    KeyringFormIs(tenant, ring);
    IdsRoundTrip(tenant);
    LongsRoundTrip(ring.generation);
    Widths();
    DecodeEncode(|ring.credentials|, 2);
    CredentialsRoundTrip(b, tenant, ring);
  }

  lemma SliceGrows(b: Bytes, i: nat, j: nat, k: nat)
    requires i <= j <= k <= |b|
    ensures b[i..k] == b[i..j] + b[j..k]
  {
  }

  lemma {:induction false} CredentialsAreCanonical(b: Bytes, n: nat)
    requires RecordStart(n) <= |b| && ReadCredentials(b, n).Ok?
    ensures var credentials := ReadCredentials(b, n).value;
            && |credentials| == n && Accepted(credentials, n) && CredentialList(credentials) == b[34..RecordStart(n)]
  {
    if n > 0 {
      CredentialsAreCanonical(b, n - 1);
      var earlier := ReadCredentials(b, n - 1).value;
      CredentialIsCanonical(b[RecordStart(n - 1)..RecordStart(n)]);
      var c := ReadCredential(b[RecordStart(n - 1)..RecordStart(n)]).value;
      assert ReadCredentials(b, n) == Ok(earlier + [c]) && !HasPrincipal(earlier, c.principal);
      AcceptedLonger(earlier, c);
      assert (earlier + [c])[..n - 1] == earlier;
      SliceGrows(b, 34, RecordStart(n - 1), RecordStart(n));
    }
  }

  lemma AcceptedLonger(earlier: seq<Credential>, c: Credential)
    requires Accepted(earlier, |earlier|) && ValidCredential(c) && !HasPrincipal(earlier, c.principal)
    ensures Accepted(earlier + [c], |earlier| + 1)
  {
    var longer := earlier + [c];
    forall i, j | 0 <= i < j < |longer|
      ensures longer[i].principal != longer[j].principal
    {
      assert longer[i] == earlier[i];
    }
  }

  /** Only what the encoder writes is accepted. */
  lemma KeyringIsCanonical(b: Bytes)
    requires |b| >= 8 && b[..8] == KeyringMagic() && DecodeKeyring(b).Ok?
    ensures var (tenant, ring) := DecodeKeyring(b).value;
            Writable(ring) && ReadableKeyring(Keyring(tenant, ring)) && KeyringForm(tenant, ring) == b
  {
    var (tenant, ring) := DecodeKeyring(b).value;
    var count := DecodedKeyring(b, tenant, ring);
    CredentialsAreCanonical(b, count);
    HeaderIsCanonical(b, tenant, ring);
    KeyringRejoins(b, tenant, ring);
  }

  lemma HeaderIsCanonical(b: Bytes, tenant: Id, ring: Ring)
    requires |b| == RecordStart(|ring.credentials|) && b[..8] == KeyringMagic() && ReadId(b[8..24]) == Ok(tenant)
    requires ring.generation == ReadLong(b[24..32]) && |ring.credentials| == Decode(b[32..34])
    requires b[34..RecordStart(|ring.credentials|)] == CredentialList(ring.credentials)
    ensures KeyringIs(b, tenant, ring)
  {
    ReadIdBack(b[8..24]);
    ReadLongBack(b[24..32]);
    EncodeDecode(b[32..34]);
    assert b[34..RecordStart(|ring.credentials|)] == b[34..];
  }

  /** What a keyring was decoded from. */
  lemma DecodedKeyring(b: Bytes, tenant: Id, ring: Ring) returns (count: nat)
    requires DecodeKeyring(b) == Ok((tenant, ring))
    ensures 1 <= count <= MAX_CREDENTIALS && |b| == RecordStart(count) && count == Decode(b[32..34])
    ensures ReadId(b[8..24]) == Ok(tenant) && ring.generation == ReadLong(b[24..32]) != 0
    ensures ReadCredentials(b, count) == Ok(ring.credentials)
  {
    count := Decode(b[32..34]);
  }
}
