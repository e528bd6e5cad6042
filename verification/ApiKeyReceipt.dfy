/** The durable form of a replay receipt. */
module ApiKeyReceipt {
  import opened Prelude
  import opened BigEndian
  import opened ByteLayout
  import opened ApiKeys

  const RECEIPT_BYTES: nat := 156

  function ReceiptMagic(): (r: Bytes)
    ensures |r| == 8
  {
    Ascii("POSKRR01")
  }

  function ActionCode(action: Action): Byte {
    match action
    case Create => 1
    case Rotate => 2
    case Revoke => 3
  }

  function ActionFromCode(code: Byte): Result<Action, Failure> {
    match code
    case 1 => Ok(Create)
    case 2 => Ok(Rotate)
    case 3 => Ok(Revoke)
    case _ => Err(PersistenceUnavailable)
  }

  function Flag(b: bool): Bytes {
    if b then [1] else [0]
  }

  function ReceiptParts(f: Fields): (parts: seq<Bytes>)
    ensures |parts| == 15
  {
    [ReceiptMagic(), Encode(f.key, 16), Encode(f.actor, 16), Flag(f.tenant.Some?),
     Encode(if f.tenant.Some? then f.tenant.value else 0, 16), [ActionCode(f.action)], [f.scope], Flag(f.expiry.Some?),
     Encode(if f.expiry.Some? then f.expiry.value else 0, 8), Encode(f.expected, 8), Encode(f.generation, 8),
     Encode(f.principal, 16), Encode(f.target, 16), Encode(f.position, 8), Encode(f.digest, 32)]
  }

  function EncodeReceipt(f: Fields): Result<Bytes, Failure> {
    if f.position == 0 || f.digest == 0 || ScopeFromCode(f.scope).None? then Err(PersistenceUnavailable)
    else Ok(Joined(ReceiptParts(f)))
  }

  /** A non-zero identifier. */
  function ReadId(b: Bytes): Result<Id, Failure>
    requires |b| == 16
  {
    Widths();
    EncodeDecode(b);
    if Decode(b) == 0 then Err(PersistenceUnavailable) else Ok(Decode(b))
  }

  function ReadLong(b: Bytes): U64
    requires |b| == 8
  {
    Widths();
    EncodeDecode(b);
    Decode(b)
  }

  function ReadWord(b: Bytes): Word
    requires |b| == 32
  {
    Widths();
    EncodeDecode(b);
    Decode(b)
  }

  function ReadGeneration(b: Bytes): Result<Generation, Failure>
    requires |b| == 8
  {
    if ReadLong(b) == 0 then Err(PersistenceUnavailable) else Ok(ReadLong(b))
  }

  function ReadTenant(flag: Byte, b: Bytes): Result<Option<Id>, Failure>
    requires |b| == 16
  {
    if flag == 0 && Decode(b) == 0 then Ok(None)
    else if flag == 1 then var id :- ReadId(b); Ok(Some(id))
    else Err(PersistenceUnavailable)
  }

  function ReadExpiry(flag: Byte, b: Bytes): Result<Option<U64>, Failure>
    requires |b| == 8
  {
    if flag == 0 && ReadLong(b) == 0 then Ok(None)
    else if flag == 1 then Ok(Some(ReadLong(b)))
    else Err(PersistenceUnavailable)
  }

  datatype Head = Head(key: Id, actor: Id, tenant: Option<Id>, action: Action, scope: Byte)

  function ReadHead(b: Bytes): Result<Head, Failure>
    requires |b| == RECEIPT_BYTES
  {
    var key :- ReadId(b[8..24]);
    var actor :- ReadId(b[24..40]);
    var tenant :- ReadTenant(b[40], b[41..57]);
    var action :- ActionFromCode(b[57]);
    if ScopeFromCode(b[58]).None? then Err(PersistenceUnavailable) else Ok(Head(key, actor, tenant, action, b[58]))
  }

  datatype Tail = Tail(expiry: Option<U64>, expected: Generation, generation: Generation, principal: Id, target: Id,
                       position: U64, digest: Word)

  function ReadTail(b: Bytes): Result<Tail, Failure>
    requires |b| == RECEIPT_BYTES
  {
    var expiry :- ReadExpiry(b[59], b[60..68]);
    var expected :- ReadGeneration(b[68..76]);
    var generation :- ReadGeneration(b[76..84]);
    if expected + 1 != generation then Err(PersistenceUnavailable)
    else
      var principal :- ReadId(b[84..100]);
      var target :- ReadId(b[100..116]);
      var position := ReadLong(b[116..124]);
      var digest := ReadWord(b[124..156]);
      if digest == 0 || position == 0 then Err(PersistenceUnavailable)
      else Ok(Tail(expiry, expected, generation, principal, target, position, digest))
  }

  function DecodeReceipt(b: Bytes): Result<Fields, Failure> {
    if |b| != RECEIPT_BYTES then Err(PersistenceUnavailable)
    else
      var h :- ReadHead(b);
      var t :- ReadTail(b);
      Ok(Fields(h.key, h.actor, h.tenant, h.action, h.scope, t.expiry, t.expected, t.generation, t.principal, t.target,
                t.position, t.digest))
  }

  ghost predicate ReceiptShaped(parts: seq<Bytes>) {
    && |parts| == 15 && |parts[0]| == 8 && |parts[1]| == 16 && |parts[2]| == 16 && |parts[3]| == 1 && |parts[4]| == 16
    && |parts[5]| == 1 && |parts[6]| == 1 && |parts[7]| == 1 && |parts[8]| == 8 && |parts[9]| == 8 && |parts[10]| == 8
    && |parts[11]| == 16 && |parts[12]| == 16 && |parts[13]| == 8 && |parts[14]| == 32
  }

  lemma ReceiptOffsets(parts: seq<Bytes>)
    requires ReceiptShaped(parts)
    ensures Offset(parts, 0) == 0 && Offset(parts, 1) == 8 && Offset(parts, 2) == 24 && Offset(parts, 3) == 40
    ensures Offset(parts, 4) == 41 && Offset(parts, 5) == 57 && Offset(parts, 6) == 58 && Offset(parts, 7) == 59
    ensures Offset(parts, 8) == 60 && Offset(parts, 9) == 68 && Offset(parts, 10) == 76 && Offset(parts, 11) == 84
    ensures Offset(parts, 12) == 100 && Offset(parts, 13) == 116 && Offset(parts, 14) == 124 && Offset(parts, 15) == 156
  {
    assert Offset(parts, 1) == 8;
    assert Offset(parts, 2) == 24;
    assert Offset(parts, 3) == 40;
    assert Offset(parts, 4) == 41;
    assert Offset(parts, 5) == 57;
    assert Offset(parts, 6) == 58;
    assert Offset(parts, 7) == 59;
    assert Offset(parts, 8) == 60;
    assert Offset(parts, 9) == 68;
    assert Offset(parts, 10) == 76;
    assert Offset(parts, 11) == 84;
    assert Offset(parts, 12) == 100;
    assert Offset(parts, 13) == 116;
    assert Offset(parts, 14) == 124;
  }

  /** The first half of a receipt, field by field. */
  ghost predicate HeadIs(b: Bytes, f: Fields) {
    && |b| == 156 && b[8..24] == Encode(f.key, 16) && b[24..40] == Encode(f.actor, 16)
    && [b[40]] == Flag(f.tenant.Some?) && b[41..57] == Encode(if f.tenant.Some? then f.tenant.value else 0, 16)
    && b[57] == ActionCode(f.action) && b[58] == f.scope
  }

  ghost predicate TailIs(b: Bytes, f: Fields) {
    && |b| == 156 && [b[59]] == Flag(f.expiry.Some?)
    && b[60..68] == Encode(if f.expiry.Some? then f.expiry.value else 0, 8)
    && b[68..76] == Encode(f.expected, 8) && b[76..84] == Encode(f.generation, 8)
    && b[84..100] == Encode(f.principal, 16) && b[100..116] == Encode(f.target, 16)
    && b[116..124] == Encode(f.position, 8) && b[124..156] == Encode(f.digest, 32)
  }

  lemma PartsShaped(f: Fields)
    ensures ReceiptShaped(ReceiptParts(f))
  {
  }

  /** The first parts of any fifteen parts of these sizes, where they stand. */
  lemma HeadParts(parts: seq<Bytes>)
    requires ReceiptShaped(parts)
    ensures var b := Joined(parts);
            && |b| == 156 && b[8..24] == parts[1] && b[24..40] == parts[2] && b[40..41] == parts[3] && b[41..57] == parts[4]
            && b[57..58] == parts[5] && b[58..59] == parts[6]
  {
    ReceiptOffsets(parts);
    JoinedLength(parts);
    PartAt(parts, 1);
    PartAt(parts, 2);
    PartAt(parts, 3);
    PartAt(parts, 4);
    PartAt(parts, 5);
    PartAt(parts, 6);
  }

  lemma ReceiptHead(f: Fields)
    ensures HeadIs(Joined(ReceiptParts(f)), f)
  {
    PartsShaped(f);
    HeadParts(ReceiptParts(f));
    var b := Joined(ReceiptParts(f));
    SingleByte(b, 40);
    SingleByte(b, 57);
    SingleByte(b, 58);
  }

  lemma ReceiptStarts(f: Fields)
    ensures |Joined(ReceiptParts(f))| == 156 && Joined(ReceiptParts(f))[..8] == ReceiptMagic()
  {
    PartsShaped(f);
    ReceiptOffsets(ReceiptParts(f));
    JoinedLength(ReceiptParts(f));
    PartAt(ReceiptParts(f), 0);
  }

  lemma ReceiptTail(f: Fields)
    ensures TailIs(Joined(ReceiptParts(f)), f)
  {
    var parts := ReceiptParts(f);
    PartsShaped(f);
    ReceiptOffsets(parts);
    JoinedLength(parts);
    PartAt(parts, 7);
    PartAt(parts, 8);
    PartAt(parts, 9);
    PartAt(parts, 10);
    PartAt(parts, 11);
    PartAt(parts, 12);
    PartAt(parts, 13);
    PartAt(parts, 14);
  }

  lemma ReceiptRejoins(b: Bytes, f: Fields)
    requires HeadIs(b, f) && TailIs(b, f) && b[..8] == ReceiptMagic()
    ensures Joined(ReceiptParts(f)) == b
  {
    var parts := ReceiptParts(f);
    PartsShaped(f);
    ReceiptOffsets(parts);
    SingleByte(b, 40);
    SingleByte(b, 57);
    SingleByte(b, 58);
    SingleByte(b, 59);
    forall j | 0 <= j < |parts|
      ensures ReadFrom(b, parts, j)
    {
    }
    Rejoin(b, parts, 0);
    assert parts[0..] == parts && b[0..] == b;
  }

  lemma SingleByte(b: Bytes, at: nat)
    requires at < |b|
    ensures b[at..at + 1] == [b[at]]
  {
  }

  lemma IdsRoundTrip(id: Id)
    ensures ReadId(Encode(id, 16)) == Ok(id)
  {
    Widths();
    DecodeEncode(id, 16);
  }

  lemma LongsRoundTrip(n: U64)
    ensures ReadLong(Encode(n, 8)) == n
  {
    Widths();
    DecodeEncode(n, 8);
  }

  lemma WordsRoundTrip(n: Word)
    ensures ReadWord(Encode(n, 32)) == n
  {
    Widths();
    DecodeEncode(n, 32);
  }

  lemma OptionsRoundTrip(tenant: Option<Id>, expiry: Option<U64>)
    ensures ReadTenant(Flag(tenant.Some?)[0], Encode(if tenant.Some? then tenant.value else 0, 16)) == Ok(tenant)
    ensures ReadExpiry(Flag(expiry.Some?)[0], Encode(if expiry.Some? then expiry.value else 0, 8)) == Ok(expiry)
  {
    Widths();
    if tenant.Some? {
      IdsRoundTrip(tenant.value);
    } else {
      DecodeEncode(0, 16);
    }
    LongsRoundTrip(if expiry.Some? then expiry.value else 0);
  }

  lemma HeadNames(b: Bytes, f: Fields)
    requires HeadIs(b, f)
    ensures ReadId(b[8..24]) == Ok(f.key) && ReadId(b[24..40]) == Ok(f.actor)
  {
    IdsRoundTrip(f.key);
    IdsRoundTrip(f.actor);
  }

  lemma HeadTenant(b: Bytes, f: Fields)
    requires HeadIs(b, f)
    ensures ReadTenant(b[40], b[41..57]) == Ok(f.tenant) && ActionFromCode(b[57]) == Ok(f.action)
  {
    OptionsRoundTrip(f.tenant, f.expiry);
    assert b[40] == Flag(f.tenant.Some?)[0];
  }

  lemma HeadRoundTrip(b: Bytes, f: Fields)
    requires HeadIs(b, f) && ScopeFromCode(f.scope).Some?
    ensures ReadHead(b) == Ok(Head(f.key, f.actor, f.tenant, f.action, f.scope))
  {
    HeadNames(b, f);
    HeadTenant(b, f);
  }

  lemma TailRoundTrip(b: Bytes, f: Fields)
    requires TailIs(b, f) && f.position != 0 && f.digest != 0
    ensures ReadTail(b) == if f.expected + 1 != f.generation then Err(PersistenceUnavailable)
                           else Ok(Tail(f.expiry, f.expected, f.generation, f.principal, f.target, f.position, f.digest))
  {
    OptionsRoundTrip(f.tenant, f.expiry);
    assert ReadExpiry(b[59], b[60..68]) == Ok(f.expiry) by {
      assert b[59] == Flag(f.expiry.Some?)[0];
    }
    assert ReadGeneration(b[68..76]) == Ok(f.expected) && ReadGeneration(b[76..84]) == Ok(f.generation) by {
      LongsRoundTrip(f.expected);
      LongsRoundTrip(f.generation);
    }
    assert ReadId(b[84..100]) == Ok(f.principal) && ReadId(b[100..116]) == Ok(f.target) by {
      IdsRoundTrip(f.principal);
      IdsRoundTrip(f.target);
    }
    LongsRoundTrip(f.position);
    WordsRoundTrip(f.digest);
  }

  /** A receipt that is written is read back as the same receipt, exactly when its generation follows the
      expected one. */
  lemma ReceiptRoundTrip(f: Fields)
    requires EncodeReceipt(f).Ok?
    ensures |EncodeReceipt(f).value| == RECEIPT_BYTES && EncodeReceipt(f).value[..8] == ReceiptMagic()
    ensures DecodeReceipt(EncodeReceipt(f).value) == if f.expected + 1 == f.generation then Ok(f) else Err(PersistenceUnavailable)
  {
    ReceiptStarts(f);
    ReceiptHead(f);
    ReceiptTail(f);
    HeadRoundTrip(Joined(ReceiptParts(f)), f);
    TailRoundTrip(Joined(ReceiptParts(f)), f);
  }

  lemma ReadIdBack(b: Bytes)
    requires |b| == 16 && ReadId(b).Ok?
    ensures Encode(ReadId(b).value, 16) == b
  {
    EncodeDecode(b);
  }

  lemma ReadLongBack(b: Bytes)
    requires |b| == 8
    ensures Encode(ReadLong(b), 8) == b
  {
    EncodeDecode(b);
  }

  lemma ReadWordBack(b: Bytes)
    requires |b| == 32
    ensures Encode(ReadWord(b), 32) == b
  {
    EncodeDecode(b);
  }

  lemma ReadTenantBack(flag: Byte, b: Bytes)
    requires |b| == 16 && ReadTenant(flag, b).Ok?
    ensures var t := ReadTenant(flag, b).value;
            [flag] == Flag(t.Some?) && b == Encode(if t.Some? then t.value else 0, 16)
  {
    EncodeDecode(b);
  }

  lemma ReadExpiryBack(flag: Byte, b: Bytes)
    requires |b| == 8 && ReadExpiry(flag, b).Ok?
    ensures var e := ReadExpiry(flag, b).value;
            [flag] == Flag(e.Some?) && b == Encode(if e.Some? then e.value else 0, 8)
  {
    ReadLongBack(b);
  }

  lemma HeadReadBack(b: Bytes, f: Fields)
    requires |b| == RECEIPT_BYTES
    requires ReadHead(b) == Ok(Head(f.key, f.actor, f.tenant, f.action, f.scope))
    ensures HeadIs(b, f)
  {
    ReadIdBack(b[8..24]);
    ReadIdBack(b[24..40]);
    ReadTenantBack(b[40], b[41..57]);
  }

  lemma TailReadBack(b: Bytes, f: Fields)
    requires |b| == RECEIPT_BYTES
    requires ReadTail(b) == Ok(Tail(f.expiry, f.expected, f.generation, f.principal, f.target, f.position, f.digest))
    ensures TailIs(b, f)
  {
    ReadExpiryBack(b[59], b[60..68]);
    ReadLongBack(b[68..76]);
    ReadLongBack(b[76..84]);
    ReadIdBack(b[84..100]);
    ReadIdBack(b[100..116]);
    ReadLongBack(b[116..124]);
    ReadWordBack(b[124..156]);
  }

  /** Only what the encoder writes is accepted: a readable receipt has one byte form. */
  lemma ReceiptIsCanonical(b: Bytes)
    requires |b| >= 8 && b[..8] == ReceiptMagic() && DecodeReceipt(b).Ok?
    ensures ValidReceipt(DecodeReceipt(b).value) && EncodeReceipt(DecodeReceipt(b).value) == Ok(b)
  {
    var f := DecodeReceipt(b).value;
    HeadReadBack(b, f);
    TailReadBack(b, f);
    ReceiptRejoins(b, f);
  }
}
