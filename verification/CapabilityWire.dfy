/** The two request transports of capability negotiation: protobuf varints and decimal JSON. */
module CapabilityWire {
  import opened Prelude
  import opened Decimals
  import opened TextSplit

  const MAX_BODY_BYTES: nat := 64
  const MAJOR_TAG: Byte := 8
  const CAPABILITY_TAG: Byte := 16

  datatype Capability = Unspecified | CanonicalPublicInterface | ReleaseOneQuery | Metrics

  datatype Request = Request(major: U32, capability: Capability)

  datatype Failure = MalformedRequest | UnknownField | CapabilityUnsupported | TooLarge

  function WireValue(c: Capability): U32 {
    match c
    case Unspecified => 0
    case CanonicalPublicInterface => 1
    case ReleaseOneQuery => 2
    case Metrics => 3
  }

  function FromWire(value: U32): Result<Capability, Failure> {
    match value
    case 0 => Ok(CanonicalPublicInterface)
    case 1 => Ok(CanonicalPublicInterface)
    case 2 => Ok(ReleaseOneQuery)
    case 3 => Ok(Metrics)
    case _ => Err(CapabilityUnsupported)
  }

  /** An unspecified capability means the canonical public interface. */
  function Normalized(r: Request): Request {
    if r.capability.Unspecified? then r.(capability := CanonicalPublicInterface) else r
  }

  /** Seven bits at a time, the lowest first, each group but the last with its high bit set. */
  function Varint(n: nat): (b: Bytes)
    ensures |b| >= 1
  {
    if n < 128 then [n] else [n % 128 + 128] + Varint(n / 128)
  }

  method EncodeVarint(value: U32) returns (encoded: Bytes)
    ensures encoded == Varint(value) && |encoded| <= 5
  {
    encoded := [];
    var rest: nat := value;
    ghost var bound: nat := 0x1_0000_0000;
    for n := 0 to 4
      invariant |encoded| == n && Varint(value) == encoded + Varint(rest)
      invariant rest < bound
      invariant bound == match n case 0 => 0x1_0000_0000 case 1 => 0x200_0000 case 2 => 0x4_0000 case 3 => 0x800 case _ => 0x10
    {
      var byte := rest % 128;
      var low := rest;
      rest := rest / 128;
      if rest == 0 {
        assert Varint(low) == [byte];
        return encoded + [byte];
      }
      assert Varint(low) == [byte + 128] + Varint(rest);
      assert Varint(value) == (encoded + [byte + 128]) + Varint(rest);
      encoded := encoded + [byte + 128];
      bound := bound / 128;
    }
    encoded := encoded + [rest];
  }

  /** How large a number may be whose lowest group is group `k` of a 32-bit number. */
  function Room(k: nat): nat {
    match k
    case 0 => 0x1_0000_0000
    case 1 => 0x200_0000
    case 2 => 0x4_0000
    case 3 => 0x800
    case _ => 0x10
  }

  /** A value and the number of bytes it was read from; a fifth group must fit the 32 bits, and there is no sixth. */
  function ReadVarint(b: Bytes, k: nat): (r: Result<(nat, nat), Failure>)
    ensures r.Ok? ==> r.value.0 < Room(k) && 1 <= r.value.1 <= |b|
    decreases |b|
  {
    if b == [] || k >= 5 || (k == 4 && b[0] % 128 > 15) then Err(MalformedRequest)
    else if b[0] < 128 then Ok((b[0], 1))
    else
      var rest :- ReadVarint(b[1..], k + 1);
      Ok((b[0] % 128 + 128 * rest.0, 1 + rest.1))
  }

  /** A written varint is read back before any suffix, consuming exactly what was written. */
  lemma {:induction false} VarintRoundTrip(n: nat, rest: Bytes, k: nat)
    requires k <= 4 && n < Room(k)
    ensures ReadVarint(Varint(n) + rest, k) == Ok((n, |Varint(n)|))
    decreases n
  {
    var b := Varint(n) + rest;
    if n >= 128 {
      VarintRoundTrip(n / 128, rest, k + 1);
      assert b[1..] == Varint(n / 128) + rest;
    }
  }

  function Shifted(r: Result<(nat, nat), Failure>, value: nat, scale: nat, used: nat): Result<(nat, nat), Failure> {
    match r
    case Err(e) => Err(e)
    case Ok((v, u)) => Ok((value + scale * v, used + u))
  }

  /** What reading one more group does to the value read so far. */
  lemma OneMoreGroup(b: Bytes, k: nat, value: nat, scale: nat)
    requires k < 5 && k < |b| && !(k == 4 && b[k] % 128 > 15)
    ensures Shifted(ReadVarint(b[k..], k), value, scale, k) ==
            if b[k] < 128 then Ok((value + scale * b[k], k + 1))
            else Shifted(ReadVarint(b[k + 1..], k + 1), value + scale * (b[k] % 128), scale * 128, k + 1)
  {
    assert b[k..][0] == b[k] && b[k..][1..] == b[k + 1..];
    var later := ReadVarint(b[k + 1..], k + 1);
    if b[k] >= 128 && later.Ok? {
      Distribute(value, b[k] % 128, scale, later.value.0);
    }
  }

  lemma Distribute(value: nat, group: nat, scale: nat, rest: nat)
    ensures value + scale * (group + 128 * rest) == value + scale * group + (scale * 128) * rest
  {
  }

  /** Where reading is refused: at the end, at a fifth group that does not fit, and at a sixth. */
  lemma RefusedGroup(b: Bytes, k: nat)
    requires k <= |b|
    requires k == |b| || k == 5 || (k == 4 && b[k] % 128 > 15)
    ensures ReadVarint(b[k..], k) == Err(MalformedRequest)
  {
    if k < |b| {
      assert b[k..][0] == b[k];
    }
  }

  lemma FromTheStart(b: Bytes, r: Result<(nat, nat), Failure>)
    requires r == ReadVarint(b, 0)
    ensures r == Shifted(ReadVarint(b[0..], 0), 0, 1, 0)
  {
    assert b[0..] == b;
  }

  /** A reading that began at `cursor`. */
  function MovedBy(r: Result<(nat, nat), Failure>, cursor: nat): Result<(nat, nat), Failure> {
    match r
    case Err(e) => Err(e)
    case Ok((value, used)) => Ok((value, cursor + used))
  }

  method DecodeVarint(body: Bytes, cursor: nat) returns (r: Result<(U32, nat), Failure>)
    requires cursor <= |body|
    ensures r == MovedBy(ReadVarint(body[cursor..], 0), cursor)
  {
    ghost var b := body[cursor..];
    ghost var whole := ReadVarint(b, 0);
    var value: nat := 0;
    var scale: nat := 1;
    FromTheStart(b, whole);
    for k := 0 to 5
      invariant k <= |b| && whole == Shifted(ReadVarint(b[k..], k), value, scale, k)
    {
      if cursor + k >= |body| {
        RefusedGroup(b, k);
        return Err(MalformedRequest);
      }
      var byte := body[cursor + k];
      assert b[k] == byte;
      if k == 4 && byte % 128 > 15 {
        RefusedGroup(b, k);
        return Err(MalformedRequest);
      }
      OneMoreGroup(b, k, value, scale);
      value := value + scale * (byte % 128);
      if byte < 128 {
        assert whole == Ok((value, k + 1));
        return Ok((value, cursor + k + 1));
      }
      scale := scale * 128;
    }
    RefusedGroup(b, 5);
    r := Err(MalformedRequest);
  }

  /** The two fields a request carries, each at most once. */
  datatype Slots = Slots(major: Option<U32>, capability: Option<Capability>)

  function Finish(s: Slots): Result<Request, Failure> {
    if s.major.None? then Err(MalformedRequest)
    else Ok(Request(s.major.value, if s.capability.Some? then s.capability.value else CanonicalPublicInterface))
  }

  function Finished(r: Result<Slots, Failure>): Result<Request, Failure> {
    var s :- r;
    Finish(s)
  }

  function TakeMajor(s: Slots, value: U32): Result<Slots, Failure> {
    if s.major.Some? then Err(MalformedRequest) else Ok(s.(major := Some(value)))
  }

  function TakeCapability(s: Slots, value: U32): Result<Slots, Failure> {
    if s.capability.Some? then Err(MalformedRequest)
    else
      var c :- FromWire(value);
      Ok(s.(capability := Some(c)))
  }

  function TakeField(s: Slots, tag: Byte, value: U32): Result<Slots, Failure> {
    if tag == MAJOR_TAG then TakeMajor(s, value)
    else if tag == CAPABILITY_TAG then TakeCapability(s, value)
    else Err(UnknownField)
  }

  function ReadFields(b: Bytes, s: Slots): Result<Slots, Failure>
    decreases |b|
  {
    if b == [] then Ok(s)
    else
      var field :- ReadVarint(b[1..], 0);
      var taken :- TakeField(s, b[0], field.0);
      ReadFields(b[1 + field.1..], taken)
  }

  method DecodeGrpc(body: Bytes) returns (r: Result<Request, Failure>)
    ensures r == Finished(ReadFields(body, Slots(None, None)))
  {
    var slots := Slots(None, None);
    var cursor := 0;
    ghost var whole := ReadFields(body, slots);
    assert body[0..] == body;
    while cursor < |body|
      invariant cursor <= |body| && whole == ReadFields(body[cursor..], slots)
    {
      var field := DecodeVarint(body, cursor + 1);
      if field.Err? {
        return Err(field.error);
      }
      var taken := TakeField(slots, body[cursor], field.value.0);
      if taken.Err? {
        return Err(taken.error);
      }
      slots, cursor := taken.value, field.value.1;
    }
    assert body[cursor..] == [];
    r := Finish(slots);
  }

  function GrpcForm(r: Request): Bytes {
    [MAJOR_TAG] + (Varint(r.major) + ([CAPABILITY_TAG] + Varint(WireValue(r.capability))))
  }

  method EncodeGrpc(r: Request) returns (body: Bytes)
    ensures body == GrpcForm(r) && |body| <= MAX_BODY_BYTES
  {
    var major := EncodeVarint(r.major);
    var capability := EncodeVarint(WireValue(r.capability));
    body := [MAJOR_TAG] + major + [CAPABILITY_TAG] + capability;
  }

  /** Decoding a protobuf request gives the request, with an unspecified capability made explicit. */
  lemma GrpcRoundTrip(r: Request)
    ensures ReadFields(GrpcForm(r), Slots(None, None)) ==
            Ok(Slots(Some(r.major), Some(Normalized(r).capability)))
  {
    var tail := [CAPABILITY_TAG] + Varint(WireValue(r.capability));
    var body := GrpcForm(r);
    assert body[1..] == Varint(r.major) + tail;
    VarintRoundTrip(r.major, tail, 0);
    assert body[1 + |Varint(r.major)|..] == tail;
    var first := Slots(Some(r.major), None);
    assert tail[1..] == Varint(WireValue(r.capability)) + [];
    VarintRoundTrip(WireValue(r.capability), [], 0);
    assert ReadFields(tail, first) == Ok(Slots(Some(r.major), Some(Normalized(r).capability)));
  }

  const COMMA: Byte := 0x2C
  const COLON: Byte := 0x3A
  const QUOTE: Byte := 0x22
  const OPEN_BRACE: Byte := 0x7B
  const CLOSE_BRACE: Byte := 0x7D

  predicate IsJsonSpace(c: Byte) {
    c == 0x20 || c == 0x09 || c == 0x0D || c == 0x0A
  }

  function TrimLeft(t: Bytes): Bytes {
    if t != [] && IsJsonSpace(t[0]) then TrimLeft(t[1..]) else t
  }

  function TrimRight(t: Bytes): Bytes {
    if t != [] && IsJsonSpace(t[|t| - 1]) then TrimRight(t[..|t| - 1]) else t
  }

  function TrimJson(t: Bytes): Bytes {
    TrimRight(TrimLeft(t))
  }

  function ParseJsonU32(t: Bytes): Result<U32, Failure> {
    var digits := TrimJson(t);
    if !IsCanonical(digits) || ValueOf(digits) > U32_MAX then Err(MalformedRequest) else Ok(ValueOf(digits))
  }

  function MajorKey(): Bytes {
    Ascii("\"api_major\"")
  }

  function CapabilityKey(): Bytes {
    Ascii("\"capability\"")
  }

  /** One member of the request object. */
  function TakeMember(s: Slots, member: Bytes): Result<Slots, Failure> {
    match Cut(member, COLON)
    case None => Err(MalformedRequest)
    case Some((before, after)) =>
      var key := TrimJson(before);
      if key == MajorKey() then
        if s.major.Some? then Err(MalformedRequest) else var value :- ParseJsonU32(after); TakeMajor(s, value)
      else if key == CapabilityKey() then
        if s.capability.Some? then Err(MalformedRequest) else var value :- ParseJsonU32(after); TakeCapability(s, value)
      else if key != [] && key[0] == QUOTE && key[|key| - 1] == QUOTE then Err(UnknownField)
      else Err(MalformedRequest)
  }

  function TakeMembers(s: Slots, members: seq<Bytes>): Result<Slots, Failure> {
    if members == [] then Ok(s)
    else
      var front :- TakeMembers(s, members[..|members| - 1]);
      TakeMember(front, members[|members| - 1])
  }

  /** The text between the braces. */
  function Inside(text: Bytes): Option<Bytes> {
    var t := TrimJson(text);
    if |t| >= 2 && t[0] == OPEN_BRACE && t[|t| - 1] == CLOSE_BRACE then Some(t[1..|t| - 1]) else None
  }

  function ReadObject(text: Bytes): Result<Slots, Failure> {
    match Inside(text)
    case None => Err(MalformedRequest)
    case Some(inner) => TakeMembers(Slots(None, None), Split(inner, COMMA))
  }

  lemma {:induction false} MemberFails(s: Slots, members: seq<Bytes>, n: nat)
    requires n <= |members| && TakeMembers(s, members[..n]).Err?
    ensures TakeMembers(s, members) == TakeMembers(s, members[..n])
    decreases |members| - n
  {
    if n < |members| {
      assert members[..n + 1][..n] == members[..n];
      MemberFails(s, members, n + 1);
    } else {
      assert members[..n] == members;
    }
  }

  predicate IsContinuation(c: Byte) {
    0x80 <= c <= 0xBF
  }

  /** The length of the character at the start, zero if there is none (section 4 of RFC 3629). */
  function CharacterLength(b: Bytes): (n: nat)
    requires b != []
    ensures n <= |b|
  {
    if b[0] < 0x80 then 1
    else if 0xC2 <= b[0] <= 0xDF && |b| >= 2 && IsContinuation(b[1]) then 2
    else if |b| >= 3 && IsContinuation(b[1]) && IsContinuation(b[2])
            && (0xE1 <= b[0] <= 0xEC || 0xEE <= b[0] <= 0xEF || (b[0] == 0xE0 && b[1] >= 0xA0) || (b[0] == 0xED && b[1] <= 0x9F))
    then 3
    else if |b| >= 4 && IsContinuation(b[1]) && IsContinuation(b[2]) && IsContinuation(b[3])
            && (0xF1 <= b[0] <= 0xF3 || (b[0] == 0xF0 && b[1] >= 0x90) || (b[0] == 0xF4 && b[1] <= 0x8F))
    then 4
    else 0
  }

  predicate IsUtf8(b: Bytes)
    decreases |b|
  {
    b == [] || (CharacterLength(b) > 0 && IsUtf8(b[CharacterLength(b)..]))
  }

  lemma {:induction false} AsciiIsUtf8(b: Bytes)
    requires forall i :: 0 <= i < |b| ==> b[i] < 0x80
    ensures IsUtf8(b)
  {
    if b != [] {
      AsciiIsUtf8(b[1..]);
    }
  }

  /** What a JSON body is read as. */
  function ReadBody(body: Bytes): Result<Request, Failure> {
    if IsUtf8(body) then Finished(ReadObject(body)) else Err(MalformedRequest)
  }

  method DecodeHttp(text: Bytes) returns (r: Result<Request, Failure>)
    ensures r == ReadBody(text)
  {
    if !IsUtf8(text) {
      return Err(MalformedRequest);
    }
    var inner := Inside(text);
    if inner.None? {
      return Err(MalformedRequest);
    }
    var slots := TakeAll(Split(inner.value, COMMA));
    r := Finished(slots);
  }

  /** Takes the members of an object one after the other, up to the first refusal. */
  method TakeAll(members: seq<Bytes>) returns (r: Result<Slots, Failure>)
    ensures r == TakeMembers(Slots(None, None), members)
  {
    var slots := Slots(None, None);
    for n := 0 to |members|
      invariant TakeMembers(Slots(None, None), members[..n]) == Ok(slots)
    {
      assert members[..n + 1][..n] == members[..n];
      var taken := TakeMember(slots, members[n]);
      if taken.Err? {
        MemberFails(Slots(None, None), members, n + 1);
        return Err(taken.error);
      }
      slots := taken.value;
    }
    assert members[..|members|] == members;
    r := Ok(slots);
  }

  function Member(key: Bytes, value: U32): Bytes {
    key + [COLON] + Digits(value)
  }

  function HttpForm(r: Request): Bytes {
    [OPEN_BRACE] + (Member(MajorKey(), r.major) + [COMMA] + Member(CapabilityKey(), WireValue(r.capability))) + [CLOSE_BRACE]
  }

  method EncodeHttp(r: Request) returns (body: Bytes)
    ensures body == HttpForm(r) && |body| <= MAX_BODY_BYTES
  {
    var major := EncodeU32(r.major);
    var capability := EncodeU32(WireValue(r.capability));
    U32HasTenDigits(r.major);
    U32HasTenDigits(WireValue(r.capability));
    body := [OPEN_BRACE] + MajorKey() + [COLON] + major;
    body := body + [COMMA] + CapabilityKey() + [COLON] + capability + [CLOSE_BRACE];
  }

  /** A key as it is printed: quoted, without marks or space. */
  ghost predicate PlainKey(key: Bytes) {
    && |key| >= 2 && key[0] == QUOTE && key[|key| - 1] == QUOTE
    && Free(key, COLON) && Free(key, COMMA)
  }

  lemma KeysArePlain()
    ensures PlainKey(MajorKey()) && PlainKey(CapabilityKey())
    ensures |MajorKey()| == 11 && |CapabilityKey()| == 12 && MajorKey() != CapabilityKey()
  {
    assert MajorKey()[1] == 'a' as int && CapabilityKey()[1] == 'c' as int;
  }

  lemma DigitsAreFree(n: nat)
    ensures Free(Digits(n), COMMA) && Free(Digits(n), COLON)
    ensures TrimJson(Digits(n)) == Digits(n)
  {
    DigitsAreCanonical(n);
    var t := Digits(n);
    assert IsDigit(t[0]) && IsDigit(t[|t| - 1]);
    forall i | 0 <= i < |t|
      ensures t[i] != COMMA && t[i] != COLON
    {
      assert IsDigit(t[i]);
    }
  }

  lemma PrintedMember(key: Bytes, value: U32)
    requires PlainKey(key)
    ensures Free(Member(key, value), COMMA)
    ensures Cut(Member(key, value), COLON) == Some((key, Digits(value)))
    ensures TrimJson(key) == key && ParseJsonU32(Digits(value)) == Ok(value)
  {
    DigitsAreFree(value);
    DigitsAreCanonical(value);
    var m := Member(key, value);
    assert m[|key|] == COLON;
    var cut := Cut(m, COLON).value;
    FirstSplitIsUnique(key, Digits(value), cut.0, cut.1, COLON);
  }

  /** Up to space around it, a number is read from exactly the text it is printed as. */
  lemma DecimalsAreABijection(t: Bytes, n: U32)
    ensures ParseJsonU32(t) == Ok(n) <==> TrimJson(t) == Digits(n)
  {
    DigitsAreCanonical(n);
    if IsCanonical(TrimJson(t)) {
      CanonicalIsPrinted(TrimJson(t));
    }
  }

  lemma FormIsAscii(r: Request)
    ensures IsUtf8(HttpForm(r))
  {
    DigitsAreCanonical(r.major);
    DigitsAreCanonical(WireValue(r.capability));
    assert forall i :: 0 <= i < |MajorKey()| ==> MajorKey()[i] < 0x80;
    assert forall i :: 0 <= i < |CapabilityKey()| ==> CapabilityKey()[i] < 0x80;
    AsciiIsUtf8(HttpForm(r));
  }

  /** Decoding a JSON request gives the request, with an unspecified capability made explicit. */
  lemma HttpRoundTrip(r: Request)
    ensures ReadBody(HttpForm(r)) == Ok(Normalized(r))
  {
    FormIsAscii(r);
    ObjectRoundTrip(r);
  }

  lemma ObjectRoundTrip(r: Request)
    ensures ReadObject(HttpForm(r)) == Ok(Slots(Some(r.major), Some(Normalized(r).capability)))
  {
    var first, second := Member(MajorKey(), r.major), Member(CapabilityKey(), WireValue(r.capability));
    KeysArePlain();
    PrintedMember(MajorKey(), r.major);
    PrintedMember(CapabilityKey(), WireValue(r.capability));
    var inner := first + [COMMA] + second;
    assert Inside(HttpForm(r)) == Some(inner) by {
      assert TrimJson(HttpForm(r)) == HttpForm(r);
      assert HttpForm(r)[1..|HttpForm(r)| - 1] == inner;
    }
    SplitFree(first, COMMA);
    SplitAppend(first, second, COMMA);
    assert Split(inner, COMMA) == [first, second];
    TwoMembers(r, first, second);
  }

  lemma TwoMembers(r: Request, first: Bytes, second: Bytes)
    requires first == Member(MajorKey(), r.major) && second == Member(CapabilityKey(), WireValue(r.capability))
    ensures TakeMembers(Slots(None, None), [first, second]) == Ok(Slots(Some(r.major), Some(Normalized(r).capability)))
  {
    KeysArePlain();
    PrintedMember(MajorKey(), r.major);
    PrintedMember(CapabilityKey(), WireValue(r.capability));
    assert [first, second][..1] == [first] && [first][..0] == [];
    assert TakeMember(Slots(None, None), first) == Ok(Slots(Some(r.major), None));
    assert TakeMembers(Slots(None, None), [first]) == Ok(Slots(Some(r.major), None));
  }

  datatype Transport = GrpcProtobuf | HttpJson

  /** One bounded body, decoded by its transport. */
  method Decode(transport: Transport, body: Bytes) returns (r: Result<Request, Failure>)
    ensures |body| > MAX_BODY_BYTES ==> r == Err(TooLarge)
    ensures |body| <= MAX_BODY_BYTES && transport.GrpcProtobuf? ==> r == Finished(ReadFields(body, Slots(None, None)))
    ensures |body| <= MAX_BODY_BYTES && transport.HttpJson? ==> r == ReadBody(body)
  {
    if |body| > MAX_BODY_BYTES {
      return Err(TooLarge);
    }
    if transport.GrpcProtobuf? {
      r := DecodeGrpc(body);
    } else {
      r := DecodeHttp(body);
    }
  }

  /** Either transport carries every request: what is encoded fits the bound and decodes to the same
      normalised request. */
  method CarryAcross(transport: Transport, request: Request) returns (r: Result<Request, Failure>)
    ensures r == Ok(Normalized(request))
  {
    var body;
    if transport.GrpcProtobuf? {
      body := EncodeGrpc(request);
      GrpcRoundTrip(request);
    } else {
      body := EncodeHttp(request);
      HttpRoundTrip(request);
    }
    r := Decode(transport, body);
  }
}
