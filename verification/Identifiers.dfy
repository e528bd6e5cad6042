/** Canonical identifier text, printed and parsed by the domain, and checked again on the wire. */
module Identifiers {
  import opened Prelude

  const HYPHEN: Byte := 0x2D

  datatype Failure = InvalidIdentifier

  /** Sixteen bytes, not all zero. */
  predicate IsIdentity(b: Bytes) {
    |b| == 16 && exists i :: 0 <= i < 16 && b[i] != 0
  }

  function HexCharacter(n: nat): (c: Byte)
    requires n < 16
  {
    if n < 10 then 0x30 + n else 0x61 + n - 10
  }

  predicate IsHex(c: Byte) {
    0x30 <= c <= 0x39 || 0x61 <= c <= 0x66
  }

  function HexValue(c: Byte): (n: nat)
    requires IsHex(c)
    ensures n < 16 && HexCharacter(n) == c
  {
    if c <= 0x39 then c - 0x30 else c - 0x61 + 10
  }

  /** A separator stands before the bytes 4, 6, 8 and 10. */
  predicate SeparatedBefore(n: nat) {
    n == 4 || n == 6 || n == 8 || n == 10
  }

  /** Where the digits of byte `n` stand. */
  function DigitsAt(n: nat): nat {
    2 * n + (if n >= 4 then 1 else 0) + (if n >= 6 then 1 else 0) + (if n >= 8 then 1 else 0) + (if n >= 10 then 1 else 0)
  }

  predicate SeparatorAt(i: nat) {
    i == 8 || i == 13 || i == 18 || i == 23
  }

  /** The text of sixteen bytes, said place by place. */
  ghost predicate IsTextOf(b: Bytes, t: Bytes) {
    && |b| == 16 && |t| == 36
    && (forall i :: 0 <= i < 36 && SeparatorAt(i) ==> t[i] == HYPHEN)
    && (forall n :: 0 <= n < 16 ==> DigitsOf(b[n], t, n))
  }

  ghost predicate DigitsOf(byte: Byte, t: Bytes, n: nat)
    requires n < 16 && |t| == 36
  {
    t[DigitsAt(n)] == HexCharacter(byte / 16) && t[DigitsAt(n) + 1] == HexCharacter(byte % 16)
  }

  /** Every place of the text is a separator or one of the two digits of one byte. */
  lemma PlaceIs(i: nat) returns (n: nat)
    requires i < 36
    ensures n < 16 && (SeparatorAt(i) || i == DigitsAt(n) || i == DigitsAt(n) + 1)
  {
    n := if i < 8 then i / 2 else if i < 13 then (i - 1) / 2 else if i < 18 then (i - 2) / 2
    else if i < 23 then (i - 3) / 2 else (i - 4) / 2;
    if i == 13 || i == 18 || i == 23 || i == 8 {
      n := 0;
    }
  }

  /** The digits of the bytes before `n` are in place, and every separator so far. */
  ghost predicate WrittenUpTo(b: Bytes, t: Bytes, n: nat)
    requires |b| == 16 && n <= 16
  {
    && |t| == (if n == 0 then 0 else DigitsAt(n - 1) + 2)
    && (forall i :: 0 <= i < |t| && SeparatorAt(i) ==> t[i] == HYPHEN)
    && (forall m :: 0 <= m < n ==> DigitsAt(m) + 1 < |t|
                                   && t[DigitsAt(m)] == HexCharacter(b[m] / 16) && t[DigitsAt(m) + 1] == HexCharacter(b[m] % 16))
  }

  method CanonicalIdentifierText(b: Bytes) returns (t: Bytes)
    requires |b| == 16
    ensures IsTextOf(b, t)
  {
    t := [];
    for n := 0 to 16
      invariant WrittenUpTo(b, t, n)
    {
      if SeparatedBefore(n) {
        t := t + [HYPHEN];
      }
      t := t + [HexCharacter(b[n] / 16), HexCharacter(b[n] % 16)];
    }
    forall n | 0 <= n < 16
      ensures DigitsOf(b[n], t, n)
    {
    }
  }

  predicate WellFormed(t: Bytes) {
    |t| == 36 && forall i :: 0 <= i < 36 ==> if SeparatorAt(i) then t[i] == HYPHEN else IsHex(t[i])
  }

  function DecodePair(high: Byte, low: Byte): Byte
    requires IsHex(high) && IsHex(low)
  {
    HexValue(high) * 16 + HexValue(low)
  }

  function ParseIdentifier(t: Bytes): (r: Result<Bytes, Failure>)
    ensures r.Ok? ==> |r.value| == 16
  {
    if !WellFormed(t) then Err(InvalidIdentifier)
    else
      Ok(seq(16, n requires 0 <= n < 16 =>
               DecodePair(t[DigitsAt(n)], t[DigitsAt(n) + 1])))
  }

  /** The domain's constructor refuses the all-zero identity. */
  function ParseCanonical(t: Bytes): Result<Bytes, Failure> {
    match ParseIdentifier(t)
    case Err(e) => Err(e)
    case Ok(b) => if IsIdentity(b) then Ok(b) else Err(InvalidIdentifier)
  }

  /** Parsing inverts printing, and accepts nothing but printed text. */
  lemma ParseInvertsPrint(b: Bytes, t: Bytes)
    requires |b| == 16
    ensures IsTextOf(b, t) <==> ParseIdentifier(t) == Ok(b)
  {
    if IsTextOf(b, t) {
      forall i | 0 <= i < 36
        ensures if SeparatorAt(i) then t[i] == HYPHEN else IsHex(t[i])
      {
        var n := PlaceIs(i);
        if !SeparatorAt(i) {
          assert DigitsOf(b[n], t, n);
        }
      }
      var parsed := ParseIdentifier(t).value;
      forall n | 0 <= n < 16
        ensures parsed[n] == b[n]
      {
        assert DigitsOf(b[n], t, n);
      }
      assert parsed == b;
    }
    if ParseIdentifier(t) == Ok(b) {
      forall n | 0 <= n < 16
        ensures DigitsOf(b[n], t, n)
      {
        assert b[n] == DecodePair(t[DigitsAt(n)], t[DigitsAt(n) + 1]);
      }
    }
  }

  /** The wire layer's check of an identifier's text. */
  predicate WireIdentifier(t: Bytes) {
    && |t| == 36
    && (forall i :: 0 <= i < 36 ==> if SeparatorAt(i) then t[i] == HYPHEN else 0x30 <= t[i] <= 0x39 || 0x61 <= t[i] <= 0x66)
    && exists i :: 0 <= i < 36 && (0x31 <= t[i] <= 0x39 || 0x61 <= t[i] <= 0x66)
  }

  /** The wire layer accepts exactly the text the domain parser accepts. */
  lemma WireAgreesWithDomain(t: Bytes)
    ensures WireIdentifier(t) <==> ParseCanonical(t).Ok?
  {
    if WellFormed(t) {
      var b := ParseIdentifier(t).value;
      if i :| 0 <= i < 36 && (0x31 <= t[i] <= 0x39 || 0x61 <= t[i] <= 0x66) {
        var n := PlaceIs(i);
        assert b[n] == DecodePair(t[DigitsAt(n)], t[DigitsAt(n) + 1]);
        assert b[n] != 0;
      } else {
        forall n | 0 <= n < 16
          ensures b[n] == 0
        {
          assert b[n] == DecodePair(t[DigitsAt(n)], t[DigitsAt(n) + 1]);
        }
      }
    }
  }

  /** Printing a non-zero identity and parsing it back gives the identity, for every identity. */
  lemma IdentifierRoundTrip(b: Bytes, t: Bytes)
    requires IsIdentity(b) && IsTextOf(b, t)
    ensures ParseCanonical(t) == Ok(b) && WireIdentifier(t)
  {
    ParseInvertsPrint(b, t);
    WireAgreesWithDomain(t);
  }

  /** Which byte's digits, or which separator, stand at a place. */
  function ByteAt(i: nat): (n: nat)
    requires i < 36
    ensures n < 16
  {
    if i < 9 then (if i == 8 then 3 else i / 2)
    else if i < 14 then (i - 1) / 2
    else if i < 19 then (i - 2) / 2
    else if i < 24 then (i - 3) / 2
    else (i - 4) / 2
  }

  function CanonicalText(b: Bytes): (t: Bytes)
    requires |b| == 16
    ensures |t| == 36
  {
    seq(36, i requires 0 <= i < 36 =>
          if SeparatorAt(i) then HYPHEN
          else if i == DigitsAt(ByteAt(i)) then HexCharacter(b[ByteAt(i)] / 16) else HexCharacter(b[ByteAt(i)] % 16))
  }

  lemma CanonicalTextIsText(b: Bytes)
    requires |b| == 16
    ensures IsTextOf(b, CanonicalText(b))
  {
    var t := CanonicalText(b);
    forall n | 0 <= n < 16
      ensures DigitsOf(b[n], t, n)
    {
    }
  }

  lemma CanonicalTextInjective(a: Bytes, b: Bytes)
    requires |a| == 16 == |b| && CanonicalText(a) == CanonicalText(b)
    ensures a == b
  {
    CanonicalTextIsText(a);
    CanonicalTextIsText(b);
    ParseInvertsPrint(a, CanonicalText(a));
    ParseInvertsPrint(b, CanonicalText(b));
  }

  /** Plain lowercase hexadecimal. */
  function Hexadecimal(b: Bytes): (t: Bytes)
    ensures |t| == 2 * |b|
  {
    if b == [] then []
    else Hexadecimal(b[..|b| - 1]) + [HexCharacter(b[|b| - 1] / 16), HexCharacter(b[|b| - 1] % 16)]
  }

  lemma DigitsTellTheByte(x: Byte, y: Byte)
    requires HexCharacter(x / 16) == HexCharacter(y / 16) && HexCharacter(x % 16) == HexCharacter(y % 16)
    ensures x == y
  {
    assert x / 16 == y / 16 && x % 16 == y % 16;
  }

  lemma {:induction false} HexadecimalInjective(a: Bytes, b: Bytes)
    requires |a| == |b| && Hexadecimal(a) == Hexadecimal(b)
    ensures a == b
  {
    if a != [] {
      var n := |a| - 1;
      HexadecimalEnds(a);
      HexadecimalEnds(b);
      HexadecimalInjective(a[..n], b[..n]);
      DigitsTellTheByte(a[n], b[n]);
      assert a == a[..n] + [a[n]] && b == b[..n] + [b[n]];
    }
  }

  lemma HexadecimalEnds(b: Bytes)
    requires b != []
    ensures var n := |b| - 1;
            var t := Hexadecimal(b);
            && t[..2 * n] == Hexadecimal(b[..n]) && t[2 * n] == HexCharacter(b[n] / 16) && t[2 * n + 1] == HexCharacter(b[n] % 16)
  {
  }

  lemma {:induction false} HexadecimalLetters(b: Bytes)
    ensures forall i :: 0 <= i < |Hexadecimal(b)| ==> IsHex(Hexadecimal(b)[i])
  {
    if b != [] {
      HexadecimalLetters(b[..|b| - 1]);
    }
  }
}
