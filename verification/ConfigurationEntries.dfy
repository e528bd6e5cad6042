/** The validators of list entries, and why joining accepted entries with commas loses nothing. */
module ConfigurationEntries {
  import opened Prelude
  import opened Decimals
  import opened TextSplit

  const COMMA: Byte := 0x2C
  const COLON: Byte := 0x3A
  const SLASH: Byte := 0x2F
  const OPEN_BRACKET: Byte := 0x5B
  const CLOSE_BRACKET: Byte := 0x5D

  predicate IsSpace(c: Byte) {
    c == 0x20 || c == 0x09 || c == 0x0A || c == 0x0C || c == 0x0D
  }

  predicate IsControl(c: Byte) {
    c < 0x20 || c == 0x7F
  }

  predicate IsUpper(c: Byte) {
    0x41 <= c <= 0x5A
  }

  predicate IsHostCharacter(c: Byte) {
    IsUpper(c) || 0x61 <= c <= 0x7A || IsDigit(c) || c == 0x2E || c == 0x2D || c == COLON
  }

  predicate AllDigits(t: Bytes) {
    forall i :: 0 <= i < |t| ==> IsDigit(t[i])
  }

  /** A prefix length: up to three digits without a leading zero. */
  predicate IsPrefixText(t: Bytes) {
    1 <= |t| <= 3 && AllDigits(t) && (|t| > 1 ==> t[0] != ZERO)
  }

  /** A trusted proxy range. Which address texts there are is the address parser's business. */
  predicate AcceptsCidr(v: Bytes, isV4: Bytes -> bool, isV6: Bytes -> bool) {
    && 1 <= |v| <= 64 && (forall i :: 0 <= i < |v| ==> !IsSpace(v[i]))
    && var parts := Cut(v, SLASH);
       && parts.Some? && IsPrefixText(parts.value.1)
       && (isV4(parts.value.0) || isV6(parts.value.0))
       && ValueOf(parts.value.1) <= if isV4(parts.value.0) then 32 else 128
  }

  /** An accepted range holds no comma, since no address text does. */
  lemma CidrIsPlain(v: Bytes, isV4: Bytes -> bool, isV6: Bytes -> bool)
    requires forall t :: isV4(t) || isV6(t) ==> Free(t, COMMA)
    requires AcceptsCidr(v, isV4, isV6)
    ensures v != [] && Free(v, COMMA)
  {
    var parts := Cut(v, SLASH).value;
    assert Free(parts.0, COMMA);
  }

  /** What stands before and after the last mark. */
  function CutLast(t: Bytes, mark: Byte): (r: Option<(Bytes, Bytes)>)
    ensures r.None? <==> Free(t, mark)
    ensures r.Some? ==> t == r.value.0 + [mark] + r.value.1 && Free(r.value.1, mark)
  {
    if t == [] then None
    else if t[|t| - 1] == mark then Some((t[..|t| - 1], []))
    else
      match CutLast(t[..|t| - 1], mark)
      case None => None
      case Some((a, b)) => Some((a, b + [t[|t| - 1]]))
  }

  /** A port without a leading zero that fits sixteen bits. */
  predicate IsPort(t: Bytes) {
    IsCanonical(t) && ValueOf(t) <= 0xFFFF
  }

  function SchemeMark(): Bytes {
    [COLON, SLASH, SLASH]
  }

  /** What stands before and after the first `://`. */
  function CutScheme(t: Bytes): (r: Option<(Bytes, Bytes)>)
    ensures r.Some? ==> t == r.value.0 + SchemeMark() + r.value.1
  {
    if |t| < 3 then None
    else if t[..3] == SchemeMark() then
      assert t == [] + SchemeMark() + t[3..];
      Some(([], t[3..]))
    else
      match CutScheme(t[1..])
      case None => None
      case Some((a, b)) =>
        assert t == [t[0]] + t[1..] && [t[0]] + (a + SchemeMark() + b) == ([t[0]] + a) + SchemeMark() + b;
        Some(([t[0]] + a, b))
  }

  predicate AllHost(host: Bytes) {
    host != [] && forall i :: 0 <= i < |host| ==> IsHostCharacter(host[i])
  }

  /** The part after a bracketed address: nothing, or a colon and a port. */
  predicate IsBracketSuffix(t: Bytes) {
    t == [] || (t[0] == COLON && IsPort(t[1..]))
  }

  predicate AcceptsBracketed(authority: Bytes, isV6: Bytes -> bool) {
    && |authority| >= 1 && authority[0] == OPEN_BRACKET
    && var parts := Cut(authority[1..], CLOSE_BRACKET);
       && parts.Some? && IsBracketSuffix(parts.value.1)
       && isV6(parts.value.0) && AllHost(parts.value.0)
  }

  predicate AcceptsNamed(authority: Bytes) {
    match CutLast(authority, COLON)
    case None => AllHost(authority) && forall i :: 0 <= i < |authority| ==> !IsUpper(authority[i])
    case Some((host, port)) =>
      IsPort(port) && Free(host, COLON) && AllHost(host) && forall i :: 0 <= i < |host| ==> !IsUpper(host[i])
  }

  /** An exact `http` or `https` origin. */
  predicate AcceptsOrigin(v: Bytes, isV6: Bytes -> bool) {
    && 1 <= |v| <= 256
    && (forall i :: 0 <= i < |v| ==> !IsControl(v[i]) && !IsSpace(v[i]) && v[i] != 0x2A)
    && var parts := CutScheme(v);
       && parts.Some? && (parts.value.0 == Ascii("http") || parts.value.0 == Ascii("https"))
       && var authority := parts.value.1;
          && authority != []
          && (forall i :: 0 <= i < |authority| ==> authority[i] !in {SLASH, 0x3F, 0x23, 0x40} && authority[i] < 128)
          && if authority[0] == OPEN_BRACKET then AcceptsBracketed(authority, isV6) else AcceptsNamed(authority)
  }

  /** An accepted origin holds no comma, whatever the address parser takes for an address. */
  lemma OriginIsPlain(v: Bytes, isV6: Bytes -> bool)
    requires AcceptsOrigin(v, isV6)
    ensures v != [] && Free(v, COMMA)
  {
    var parts := CutScheme(v).value;
    assert Free(parts.1, COMMA);
    assert v == parts.0 + SchemeMark() + parts.1;
  }
}
