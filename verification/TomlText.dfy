/** Printing strings as TOML basic strings, and the quote scanners that read lines before the TOML parser
    does. Text is a sequence of code points; every byte of a longer encoding is as little special to a
    scanner as the code point it belongs to. */
module TomlText {
  import opened Prelude

  /** A Unicode scalar value. */
  type CodePoint = n: nat | n < 0xD800 || 0xE000 <= n < 0x11_0000
  type Text = seq<CodePoint>

  const QUOTE: CodePoint := 0x22
  const APOSTROPHE: CodePoint := 0x27
  const BACKSLASH: CodePoint := 0x5C
  const HASH: CodePoint := 0x23
  const EQUALS: CodePoint := 0x3D

  /** The control characters of Unicode. */
  predicate IsControl(c: CodePoint) {
    c < 0x20 || 0x7F <= c < 0xA0
  }

  function HexDigit(n: nat): CodePoint
    requires n < 16
  {
    if n < 10 then 0x30 + n else 0x61 + n - 10
  }

  function FourDigits(n: nat): Text
    requires n < 0x1_0000
  {
    [HexDigit(n / 0x1000), HexDigit(n / 0x100 % 16), HexDigit(n / 0x10 % 16), HexDigit(n % 16)]
  }

  /** One character of a basic string. */
  function Escaped(c: CodePoint): (r: Text)
    ensures |r| >= 1
  {
    if c == BACKSLASH || c == QUOTE then [BACKSLASH, c]
    else if c == 0x08 then [BACKSLASH, 0x62]
    else if c == 0x09 then [BACKSLASH, 0x74]
    else if c == 0x0A then [BACKSLASH, 0x6E]
    else if c == 0x0C then [BACKSLASH, 0x66]
    else if c == 0x0D then [BACKSLASH, 0x72]
    else if IsControl(c) then [BACKSLASH, 0x75] + FourDigits(c)
    else [c]
  }

  function EscapedText(value: Text): Text {
    if value == [] then [] else EscapedText(value[..|value| - 1]) + Escaped(value[|value| - 1])
  }

  lemma EscapedNext(value: Text, n: nat)
    requires n < |value|
    ensures EscapedText(value[..n + 1]) == EscapedText(value[..n]) + Escaped(value[n])
  {
    assert value[..n + 1][..n] == value[..n];
  }

  lemma Reassociate(a: Text, b: Text, c: Text)
    ensures (a + b) + c == a + (b + c)
  {
  }

  method RenderTomlBasicString(value: Text) returns (rendered: Text)
    ensures rendered == [QUOTE] + EscapedText(value) + [QUOTE]
  {
    rendered := [QUOTE];
    for n := 0 to |value|
      invariant rendered == [QUOTE] + EscapedText(value[..n])
    {
      EscapedNext(value, n);
      Reassociate([QUOTE], EscapedText(value[..n]), Escaped(value[n]));
      rendered := rendered + Escaped(value[n]);
    }
    assert value[..|value|] == value;
    rendered := rendered + [QUOTE];
  }

  function HexValue(c: CodePoint): Option<nat> {
    if 0x30 <= c <= 0x39 then Some(c - 0x30)
    else if 0x61 <= c <= 0x66 then Some(c - 0x61 + 10)
    else if 0x41 <= c <= 0x46 then Some(c - 0x41 + 10)
    else None
  }

  function HexNumber(t: Text): Option<nat> {
    if t == [] then Some(0)
    else
      match (HexNumber(t[..|t| - 1]), HexValue(t[|t| - 1]))
      case (Some(high), Some(low)) => Some(high * 16 + low)
      case _ => None
  }

  function SimpleEscape(c: CodePoint): Option<CodePoint> {
    if c == QUOTE || c == BACKSLASH then Some(c)
    else if c == 0x62 then Some(0x08)
    else if c == 0x74 then Some(0x09)
    else if c == 0x6E then Some(0x0A)
    else if c == 0x66 then Some(0x0C)
    else if c == 0x72 then Some(0x0D)
    else None
  }

  predicate IsScalar(n: nat) {
    n < 0xD800 || 0xE000 <= n < 0x11_0000
  }

  /** What a basic string may hold unescaped (String section of TOML v1.0.0). */
  predicate Plain(c: CodePoint) {
    c == 0x09 || (0x20 <= c && c != QUOTE && c != BACKSLASH && c != 0x7F)
  }

  function Prepend(c: CodePoint, rest: Option<Text>): Option<Text> {
    if rest.Some? then Some([c] + rest.value) else None
  }

  /** The value of what follows an opening quote; the closing quote must end the text. */
  function Unescape(t: Text): Option<Text>
    decreases |t|
  {
    if t == [] then None
    else if t[0] == QUOTE then if |t| == 1 then Some([]) else None
    else if t[0] != BACKSLASH then if Plain(t[0]) then Prepend(t[0], Unescape(t[1..])) else None
    else if |t| == 1 then None
    else if SimpleEscape(t[1]).Some? then Prepend(SimpleEscape(t[1]).value, Unescape(t[2..]))
    else
      var digits := if t[1] == 0x75 then 4 else if t[1] == 0x55 then 8 else 0;
      if digits == 0 || |t| < 2 + digits then None
      else
        match HexNumber(t[2..2 + digits])
        case Some(n) => if IsScalar(n) then Prepend(n, Unescape(t[2 + digits..])) else None
        case None => None
  }

  function ParseBasicString(t: Text): Option<Text> {
    if |t| >= 1 && t[0] == QUOTE then Unescape(t[1..]) else None
  }

  lemma FourDigitsRead(a: nat, b: nat, c: nat, d: nat)
    requires a < 16 && b < 16 && c < 16 && d < 16
    ensures HexNumber([HexDigit(a), HexDigit(b), HexDigit(c), HexDigit(d)]) == Some(((a * 16 + b) * 16 + c) * 16 + d)
  {
    var t := [HexDigit(a), HexDigit(b), HexDigit(c), HexDigit(d)];
    assert t[..3][..2] == t[..2] && t[..2][..1] == t[..1] && t[..1][..0] == [];
    assert HexNumber(t[..1]) == Some(a);
    assert HexNumber(t[..2]) == Some(a * 16 + b);
  }

  lemma FourDigitsValue(n: nat)
    requires n < 0x1_0000
    ensures HexNumber(FourDigits(n)) == Some(n)
  {
    FourDigitsRead(n / 0x1000, n / 0x100 % 16, n / 0x10 % 16, n % 16);
    assert n / 0x100 == n / 0x1000 * 16 + n / 0x100 % 16;
    assert n / 0x10 == n / 0x100 * 16 + n / 0x10 % 16;
  }

  /** Reading one escaped character back. */
  lemma UnescapeOne(c: CodePoint, rest: Text)
    ensures Unescape(Escaped(c) + rest) == Prepend(c, Unescape(rest))
  {
    var t := Escaped(c) + rest;
    assert t[|Escaped(c)|..] == rest;
    if |Escaped(c)| == 6 {
      FourDigitsValue(c);
      assert t[2..6] == FourDigits(c);
    }
  }

  lemma {:induction false} UnescapeMany(value: Text, rest: Text)
    ensures Unescape(EscapedText(value) + rest) ==
            if Unescape(rest).Some? then Some(value + Unescape(rest).value) else None
    decreases |value|
  {
    if value == [] {
      assert EscapedText(value) + rest == rest;
      assert Unescape(rest).Some? ==> value + Unescape(rest).value == Unescape(rest).value;
    } else {
      var front, last := value[..|value| - 1], value[|value| - 1];
      UnescapeMany(front, Escaped(last) + rest);
      UnescapeOne(last, rest);
      LastCharacter(value, rest);
      if Unescape(rest).Some? {
        Reassociate(front, [last], Unescape(rest).value);
      }
    }
  }

  lemma LastCharacter(value: Text, rest: Text)
    requires value != []
    ensures var front, last := value[..|value| - 1], value[|value| - 1];
            value == front + [last] && EscapedText(value) + rest == EscapedText(front) + (Escaped(last) + rest)
  {
    Reassociate(EscapedText(value[..|value| - 1]), Escaped(value[|value| - 1]), rest);
  }

  /** Every printed string is a TOML basic string for the string it was printed from. */
  lemma PrintedStringParsesBack(value: Text)
    ensures ParseBasicString([QUOTE] + EscapedText(value) + [QUOTE]) == Some(value)
  {
    var t := [QUOTE] + EscapedText(value) + [QUOTE];
    assert t[1..] == EscapedText(value) + [QUOTE];
    UnescapeMany(value, [QUOTE]);
    assert value + [] == value;
  }

  datatype QuoteState = Unquoted | Basic | BasicEscape | Literal

  /** How one character moves the quote automaton. */
  function Advance(state: QuoteState, c: CodePoint): QuoteState {
    match state
    case BasicEscape => Basic
    case Basic => if c == BACKSLASH then BasicEscape else if c == QUOTE then Unquoted else Basic
    case Literal => if c == APOSTROPHE then Unquoted else Literal
    case Unquoted => if c == QUOTE then Basic else if c == APOSTROPHE then Literal else Unquoted
  }

  /** The state after the whole text, and after its first `n` characters. */
  function StateFrom(state: QuoteState, t: Text): QuoteState {
    if t == [] then state else Advance(StateFrom(state, t[..|t| - 1]), t[|t| - 1])
  }

  function StateAt(t: Text, n: nat): QuoteState
    requires n <= |t|
  {
    StateFrom(Unquoted, t[..n])
  }

  lemma StateNext(t: Text, n: nat)
    requires n < |t|
    ensures StateAt(t, n + 1) == Advance(StateAt(t, n), t[n])
  {
    assert t[..n + 1][..n] == t[..n];
  }

  datatype Failure = Malformed

  /** The first place where the mark stands outside quotes. */
  ghost predicate FirstUnquoted(t: Text, mark: CodePoint, at: nat) {
    && at < |t| && t[at] == mark && StateAt(t, at) == Unquoted
    && forall n :: 0 <= n < at && t[n] == mark ==> StateAt(t, n) != Unquoted
  }

  ghost predicate NoneUnquoted(t: Text, mark: CodePoint) {
    forall n :: 0 <= n < |t| && t[n] == mark ==> StateAt(t, n) != Unquoted
  }

  lemma FirstIsUnique(t: Text, mark: CodePoint, at: nat)
    requires FirstUnquoted(t, mark, at)
    ensures !NoneUnquoted(t, mark) && forall other: nat :: FirstUnquoted(t, mark, other) ==> other == at
  {
  }

  /** The line up to its comment; an open quote at the end of the line is malformed. */
  method ContentBeforeComment(line: Text) returns (r: Result<Text, Failure>)
    ensures forall at: nat :: FirstUnquoted(line, HASH, at) ==> r == Ok(line[..at])
    ensures NoneUnquoted(line, HASH) ==> r == if StateAt(line, |line|) == Unquoted then Ok(line) else Err(Malformed)
  {
    var state := Unquoted;
    for index := 0 to |line|
      invariant state == StateAt(line, index)
      invariant forall n :: 0 <= n < index && line[n] == HASH ==> StateAt(line, n) != Unquoted
    {
      if state == Unquoted && line[index] == HASH {
        FirstIsUnique(line, HASH, index);
        return Ok(line[..index]);
      }
      StateNext(line, index);
      state := Advance(state, line[index]);
    }
    r := if state == Unquoted then Ok(line) else Err(Malformed);
  }

  /** The separator of a line: its first equals sign outside quotes. */
  method UnquotedEquals(line: Text) returns (r: Result<Option<nat>, Failure>)
    ensures forall at: nat :: FirstUnquoted(line, EQUALS, at) ==> r == Ok(Some(at))
    ensures NoneUnquoted(line, EQUALS) ==> r == if StateAt(line, |line|) == Unquoted then Ok(None) else Err(Malformed)
  {
    var state := Unquoted;
    for index := 0 to |line|
      invariant state == StateAt(line, index)
      invariant forall n :: 0 <= n < index && line[n] == EQUALS ==> StateAt(line, n) != Unquoted
    {
      if state == Unquoted && line[index] == EQUALS {
        FirstIsUnique(line, EQUALS, index);
        return Ok(Some(index));
      }
      StateNext(line, index);
      state := Advance(state, line[index]);
    }
    r := if state == Unquoted then Ok(None) else Err(Malformed);
  }

  lemma {:induction false} StateConcat(state: QuoteState, a: Text, b: Text)
    ensures StateFrom(state, a + b) == StateFrom(StateFrom(state, a), b)
    decreases |b|
  {
    if b == [] {
      assert a + b == a;
    } else {
      StateConcat(state, a, b[..|b| - 1]);
      assert (a + b)[..|a + b| - 1] == a + b[..|b| - 1];
    }
  }

  lemma EscapedTail(c: CodePoint)
    ensures |Escaped(c)| >= 2 ==> Escaped(c)[0] == BACKSLASH
    ensures forall i :: 2 <= i < |Escaped(c)| ==> Escaped(c)[i] != BACKSLASH && Escaped(c)[i] != QUOTE
  {
    if |Escaped(c)| == 6 {
      assert Escaped(c)[2..] == FourDigits(c);
    }
  }

  /** Printed characters never leave the string they are in. */
  lemma EscapedStaysInside(c: CodePoint)
    ensures StateFrom(Basic, Escaped(c)) == Basic
  {
    var e := Escaped(c);
    EscapedTail(c);
    if |e| == 1 {
      assert e[..0] == [];
    } else {
      assert e == [BACKSLASH, e[1]] + e[2..];
      assert [BACKSLASH, e[1]][..1] == [BACKSLASH];
      assert StateFrom(Basic, [BACKSLASH]) == BasicEscape;
      StateConcat(Basic, [BACKSLASH, e[1]], e[2..]);
      HarmlessStays(e[2..]);
    }
  }

  lemma {:induction false} HarmlessStays(t: Text)
    requires forall i :: 0 <= i < |t| ==> t[i] != BACKSLASH && t[i] != QUOTE
    ensures StateFrom(Basic, t) == Basic
  {
    if t != [] {
      HarmlessStays(t[..|t| - 1]);
    }
  }

  lemma {:induction false} PrintedStaysInside(value: Text)
    ensures StateFrom(Basic, EscapedText(value)) == Basic
  {
    if value != [] {
      PrintedStaysInside(value[..|value| - 1]);
      StateConcat(Basic, EscapedText(value[..|value| - 1]), Escaped(value[|value| - 1]));
      EscapedStaysInside(value[|value| - 1]);
    }
  }

  predicate InString(state: QuoteState) {
    state.Basic? || state.BasicEscape?
  }

  lemma EscapedPrefix(c: CodePoint, n: nat)
    requires n <= |Escaped(c)|
    ensures InString(StateFrom(Basic, Escaped(c)[..n]))
  {
    var e := Escaped(c);
    EscapedTail(c);
    if n >= 2 {
      assert e[..n] == [BACKSLASH, e[1]] + e[2..n];
      assert [BACKSLASH, e[1]][..1] == [BACKSLASH];
      assert StateFrom(Basic, [BACKSLASH]) == BasicEscape;
      StateConcat(Basic, [BACKSLASH, e[1]], e[2..n]);
      HarmlessStays(e[2..n]);
    } else if n == 1 {
      assert e[..1][..0] == [] && e[..1][0] == e[0];
    }
  }

  /** All the way through a printed string the scanners are inside it. */
  lemma {:induction false} PrintedPrefix(value: Text, n: nat)
    requires n <= |EscapedText(value)|
    ensures InString(StateFrom(Basic, EscapedText(value)[..n]))
  {
    if value == [] {
      assert EscapedText(value)[..n] == [];
    } else {
      var front, last := value[..|value| - 1], value[|value| - 1];
      var before := EscapedText(front);
      if n <= |before| {
        PrintedPrefix(front, n);
        assert EscapedText(value)[..n] == before[..n];
      } else {
        PrintedStaysInside(front);
        EscapedPrefix(last, n - |before|);
        assert EscapedText(value)[..n] == before + Escaped(last)[..n - |before|];
        StateConcat(Basic, before, Escaped(last)[..n - |before|]);
      }
    }
  }

  predicate BareKey(key: Text) {
    forall i :: 0 <= i < |key| ==>
      0x61 <= key[i] <= 0x7A || 0x41 <= key[i] <= 0x5A || 0x30 <= key[i] <= 0x39 || key[i] == 0x5F || key[i] == 0x2D
  }

  /** The line `key = "printed value"`. */
  function Assignment(key: Text, value: Text): Text {
    key + ([0x20, EQUALS, 0x20, QUOTE] + (EscapedText(value) + [QUOTE]))
  }

  lemma {:induction false} CalmStaysUnquoted(t: Text)
    requires forall i :: 0 <= i < |t| ==> t[i] != QUOTE && t[i] != APOSTROPHE
    ensures StateFrom(Unquoted, t) == Unquoted
  {
    if t != [] {
      CalmStaysUnquoted(t[..|t| - 1]);
    }
  }

  /** What stands before the printed value, up to its opening quote. */
  function Opening(key: Text): Text {
    key + [0x20, EQUALS, 0x20]
  }

  lemma AssignmentParts(key: Text, value: Text)
    ensures Assignment(key, value) == (Opening(key) + [QUOTE]) + (EscapedText(value) + [QUOTE])
  {
  }

  lemma OpeningState(key: Text, n: nat)
    requires BareKey(key) && n <= |key| + 3
    ensures StateFrom(Unquoted, Opening(key)[..n]) == Unquoted
    ensures StateFrom(Unquoted, Opening(key) + [QUOTE]) == Basic
  {
    CalmStaysUnquoted(Opening(key)[..n]);
    CalmStaysUnquoted(Opening(key));
    StateConcat(Unquoted, Opening(key), [QUOTE]);
    assert [QUOTE][..0] == [];
  }

  lemma ValueState(key: Text, value: Text, m: nat)
    requires BareKey(key) && m <= |EscapedText(value)|
    ensures InString(StateFrom(Unquoted, (Opening(key) + [QUOTE]) + EscapedText(value)[..m]))
    ensures StateFrom(Unquoted, Assignment(key, value)) == Unquoted
  {
    var start := Opening(key) + [QUOTE];
    OpeningState(key, 0);
    StateConcat(Unquoted, start, EscapedText(value)[..m]);
    PrintedPrefix(value, m);
    AssignmentParts(key, value);
    StateConcat(Unquoted, start, EscapedText(value) + [QUOTE]);
    StateConcat(Basic, EscapedText(value), [QUOTE]);
    PrintedStaysInside(value);
    assert [QUOTE][..0] == [];
  }

  /** Where the scanners stand at each place of an assignment. */
  lemma AssignmentStates(key: Text, value: Text, n: nat)
    requires BareKey(key) && n <= |Assignment(key, value)|
    ensures n <= |key| + 3 || n == |Assignment(key, value)| ==> StateAt(Assignment(key, value), n) == Unquoted
    ensures |key| + 3 < n < |Assignment(key, value)| ==> InString(StateAt(Assignment(key, value), n))
  {
    var line, start := Assignment(key, value), Opening(key) + [QUOTE];
    AssignmentParts(key, value);
    if n <= |key| + 3 {
      OpeningState(key, n);
      assert line[..n] == Opening(key)[..n];
    } else if n < |line| {
      var m := n - |start|;
      ValueState(key, value, m);
      assert line[..n] == start + EscapedText(value)[..m];
    } else {
      ValueState(key, value, 0);
      assert line[..n] == line;
    }
  }

  /** Neither mark stands before the separator, and no comment starts before the opening quote. */
  lemma OpeningMarks(key: Text, value: Text, n: nat)
    requires BareKey(key) && n <= |key| + 3
    ensures n < |Assignment(key, value)| && Assignment(key, value)[n] != HASH
    ensures Assignment(key, value)[n] == EQUALS <==> n == |key| + 1
  {
    var start := Opening(key) + [QUOTE];
    AssignmentParts(key, value);
    assert Assignment(key, value)[n] == start[n];
    assert n < |key| ==> start[n] == key[n];
  }

  /** On a printed assignment the comment scanner keeps the whole line and the equals scanner finds the
      separator, whatever the value holds. */
  lemma AssignmentIsRead(key: Text, value: Text)
    requires BareKey(key)
    ensures NoneUnquoted(Assignment(key, value), HASH)
    ensures StateAt(Assignment(key, value), |Assignment(key, value)|) == Unquoted
    ensures FirstUnquoted(Assignment(key, value), EQUALS, |key| + 1)
  {
    var line := Assignment(key, value);
    AssignmentStates(key, value, |line|);
    forall n | 0 <= n <= |key| + 3
      ensures n < |line| && line[n] != HASH && (line[n] == EQUALS <==> n == |key| + 1)
      ensures StateAt(line, n) == Unquoted
    {
      OpeningMarks(key, value, n);
      AssignmentStates(key, value, n);
    }
    forall n | |key| + 3 < n < |line|
      ensures StateAt(line, n) != Unquoted
    {
      AssignmentStates(key, value, n);
    }
  }

  /** White space, as `trim` removes it. */
  predicate IsSpace(c: CodePoint) {
    || 0x09 <= c <= 0x0D || c == 0x20 || c == 0x85 || c == 0xA0 || c == 0x1680 || 0x2000 <= c <= 0x200A
    || c == 0x2028 || c == 0x2029 || c == 0x202F || c == 0x205F || c == 0x3000
  }

  /** `t` is what is left of `content` when white space is taken from both ends. */
  ghost predicate TrimmedTo(content: Text, t: Text, before: nat) {
    && before + |t| <= |content| && content[before..before + |t|] == t
    && (forall i :: 0 <= i < before ==> IsSpace(content[i]))
    && (forall i :: before + |t| <= i < |content| ==> IsSpace(content[i]))
  }

  predicate NoEdgeSpace(t: Text) {
    t != [] ==> !IsSpace(t[0]) && !IsSpace(t[|t| - 1])
  }

  method Trim(content: Text) returns (t: Text, ghost before: nat)
    ensures TrimmedTo(content, t, before) && NoEdgeSpace(t)
  {
    var low := 0;
    while low < |content| && IsSpace(content[low])
      invariant low <= |content|
      invariant forall i :: 0 <= i < low ==> IsSpace(content[i])
    {
      low := low + 1;
    }
    var high := |content|;
    while high > low && IsSpace(content[high - 1])
      invariant low <= high <= |content|
      invariant forall i :: high <= i < |content| ==> IsSpace(content[i])
    {
      high := high - 1;
    }
    t, before := content[low..high], low;
  }

  /** White space after a text closes no quote. */
  lemma {:induction false} SpaceKeepsQuotes(state: QuoteState, t: Text)
    requires forall i :: 0 <= i < |t| ==> IsSpace(t[i])
    requires StateFrom(state, t) == Unquoted
    ensures state == Unquoted
  {
    if t != [] {
      var front := t[..|t| - 1];
      assert StateFrom(state, front) == Unquoted;
      SpaceKeepsQuotes(state, front);
    }
  }

  /** Content the comment scanner accepts has its quotes closed, and so has what `trim` leaves of it. */
  lemma TrimmedIsClosed(content: Text, t: Text, before: nat)
    requires StateFrom(Unquoted, content) == Unquoted && TrimmedTo(content, t, before)
    ensures StateAt(t, |t|) == Unquoted
  {
    var m := before + |t|;
    var head, tail := content[..before], content[m..];
    assert content[..m] == head + t;
    assert content == content[..m] + tail;
    CalmStaysUnquoted(head);
    StateConcat(Unquoted, head + t, tail);
    StateConcat(Unquoted, head, t);
    assert forall i :: 0 <= i < |tail| ==> tail[i] == content[m + i];
    SpaceKeepsQuotes(StateFrom(Unquoted, head + t), tail);
    assert t[..|t|] == t;
  }

  /** The line up to its first comment, or all of it. */
  ghost predicate IsContent(line: Text, content: Text) {
    || (NoneUnquoted(line, HASH) && content == line)
    || exists at: nat :: FirstUnquoted(line, HASH, at) && content == line[..at]
  }

  ghost predicate TrimsTo(content: Text, t: Text) {
    NoEdgeSpace(t) && exists before: nat :: TrimmedTo(content, t, before)
  }

  /** The part of a line before its comment, without the white space around it. */
  ghost predicate IsStatement(line: Text, t: Text) {
    exists content: Text :: IsContent(line, content) && TrimsTo(content, t)
  }

  lemma LiesWithin(content: Text, t: Text, i: nat, u: Text, j: nat)
    requires TrimmedTo(content, t, i) && TrimmedTo(content, u, j) && NoEdgeSpace(t) && t != []
    ensures j <= i && i + |t| <= j + |u|
  {
    assert content[i] == t[0] && content[i + |t| - 1] == t[|t| - 1];
  }

  lemma TrimIsUnique(content: Text, t: Text, u: Text)
    requires TrimsTo(content, t) && TrimsTo(content, u)
    ensures t == u
  {
    var i: nat :| TrimmedTo(content, t, i);
    var j: nat :| TrimmedTo(content, u, j);
    if t != [] {
      LiesWithin(content, t, i, u, j);
    }
    if u != [] {
      LiesWithin(content, u, j, t, i);
    }
  }

  /** A line has one statement. */
  lemma StatementIsUnique(line: Text, t: Text, u: Text)
    requires IsStatement(line, t) && IsStatement(line, u)
    ensures t == u
  {
    var content :| IsContent(line, content) && TrimsTo(content, t);
    var other :| IsContent(line, other) && TrimsTo(other, u);
    if at: nat :| FirstUnquoted(line, HASH, at) {
      FirstIsUnique(line, HASH, at);
    }
    TrimIsUnique(content, t, u);
  }

  /** The separator search of one line. Only the comment scanner can find an open quote: the equals scanner
      never does on text the comment scanner has accepted. */
  method FindSeparator(line: Text) returns (r: Result<Option<nat>, Failure>, trimmed: Text)
    ensures r.Err? <==> NoneUnquoted(line, HASH) && StateAt(line, |line|) != Unquoted
    ensures r.Ok? ==> IsStatement(line, trimmed)
    ensures r.Ok? && r.value.Some? ==> FirstUnquoted(trimmed, EQUALS, r.value.value)
    ensures r.Ok? && r.value.None? ==> NoneUnquoted(trimmed, EQUALS)
  {
    var content := ContentBeforeComment(line);
    if content.Err? {
      ScannerMeaning(line, HASH);
      return Err(content.error), [];
    }
    ScannerMeaning(line, HASH);
    assert StateFrom(Unquoted, content.value) == Unquoted by {
      assert line[..|line|] == line;
    }
    ghost var before;
    trimmed, before := Trim(content.value);
    assert IsContent(line, content.value) && TrimsTo(content.value, trimmed);
    TrimmedIsClosed(content.value, trimmed, before);
    ScannerMeaning(trimmed, EQUALS);
    r := UnquotedEquals(trimmed);
  }

  /** A mark either stands somewhere outside quotes, and then first somewhere, or nowhere. */
  lemma ScannerMeaning(t: Text, mark: CodePoint)
    ensures NoneUnquoted(t, mark) || exists at: nat :: FirstUnquoted(t, mark, at)
  {
    if !NoneUnquoted(t, mark) {
      var n :| 0 <= n < |t| && t[n] == mark && StateAt(t, n) == Unquoted;
      var at := LeastUnquoted(t, mark, n);
    }
  }

  lemma {:induction false} LeastUnquoted(t: Text, mark: CodePoint, n: nat) returns (at: nat)
    requires n < |t| && t[n] == mark && StateAt(t, n) == Unquoted
    ensures FirstUnquoted(t, mark, at)
    decreases n
  {
    if m :| 0 <= m < n && t[m] == mark && StateAt(t, m) == Unquoted {
      at := LeastUnquoted(t, mark, m);
    } else {
      at := n;
    }
  }
}
