/** Canonical decimal text: no sign, no leading zero. */
module Decimals {
  import opened Prelude

  const ZERO: Byte := 0x30

  predicate IsDigit(c: Byte) {
    0x30 <= c <= 0x39
  }

  function Digits(n: nat): (t: Bytes)
    ensures |t| >= 1
  {
    if n < 10 then [ZERO + n] else Digits(n / 10) + [ZERO + n % 10]
  }

  predicate IsCanonical(t: Bytes) {
    && |t| >= 1 && (forall i :: 0 <= i < |t| ==> IsDigit(t[i]))
    && (|t| > 1 ==> t[0] != ZERO)
  }

  function ValueOf(t: Bytes): nat
    requires forall i :: 0 <= i < |t| ==> IsDigit(t[i])
  {
    if t == [] then 0
    else
      assert IsDigit(t[|t| - 1]);
      ValueOf(t[..|t| - 1]) * 10 + (t[|t| - 1] - ZERO)
  }

  /** Printing gives canonical text of the same value. */
  lemma {:induction false} DigitsAreCanonical(n: nat)
    ensures IsCanonical(Digits(n)) && ValueOf(Digits(n)) == n
    ensures n > 0 ==> Digits(n)[0] != ZERO
  {
    if n < 10 {
      assert Digits(n)[..0] == [];
    } else {
      DigitsAreCanonical(n / 10);
      assert Digits(n)[..|Digits(n)| - 1] == Digits(n / 10);
    }
  }

  /** Canonical text is what its value prints as, so printing and reading are inverse to each other. */
  lemma {:induction false} CanonicalIsPrinted(t: Bytes)
    requires IsCanonical(t)
    ensures Digits(ValueOf(t)) == t
    ensures t[0] != ZERO ==> ValueOf(t) > 0
  {
    var n := |t| - 1;
    if n == 0 {
      assert t[..0] == [];
    } else {
      var front := t[..n];
      assert front[0] == t[0];
      CanonicalIsPrinted(front);
      assert ValueOf(t) == ValueOf(front) * 10 + (t[n] - ZERO);
      assert ValueOf(t) / 10 == ValueOf(front) && ValueOf(t) % 10 == t[n] - ZERO;
      assert t == front + [t[n]];
    }
  }

  lemma {:induction false} DigitsInjective(m: nat, n: nat)
    requires Digits(m) == Digits(n)
    ensures m == n
  {
    DigitsAreCanonical(m);
    DigitsAreCanonical(n);
  }

  function Power10(k: nat): (r: nat)
    ensures r > 0
  {
    if k == 0 then 1 else 10 * Power10(k - 1)
  }

  lemma {:induction false} DigitCount(n: nat, k: nat)
    requires k >= 1 && n < Power10(k)
    ensures |Digits(n)| <= k
    decreases k
  {
    if n >= 10 {
      DigitCount(n / 10, k - 1);
    }
  }

  lemma U32HasTenDigits(n: U32)
    ensures |Digits(n)| <= 10
  {
    assert Power10(2) == 100;
    assert Power10(4) == 10_000;
    assert Power10(6) == 1_000_000;
    assert Power10(8) == 100_000_000;
    assert Power10(10) == 10_000_000_000;
    DigitCount(n, 10);
  }

  /** Writes the digits from the last one backwards into a buffer of ten, and then emits the used part. */
  method EncodeU32(value: U32) returns (t: Bytes)
    ensures t == Digits(value)
  {
    U32HasTenDigits(value);
    if value == 0 {
      return [ZERO];
    }
    var digits := new Byte[10](_ => 0);
    var rest: nat := value;
    ghost var written: Bytes := [];
    var at := 10;
    while rest > 0
      invariant 0 <= at <= 10 && digits[at..] == written
      invariant rest > 0 ==> Digits(value) == Digits(rest) + written && |Digits(rest)| <= at
      invariant rest == 0 ==> Digits(value) == written
    {
      ghost var before := digits[at..];
      at := at - 1;
      digits[at] := ZERO + rest % 10;
      written := [ZERO + rest % 10] + written;
      assert digits[at..] == [digits[at]] + before;
      rest := rest / 10;
      assert rest > 0 ==> Digits(value) == Digits(rest) + written;
    }
    t := digits[at..];
  }
}
