/** Fixed-width big-endian integers, as `to_be_bytes` and `from_be_bytes`. */
module BigEndian {
  import opened Prelude

  function Power256(width: nat): (r: nat)
    ensures r > 0
  {
    if width == 0 then 1 else 256 * Power256(width - 1)
  }

  const POWER_8: nat := 0x1_0000_0000_0000_0000
  const POWER_16: nat := 0x1_0000_0000_0000_0000_0000_0000_0000_0000
  const POWER_32: nat := 0x1_0000_0000_0000_0000_0000_0000_0000_0000_0000_0000_0000_0000_0000_0000_0000_0000

  lemma Widths()
    ensures Power256(2) == 0x1_0000
    ensures Power256(8) == POWER_8
    ensures Power256(16) == POWER_16
    ensures Power256(32) == POWER_32
  {
    assert Power256(2) == 0x1_0000;
    assert Power256(4) == 0x1_0000_0000;
    PowerAdds(4, 4);
    PowerAdds(8, 8);
    PowerAdds(16, 16);
  }

  lemma {:induction false} PowerAdds(a: nat, b: nat)
    ensures Power256(a + b) == Power256(a) * Power256(b)
  {
    if a == 0 {
      assert a + b == b;
    } else {
      PowerAdds(a - 1, b);
      assert a + b - 1 == a - 1 + b;
    }
  }

  function Encode(n: nat, width: nat): (r: Bytes)
    ensures |r| == width
  {
    if width == 0 then [] else Encode(n / 256, width - 1) + [n % 256]
  }

  function Decode(b: Bytes): (n: nat) {
    if b == [] then 0 else Decode(b[..|b| - 1]) * 256 + b[|b| - 1]
  }

  lemma {:induction false} DecodeEncode(n: nat, width: nat)
    requires n < Power256(width)
    ensures Decode(Encode(n, width)) == n
  {
    if width > 0 {
      assert n / 256 < Power256(width - 1);
      DecodeEncode(n / 256, width - 1);
      assert Encode(n, width)[..width - 1] == Encode(n / 256, width - 1);
    }
  }

  lemma {:induction false} EncodeDecode(b: Bytes)
    ensures Decode(b) < Power256(|b|)
    ensures Encode(Decode(b), |b|) == b
  {
    if b != [] {
      var front, last := b[..|b| - 1], b[|b| - 1];
      EncodeDecode(front);
      assert Decode(b) == Decode(front) * 256 + last;
      assert Decode(b) / 256 == Decode(front) && Decode(b) % 256 == last;
      assert b == front + [last];
    }
  }
}
