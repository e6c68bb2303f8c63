/** Bytes, big-endian integers and exclusive or, on mathematical integers. */
module Bits {
  type byte = x: int | 0 <= x < 256

  type Bytes = seq<byte>

  function Pow2(w: nat): (p: nat)
    ensures p > 0
  {
    if w == 0 then 1 else 2 * Pow2(w - 1)
  }

  /** Bitwise exclusive or of the `w` low bits of `a` and `b`. */
  function Xor(a: nat, b: nat, w: nat): (r: nat)
    ensures r < Pow2(w)
  {
    if w == 0 then 0 else 2 * Xor(a / 2, b / 2, w - 1) + if a % 2 == b % 2 then 0 else 1
  }

  lemma XorHalves(a: nat, b: nat, w: nat)
    requires w > 0
    ensures Xor(a, b, w) / 2 == Xor(a / 2, b / 2, w - 1)
    ensures Xor(a, b, w) % 2 == if a % 2 == b % 2 then 0 else 1
  {
  }

  lemma {:induction false} XorInvolution(a: nat, b: nat, w: nat)
    requires a < Pow2(w)
    ensures Xor(Xor(a, b, w), b, w) == a
  {
    if w > 0 {
      XorInvolution(a / 2, b / 2, w - 1);
      XorHalves(a, b, w);
      XorHalves(Xor(a, b, w), b, w);
      hide Xor;
    }
  }

  lemma Pow2Of8And16()
    ensures Pow2(8) == 256 && Pow2(16) == 0x1_0000
  {
    assert Pow2(4) == 16;
    assert Pow2(8) == 256;
    assert Pow2(12) == 4096;
  }

  function Xor8(a: byte, b: byte): byte
  {
    Pow2Of8And16();
    Xor(a, b, 8)
  }

  function Xor16(a: nat, b: nat): (r: nat)
    ensures r < 0x1_0000
  {
    Pow2Of8And16();
    Xor(a, b, 16)
  }

  lemma Xor8Involution(a: byte, b: byte)
    ensures Xor8(Xor8(a, b), b) == a
  {
    Pow2Of8And16();
    XorInvolution(a, b, 8);
  }

  lemma Xor16Involution(a: nat, b: nat)
    requires a < 0x1_0000
    ensures Xor16(Xor16(a, b), b) == a
  {
    Pow2Of8And16();
    XorInvolution(a, b, 16);
  }

  /** Bytewise exclusive or of `s` with a mask that is at least as long. */
  function XorBytes(s: Bytes, mask: Bytes): (r: Bytes)
    requires |s| <= |mask|
    ensures |r| == |s|
  {
    seq(|s|, i requires 0 <= i < |s| => Xor8(s[i], mask[i]))
  }

  lemma XorBytesInvolution(s: Bytes, mask: Bytes)
    requires |s| <= |mask|
    ensures XorBytes(XorBytes(s, mask), mask) == s
  {
    forall i | 0 <= i < |s| ensures XorBytes(XorBytes(s, mask), mask)[i] == s[i] {
      Xor8Involution(s[i], mask[i]);
    }
  }

  /** The unsigned 16-bit big-endian integer at offset `i`. */
  function U16(s: Bytes, i: nat): (r: nat)
    requires i + 2 <= |s|
    ensures r < 0x1_0000
  {
    256 * (s[i] as int) + s[i + 1] as int
  }

  function U32(s: Bytes, i: nat): nat
    requires i + 4 <= |s|
  {
    0x1_0000 * U16(s, i) + U16(s, i + 2)
  }

  function PackU16(n: nat): Bytes
    requires n < 0x1_0000
  {
    [n / 256, n % 256]
  }

  lemma PackOfU16(s: Bytes, i: nat)
    requires i + 2 <= |s|
    ensures PackU16(U16(s, i)) == s[i..i + 2]
  {
  }

  function PackU32(n: nat): Bytes
    requires n < 0x1_0000_0000
  {
    PackU16(n / 0x1_0000) + PackU16(n % 0x1_0000)
  }

  lemma Halves(high: nat, low: nat)
    requires low < 0x1_0000
    ensures (0x1_0000 * high + low) / 0x1_0000 == high && (0x1_0000 * high + low) % 0x1_0000 == low
  {
  }

  lemma PackOfU32(s: Bytes, i: nat)
    requires i + 4 <= |s|
    ensures PackU32(U32(s, i)) == s[i..i + 4]
  {
    Halves(U16(s, i), U16(s, i + 2));
    PackOfU16(s, i);
    PackOfU16(s, i + 2);
    hide U16, PackU16;
    assert s[i..i + 4] == s[i..i + 2] + s[i + 2..i + 4];
  }
}
