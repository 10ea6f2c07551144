/** Bytes and minimal big-endian numbers. */
module Bytes {

  type Byte = b: int | 0 <= b < 256

  /** The bytes of `n` without leading zeros, most significant first; empty for zero. */
  function BigEndian(n: nat): (bs: seq<Byte>) {
    if n == 0 then [] else BigEndian(n / 256) + [n % 256]
  }

  function Value(bs: seq<Byte>): (n: nat) {
    if bs == [] then 0 else 256 * Value(bs[..|bs| - 1]) + bs[|bs| - 1]
  }

  function Pow256(k: nat): (p: nat)
    ensures p >= 1
  {
    if k == 0 then 1 else 256 * Pow256(k - 1)
  }

  function Pow2(n: nat): (r: nat)
    ensures r >= 1
  {
    if n == 0 then 1 else 2 * Pow2(n - 1)
  }

  const TWO_64 := 0x1_0000_0000_0000_0000

  lemma {:induction false} ValueOfBigEndian(n: nat)
    ensures Value(BigEndian(n)) == n
  {
    if n > 0 {
      ValueOfBigEndian(n / 256);
      var bs := BigEndian(n);
      assert bs[..|bs| - 1] == BigEndian(n / 256);
    }
  }

  /** Writing is minimal, reading a minimal string back writes it again. */
  lemma {:induction false} BigEndianOfValue(bs: seq<Byte>)
    requires bs != [] ==> bs[0] != 0
    ensures BigEndian(Value(bs)) == bs
    ensures bs != [] ==> Value(bs) > 0
  {
    if bs != [] {
      var init := bs[..|bs| - 1];
      BigEndianOfValue(init);
      assert bs == init + [bs[|bs| - 1]];
      assert Value(bs) / 256 == Value(init) && Value(bs) % 256 == bs[|bs| - 1];
      assert init == [] ==> bs[|bs| - 1] == bs[0];
    }
  }

  lemma {:induction false} BigEndianLeads(n: nat)
    requires n > 0
    ensures BigEndian(n) != [] && BigEndian(n)[0] != 0
  {
    if n >= 256 {
      BigEndianLeads(n / 256);
    } else {
      assert BigEndian(n / 256) == [];
    }
  }

  /** `k` bytes suffice exactly for the numbers below 256^k. */
  lemma {:induction false} BigEndianLength(n: nat, k: nat)
    ensures |BigEndian(n)| <= k <==> n < Pow256(k)
  {
    if n > 0 && k > 0 {
      BigEndianLength(n / 256, k - 1);
      assert n / 256 < Pow256(k - 1) <==> n < 256 * Pow256(k - 1);
    }
  }

  lemma {:induction false} ValueBound(bs: seq<Byte>)
    ensures Value(bs) < Pow256(|bs|)
  {
    if bs != [] {
      ValueBound(bs[..|bs| - 1]);
    }
  }

  lemma {:induction false} Pow256Of8()
    ensures Pow256(8) == TWO_64
  {
    assert Pow256(2) == 65536;
    assert Pow256(4) == 65536 * 65536;
    assert Pow256(6) == 65536 * 65536 * 65536;
  }

  /** Lengths below 2^64 need at most eight bytes, positive ones at least one. */
  lemma {:induction false} LengthBytes(n: nat)
    requires 0 < n < TWO_64
    ensures 1 <= |BigEndian(n)| <= 8 && BigEndian(n)[0] != 0 && Value(BigEndian(n)) == n
  {
    Pow256Of8();
    BigEndianLength(n, 8);
    BigEndianLeads(n);
    ValueOfBigEndian(n);
  }

  /** Bitwise exclusive or of the low `bits` bits. */
  function XorBits(a: nat, b: nat, bits: nat): (c: nat) {
    if bits == 0 then 0 else 2 * XorBits(a / 2, b / 2, bits - 1) + (if a % 2 == b % 2 then 0 else 1)
  }

  lemma {:induction false} XorBitsBound(a: nat, b: nat, bits: nat)
    ensures XorBits(a, b, bits) < Pow2(bits)
  {
    if bits > 0 {
      XorBitsBound(a / 2, b / 2, bits - 1);
    }
  }

  lemma {:induction false} XorBitsTwice(a: nat, b: nat, bits: nat)
    requires a < Pow2(bits)
    ensures XorBits(XorBits(a, b, bits), b, bits) == a
  {
    if bits > 0 {
      XorBitsTwice(a / 2, b / 2, bits - 1);
      var half, low := XorBits(a / 2, b / 2, bits - 1), if a % 2 == b % 2 then 0 else 1;
      var c := 2 * half + low;
      assert c == XorBits(a, b, bits) && c / 2 == half && c % 2 == low;
      assert XorBits(c, b, bits) == 2 * XorBits(half, b / 2, bits - 1) + (if low == b % 2 then 0 else 1);
    }
  }

  /** Exclusive or of two bytes. */
  function Xor(a: Byte, b: Byte): (c: Byte) {
    XorBitsBound(a, b, 8);
    XorBits(a, b, 8)
  }

  lemma {:induction false} XorTwice(a: Byte, k: Byte)
    ensures Xor(Xor(a, k), k) == a
  {
    assert Pow2(8) == 256;
    XorBitsTwice(a, k, 8);
  }

  lemma {:induction false} XorBitsZero(a: nat, bits: nat)
    requires a < Pow2(bits)
    ensures XorBits(a, 0, bits) == a
  {
    if bits > 0 {
      XorBitsZero(a / 2, bits - 1);
    }
  }

  /** Zero changes nothing, and a byte cancels itself. */
  lemma {:induction false} XorUnits(a: Byte)
    ensures Xor(a, 0) == a && Xor(0, a) == a && Xor(a, a) == 0
  {
    assert Pow2(8) == 256;
    XorBitsZero(a, 8);
    XorBitsSwap(a, 0, 8);
    XorTwice(0, a);
  }

  lemma {:induction false} XorBitsSwap(a: nat, b: nat, bits: nat)
    ensures XorBits(a, b, bits) == XorBits(b, a, bits)
  {
    if bits > 0 {
      XorBitsSwap(a / 2, b / 2, bits - 1);
    }
  }

  /** Different bytes stay different under the same key. */
  lemma {:induction false} XorCancel(k: Byte, a: Byte, b: Byte)
    requires Xor(k, a) == Xor(k, b)
    ensures a == b
  {
    XorBitsSwap(k, a, 8);
    XorBitsSwap(k, b, 8);
    XorTwice(a, k);
    XorTwice(b, k);
  }
}
