/**
 * Unsigned machine words and the bit-level operations the decoder performs on
 * its 32-bit accumulator, written over unbounded integers. Bit i of a number is
 * counted from the least significant end, as in `(c >> i) & 1`.
 */
module Bits {

  type u8 = x: int | 0 <= x < 0x100
  type u16 = x: int | 0 <= x < 0x1_0000
  type u32 = x: int | 0 <= x < 0x1_0000_0000

  /** 2 to the power n. */
  function Pow2(n: nat): (r: nat)
    ensures r >= 1
  {
    if n == 0 then 1 else 2 * Pow2(n - 1)
  }

  lemma Pow2Words()
    ensures Pow2(8) == 0x100 && Pow2(16) == 0x1_0000
    ensures Pow2(24) == 0x100_0000 && Pow2(32) == 0x1_0000_0000
  {
  }

  /** Bit i of c: `(c >> i) & 1 == 1`. */
  function Bit(c: nat, i: nat): bool
  {
    if i == 0 then c % 2 == 1 else Bit(c / 2, i - 1)
  }

  /** A number below 2^j has no bit set at position j or above. */
  lemma {:induction false} NoBitAbove(c: nat, j: nat, k: nat)
    requires c < Pow2(j) && j <= k
    ensures !Bit(c, k)
    decreases k
  {
    if k > 0 {
      if j > 0 {
        NoBitAbove(c / 2, j - 1, k - 1);
      } else {
        NoBitAbove(c / 2, 0, k - 1);
      }
    }
  }

  /** Adding 2^j to a number whose bit j is clear sets that bit and no other. */
  lemma {:induction false} BitOfSum(c: nat, j: nat, k: nat)
    requires !Bit(c, j)
    ensures Bit(c + Pow2(j), k) == (Bit(c, k) || k == j)
    decreases j
  {
    if j == 0 {
      if k > 0 {
        assert (c + 1) / 2 == c / 2;
      }
    } else if k > 0 {
      assert (c + Pow2(j)) / 2 == c / 2 + Pow2(j - 1);
      BitOfSum(c / 2, j - 1, k - 1);
    }
  }

  /** Setting a clear bit j below position n keeps a number below 2^n. */
  lemma {:induction false} SetBitBelow(c: nat, j: nat, n: nat)
    requires c < Pow2(n) && j < n && !Bit(c, j)
    ensures c + Pow2(j) < Pow2(n)
    decreases j
  {
    if j > 0 {
      SetBitBelow(c / 2, j - 1, n - 1);
    }
  }

  /** Two numbers below 2^n that agree on bits 0 .. n-1 are equal. */
  lemma {:induction false} BitsDetermine(x: nat, y: nat, n: nat)
    requires x < Pow2(n) && y < Pow2(n)
    requires forall i :: 0 <= i < n ==> Bit(x, i) == Bit(y, i)
    ensures x == y
    decreases n
  {
    if n > 0 {
      assert Bit(x, 0) == Bit(y, 0);
      forall i | 0 <= i < n - 1
        ensures Bit(x / 2, i) == Bit(y / 2, i)
      {
        assert Bit(x, i + 1) == Bit(y, i + 1);
      }
      BitsDetermine(x / 2, y / 2, n - 1);
    }
  }

  /**
   * `c | (b << j)` for a single bit b of a 32-bit word: bit j is set when b
   * holds, and every other bit is left as it was.
   */
  function OrBit(c: u32, j: nat, b: bool): (r: u32)
    requires j < 32
    ensures forall k :: Bit(r, k) == (Bit(c, k) || (b && k == j))
  {
    if b && !Bit(c, j) then
      Pow2Words();
      SetBitBelow(c, j, 32);
      assert forall k :: Bit(c + Pow2(j), k) == (Bit(c, k) || k == j) by {
        forall k ensures Bit(c + Pow2(j), k) == (Bit(c, k) || k == j) {
          BitOfSum(c, j, k);
        }
      }
      c + Pow2(j)
    else
      c
  }

  /** The number whose bit i is bs[i]: the sum of bs[i]·2^i. */
  function Value(bs: seq<bool>): (r: nat)
    ensures r < Pow2(|bs|)
  {
    if |bs| == 0 then 0
    else Value(bs[..|bs| - 1]) + (if bs[|bs| - 1] then Pow2(|bs| - 1) else 0)
  }

  /** Value is the inverse of reading the bits back. */
  lemma {:induction false} BitsOfValue(bs: seq<bool>, i: nat)
    requires i < |bs|
    ensures Bit(Value(bs), i) == bs[i]
    decreases |bs|
  {
    var n := |bs| - 1;
    var init := bs[..n];
    var v := Value(init);
    NoBitAbove(v, n, n);
    if bs[n] {
      BitOfSum(v, n, i);
      if i < n {
        BitsOfValue(init, i);
      }
    } else if i < n {
      BitsOfValue(init, i);
    } else {
      NoBitAbove(v, n, i);
    }
  }

  /** The low n bits of c, least significant first. */
  function LowBits(c: nat, n: nat): (bs: seq<bool>)
    ensures |bs| == n
  {
    seq(n, i requires 0 <= i < n => Bit(c, i))
  }

  /** Reading a 32-bit word into bits and packing them again gives the word back. */
  lemma ValueOfLowBits(c: u32)
    ensures Value(LowBits(c, 32)) == c
  {
    var bs := LowBits(c, 32);
    forall i | 0 <= i < 32
      ensures Bit(Value(bs), i) == Bit(c, i)
    {
      BitsOfValue(bs, i);
    }
    Pow2Words();
    BitsDetermine(Value(bs), c, 32);
  }

  /** Byte k (k = 0 is the least significant) of a 32-bit word: `(c >> 8k) & 0xFF`. */
  function Byte(c: u32, k: nat): (r: u8)
    requires k < 4
  {
    (c / Pow2(8 * k)) % 0x100
  }

  /** Division and remainder by d of a number written as x + d·y with 0 <= x < d. */
  lemma DivModSplit(x: int, y: int, d: int)
    requires 0 <= x < d
    ensures (x + d * y) / d == y && (x + d * y) % d == x
  {
    var n := x + d * y;
    var k := n / d - y;
    assert d * k == x - n % d;
  }

  /** The 32-bit word with bytes b0, b1, b2, b3 from the low one up. */
  function Pack(b0: u8, b1: u8, b2: u8, b3: u8): (r: u32)
    ensures Byte(r, 0) == b0 && Byte(r, 1) == b1 && Byte(r, 2) == b2 && Byte(r, 3) == b3
  {
    Pow2Words();
    var lo := b0 + 0x100 * b1;
    var hi := b2 + 0x100 * b3;
    DivModSplit(b0, b1 + 0x100 * hi, 0x100);
    DivModSplit(b1, hi, 0x100);
    DivModSplit(lo, hi, 0x1_0000);
    DivModSplit(b2, b3, 0x100);
    DivModSplit(lo + 0x1_0000 * b2, b3, 0x100_0000);
    lo + 0x1_0000 * hi
  }

  /** Every 32-bit word is the packing of its four bytes. */
  lemma PackBytes(c: u32)
    ensures Pack(Byte(c, 0), Byte(c, 1), Byte(c, 2), Byte(c, 3)) == c
  {
    Pow2Words();
    var b0, q1 := c % 0x100, c / 0x100;
    var b1, q2 := q1 % 0x100, q1 / 0x100;
    var b2, q3 := q2 % 0x100, q2 / 0x100;
    assert c == b0 + 0x100 * q1;
    assert q1 == b1 + 0x100 * q2;
    assert q2 == b2 + 0x100 * q3;
    assert c == (b0 + 0x100 * b1) + 0x1_0000 * (b2 + 0x100 * q3);
    assert q3 < 0x100;
    assert Byte(c, 0) == b0;
    assert Byte(c, 1) == b1;
    DivModSplit(b0 + 0x100 * b1, b2 + 0x100 * q3, 0x1_0000);
    DivModSplit(b2, q3, 0x100);
    assert Byte(c, 2) == b2;
    DivModSplit(b0 + 0x100 * b1 + 0x1_0000 * b2, q3, 0x100_0000);
    assert Byte(c, 3) == q3;
  }

  /** The value of a word truncated to 16 bits is its two low bytes. */
  lemma Low16(c: u32)
    ensures c % 0x1_0000 == Byte(c, 0) + 0x100 * Byte(c, 1)
  {
    Pow2Words();
    var b0, q1 := c % 0x100, c / 0x100;
    var b1, q2 := q1 % 0x100, q1 / 0x100;
    assert c == (b0 + 0x100 * b1) + 0x1_0000 * q2;
    DivModSplit(b0 + 0x100 * b1, q2, 0x1_0000);
  }

  /**
   * `~x & 0xFF` for a 32-bit x: the complement of the low byte. The constant
   * 0xFFFF_FFFF is congruent to 0xFF modulo 0x100, so only x's low byte matters.
   */
  function ComplementLow8(x: u32): (r: u8)
    ensures r + x % 0x100 == 0xFF
  {
    (0xFFFF_FFFF - x) % 0x100
  }
}
