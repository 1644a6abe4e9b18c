/** Bits of bytes and of bitmap blocks, as balloc and bfree address them (fs.c:52-95). */
module Bitmap {
  import opened Blocks

  const BPB := 4096     // bits per bitmap block

  /** 1 << k */
  function Pow2(k: nat): (r: nat) {
    if k == 0 then 1 else 2 * Pow2(k - 1)
  }

  /** (x & (1 << k)) != 0 */
  predicate BitOf(x: nat, k: nat) {
    if k == 0 then x % 2 == 1 else BitOf(x / 2, k - 1)
  }

  /** Or-ing in a clear bit adds its weight, and sets that bit only. */
  lemma {:induction false} SetBit(x: nat, k: nat, n: nat)
    requires !BitOf(x, k) && k < n && x < Pow2(n)
    ensures x + Pow2(k) < Pow2(n)
    ensures forall j: nat :: BitOf(x + Pow2(k), j) <==> j == k || BitOf(x, j)
  {
    if k > 0 {
      SetBit(x / 2, k - 1, n - 1);
    }
    Halves(x, k);
    forall j: nat
      ensures BitOf(x + Pow2(k), j) <==> j == k || BitOf(x, j)
    {
      if k > 0 && j > 0 {
        assert BitOf(x / 2 + Pow2(k - 1), j - 1) <==> j - 1 == k - 1 || BitOf(x / 2, j - 1);
      }
    }
  }

  lemma Halves(x: nat, k: nat)
    ensures k > 0 ==> (x + Pow2(k)) / 2 == x / 2 + Pow2(k - 1) && (x + Pow2(k)) % 2 == x % 2
    ensures k == 0 && x % 2 == 0 ==> (x + Pow2(k)) / 2 == x / 2
  {
  }

  /** And-ing out a set bit subtracts its weight, and clears that bit only. */
  lemma {:induction false} ClearBit(x: nat, k: nat)
    requires BitOf(x, k)
    ensures x >= Pow2(k)
    ensures forall j: nat :: BitOf(x - Pow2(k), j) <==> j != k && BitOf(x, j)
  {
    if k > 0 {
      ClearBit(x / 2, k - 1);
      assert (x - Pow2(k)) / 2 == x / 2 - Pow2(k - 1);
    }
    forall j: nat
      ensures BitOf(x - Pow2(k), j) <==> j != k && BitOf(x, j)
    {
      if k > 0 && j > 0 {
        assert BitOf(x / 2 - Pow2(k - 1), j - 1) <==> j - 1 != k - 1 && BitOf(x / 2, j - 1);
      }
    }
  }

  /** Bit i of a bitmap block. */
  predicate BlockBit(b: Block, i: nat)
    requires i < BPB
  {
    BitOf(b[i / 8], i % 8)
  }

  /** data[i/8] |= 1 << (i % 8), for a clear bit. */
  function SetBlockBit(b: Block, i: nat): (r: Block)
    requires i < BPB && !BlockBit(b, i)
    ensures forall j: nat :: j < BPB ==> (BlockBit(r, j) <==> j == i || BlockBit(b, j))
  {
    SetBit(b[i / 8], i % 8, 8);
    assert Pow2(8) == 256 by { assert Pow2(4) == 16; }
    b[i / 8 := b[i / 8] + Pow2(i % 8)]
  }

  /** data[i/8] &= ~(1 << (i % 8)), for a set bit. */
  function ClearBlockBit(b: Block, i: nat): (r: Block)
    requires i < BPB && BlockBit(b, i)
    ensures forall j: nat :: j < BPB ==> (BlockBit(r, j) <==> j != i && BlockBit(b, j))
  {
    ClearBit(b[i / 8], i % 8);
    b[i / 8 := b[i / 8] - Pow2(i % 8)]
  }
}
