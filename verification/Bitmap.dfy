/** The free bitmap (fs.h:45-49, fs.c:61-73, 87-92): one bit per block, 1 << (bi % 8) in byte bi / 8. */
module Bitmap {
  import opened Blocks

  const BPB := 4096

  function Bit(x: nat, k: nat): bool {
    if k == 0 then x % 2 == 1 else Bit(x / 2, k - 1)
  }

  /** x | (1 << k), or x & ~(1 << k) */
  function WithBit(x: nat, k: nat, on: bool): nat {
    if k == 0 then x / 2 * 2 + (if on then 1 else 0) else x % 2 + 2 * WithBit(x / 2, k - 1, on)
  }

  function Pow2(k: nat): nat {
    if k == 0 then 1 else 2 * Pow2(k - 1)
  }

  lemma {:induction false} WithBitSmall(x: nat, k: nat, n: nat, on: bool)
    requires k < n && x < Pow2(n)
    ensures WithBit(x, k, on) < Pow2(n)
  {
    if k > 0 { WithBitSmall(x / 2, k - 1, n - 1, on); }
  }

  lemma {:induction false} WithBitGet(x: nat, k: nat, on: bool, j: nat)
    ensures Bit(WithBit(x, k, on), j) == if j == k then on else Bit(x, j)
  {
    if k > 0 && j > 0 { WithBitGet(x / 2, k - 1, on, j - 1); }
  }

  function IsSet(b: Block, bi: nat): bool
    requires bi < BPB
  {
    Bit(b[bi / 8], bi % 8)
  }

  /** Set or clear bit bi of a bitmap block. */
  function Put(b: Block, bi: nat, on: bool): Block
    requires bi < BPB
  {
    assert Pow2(8) == 256;
    WithBitSmall(b[bi / 8], bi % 8, 8, on);
    b[bi / 8 := WithBit(b[bi / 8], bi % 8, on)]
  }

  lemma PutGet(b: Block, bi: nat, on: bool, bj: nat)
    requires bi < BPB && bj < BPB
    ensures IsSet(Put(b, bi, on), bj) == if bj == bi then on else IsSet(b, bj)
  {
    if bi / 8 == bj / 8 { WithBitGet(b[bi / 8], bi % 8, on, bj % 8); }
  }
}
