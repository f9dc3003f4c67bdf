/** Disk blocks: 512 bytes, also read as 128 little-endian 32-bit words. */
module Blocks {

  const BSIZE := 512
  const WORDS := 128
  const WORD_LIMIT := 0x1_0000_0000

  type Byte = x: int | 0 <= x < 256
  type Block = b: seq<Byte> | |b| == BSIZE witness seq(BSIZE, _ => 0)

  function ZeroBlock(): (z: Block)
    ensures forall i :: 0 <= i < BSIZE ==> z[i] == 0
  {
    seq(BSIZE, _ => 0)
  }

  /** ((uint*)data)[j] */
  function Word(b: Block, j: nat): (w: nat)
    requires j < WORDS
    ensures w < WORD_LIMIT
  {
    b[4 * j] as int + 0x100 * b[4 * j + 1] as int + 0x1_0000 * b[4 * j + 2] as int + 0x100_0000 * b[4 * j + 3] as int
  }

  /** ((uint*)data)[j] = w */
  function SetWord(b: Block, j: nat, w: nat): (r: Block)
    requires j < WORDS && w < WORD_LIMIT
  {
    b[4 * j := w % 0x100]
     [4 * j + 1 := w / 0x100 % 0x100]
     [4 * j + 2 := w / 0x100 / 0x100 % 0x100]
     [4 * j + 3 := w / 0x100 / 0x100 / 0x100]
  }

  lemma Digits(w: nat)
    ensures w == w % 0x100 + 0x100 * (w / 0x100 % 0x100) + 0x1_0000 * (w / 0x100 / 0x100 % 0x100)
            + 0x100_0000 * (w / 0x100 / 0x100 / 0x100)
  {
  }

  /** A stored word reads back, and no other word moves. */
  lemma SetWordGet(b: Block, j: nat, w: nat, k: nat)
    requires j < WORDS && k < WORDS && w < WORD_LIMIT
    ensures Word(SetWord(b, j, w), k) == if k == j then w else Word(b, k)
  {
    var r := SetWord(b, j, w);
    if k == j {
      assert r[4 * k] == w % 0x100 && r[4 * k + 1] == w / 0x100 % 0x100;
      assert r[4 * k + 2] == w / 0x100 / 0x100 % 0x100 && r[4 * k + 3] == w / 0x100 / 0x100 / 0x100;
      Digits(w);
    } else {
      assert r[4 * k] == b[4 * k] && r[4 * k + 1] == b[4 * k + 1];
      assert r[4 * k + 2] == b[4 * k + 2] && r[4 * k + 3] == b[4 * k + 3];
    }
  }

  lemma ZeroBlockWord(k: nat)
    requires k < WORDS
    ensures Word(ZeroBlock(), k) == 0
  {
  }
}
