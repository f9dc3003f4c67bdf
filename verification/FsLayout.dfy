/** Where things are on the disk, byte by byte: inodes (fs.h:26-40) and the bitmap (fs.h:42-46). */
module FsLayout {
  import opened Blocks
  import opened Bitmap
  import opened FsIndex
  import opened FsState
  import opened FsSync
  import opened Dinode

  /** The inodes start with sector 2, and take 64 bytes each; 60 of them are copied. */
  const INODES := 1024
  const INODE_BYTES := 64
  const COPIED_BYTES := 60

  function DiskByte(blocks: seq<Block>, i: nat): Byte
    requires i < |blocks| * BSIZE
  {
    blocks[i / BSIZE][i % BSIZE]
  }

  /** Byte n of a little-endian number. */
  function ByteOf(w: nat, n: nat): Byte {
    if n == 0 then w % 0x100 else ByteOf(w / 0x100, n - 1)
  }

  /** Byte j of the struct: four shorts, the size, the block numbers. */
  function DinodeByte(ip: Inode, j: nat): Byte
    requires |ip.addrs| == NADDRS && j < COPIED_BYTES
  {
    if j < 2 then ByteOf(ip.kind, j)
    else if j < 4 then ByteOf(ip.major, j - 2)
    else if j < 6 then ByteOf(ip.minor, j - 4)
    else if j < 8 then ByteOf(ip.nlink, j - 6)
    else if j < 12 then ByteOf(ip.size, j - 8)
    else ByteOf(ip.addrs[(j - 12) / 4], j % 4)
  }

  /** blocks' differs from blocks in the bytes of inode k only, which are those of ip. */
  ghost predicate Laid(blocks: seq<Block>, blocks': seq<Block>, k: nat, ip: Inode) {
    && |blocks'| == |blocks| && |ip.addrs| == NADDRS
    && forall i: nat :: i < |blocks| * BSIZE ==>
         var at := INODES + INODE_BYTES * k;
         DiskByte(blocks', i) == if at <= i < at + COPIED_BYTES then DinodeByte(ip, i - at) else DiskByte(blocks, i)
  }

  lemma SetWordByte(b: Block, j: nat, w: nat, i: nat)
    requires j < WORDS && w < WORD_LIMIT && i < BSIZE
    ensures SetWord(b, j, w)[i] == if i / 4 == j then ByteOf(w, i % 4) else b[i]
  {
    FourBytes(w);
  }

  lemma FourBytes(w: nat)
    requires w < WORD_LIMIT
    ensures ByteOf(w, 0) == w % 0x100 && ByteOf(w, 1) == w / 0x100 % 0x100
    ensures ByteOf(w, 2) == w / 0x100 / 0x100 % 0x100 && ByteOf(w, 3) == w / 0x100 / 0x100 / 0x100
  {
    assert ByteOf(w, 1) == ByteOf(w / 0x100, 0);
    assert ByteOf(w, 2) == ByteOf(w / 0x100, 1) == ByteOf(w / 0x100 / 0x100, 0);
    assert ByteOf(w, 3) == ByteOf(w / 0x100, 2) == ByteOf(w / 0x100 / 0x100, 1) == ByteOf(w / 0x100 / 0x100 / 0x100, 0);
  }

  lemma {:induction false} PutWordsByte(b: Block, at: nat, ip: Inode, n: nat, i: nat)
    requires Storable(ip) && n <= 3 + COPIED && at + n <= WORDS && i < BSIZE
    ensures PutWords(b, at, ip, n)[i] == if at <= i / 4 < at + n then ByteOf(Word16(ip, i / 4 - at), i % 4) else b[i]
  {
    if n > 0 {
      PutWordsByte(b, at, ip, n - 1, i);
      SetWordByte(PutWords(b, at, ip, n - 1), at + n - 1, Word16(ip, n - 1), i);
    }
  }

  lemma PairByte(lo: nat, hi: nat, n: nat)
    requires lo < SHORT && hi < SHORT && n < 4
    ensures ByteOf(Pair(lo, hi), n) == if n < 2 then ByteOf(lo, n) else ByteOf(hi, n - 2)
  {
    FourBytes(Pair(lo, hi));
    FourBytes(lo);
    FourBytes(hi);
    var w := Pair(lo, hi);
    assert w / 0x100 == lo / 0x100 + hi * 0x100;
    assert w / 0x100 / 0x100 == hi;
  }

  /** The fifteen words that are copied hold the struct. */
  lemma DinodeWord(ip: Inode, j: nat)
    requires Storable(ip) && j < COPIED_BYTES
    ensures ByteOf(Word16(ip, j / 4), j % 4) == DinodeByte(ip, j)
  {
    hide ByteOf;
    if j < 4 {
      PairByte(ip.kind, ip.major, j);
    } else if j < 8 {
      PairByte(ip.minor, ip.nlink, j - 4);
    }
  }

  lemma Spot(k: nat, i: nat)
    ensures i / BSIZE == IBlock(k) && DWORDS * (k % IPB) <= i % BSIZE / 4 < DWORDS * (k % IPB) + 3 + COPIED
            <==> INODES + INODE_BYTES * k <= i < INODES + INODE_BYTES * k + COPIED_BYTES
    ensures i / BSIZE == IBlock(k) ==>
              i % BSIZE / 4 - DWORDS * (k % IPB) == (i - INODES - INODE_BYTES * k) / 4
              && i % BSIZE % 4 == (i - INODES - INODE_BYTES * k) % 4
  {
    assert k == IPB * (k / IPB) + k % IPB;
    assert i == BSIZE * (i / BSIZE) + i % BSIZE;
    SpotIn(k / IPB, k % IPB, i / BSIZE, i % BSIZE);
  }

  lemma SpotIn(q: nat, r: nat, x: nat, y: nat)
    requires r < IPB && y < BSIZE
    ensures x == q + 2 && DWORDS * r <= y / 4 < DWORDS * r + 3 + COPIED
            <==> INODES + INODE_BYTES * (IPB * q + r) <= BSIZE * x + y
                   < INODES + INODE_BYTES * (IPB * q + r) + COPIED_BYTES
    ensures x == q + 2 ==>
              var d := BSIZE * x + y - INODES - INODE_BYTES * (IPB * q + r);
              y / 4 - DWORDS * r == d / 4 && y % 4 == d % 4
  {
    assert BSIZE * x + y - INODES - INODE_BYTES * (IPB * q + r) == BSIZE * (x - q - 2) + y - INODE_BYTES * r;
  }

  /** iupdate writes the inode's own bytes: those of inode k are bytes 64k to 64k+63 from sector 2 on. */
  lemma InodeLaid(blocks: seq<Block>, k: nat, ip: Inode)
    requires Storable(ip) && IBlock(k) < |blocks|
    ensures Laid(blocks, blocks[IBlock(k) := PutDinode(blocks[IBlock(k)], k % IPB, ip)], k, ip)
  {
    var b, at := blocks[IBlock(k)], INODES + INODE_BYTES * k;
    var blocks' := blocks[IBlock(k) := PutDinode(b, k % IPB, ip)];
    forall i: nat | i < |blocks| * BSIZE
      ensures DiskByte(blocks', i) == if at <= i < at + COPIED_BYTES then DinodeByte(ip, i - at)
              else DiskByte(blocks, i)
    {
      Spot(k, i);
      PutWordsByte(b, DWORDS * (k % IPB), ip, 3 + COPIED, i % BSIZE);
      if at <= i < at + COPIED_BYTES { DinodeWord(ip, i - at); }
      hide PutWords, DinodeByte, ByteOf, Word16;
    }
  }

  lemma InodeStorable(sb: Super, fs: Fs, k: nat)
    requires FsOk(sb, fs) && k < |fs.inodes|
    ensures Storable(fs.inodes[k])
  {
    assert sb.size < WORD_LIMIT && |fs.blocks| == sb.size;
    hide FsOk, At;
    Sized(sb, fs, k);
    forall i | 0 <= i < NADDRS ensures fs.inodes[k].addrs[i] < WORD_LIMIT { RootInRange(sb, fs, k, i); }
  }

  /** The bytes of inode k on disk are those of ip. */
  ghost predicate OnDisk(blocks: seq<Block>, k: nat, ip: Inode) {
    && |ip.addrs| == NADDRS && INODES + INODE_BYTES * k + INODE_BYTES <= |blocks| * BSIZE
    && forall j: nat :: j < COPIED_BYTES ==> DiskByte(blocks, INODES + INODE_BYTES * k + j) == DinodeByte(ip, j)
  }

  lemma WordByte(b: Block, i: nat)
    requires i < BSIZE
    ensures b[i] == ByteOf(Word(b, i / 4), i % 4)
  {
    hide Word, ByteOf;
    FourThere(b, i / 4);
    assert i == 4 * (i / 4) + i % 4;
  }

  lemma FourThere(b: Block, j: nat)
    requires j < WORDS
    ensures b[4 * j] == ByteOf(Word(b, j), 0) && b[4 * j + 1] == ByteOf(Word(b, j), 1)
    ensures b[4 * j + 2] == ByteOf(Word(b, j), 2) && b[4 * j + 3] == ByteOf(Word(b, j), 3)
  {
    hide ByteOf;
    Parts(b[4 * j], b[4 * j + 1], b[4 * j + 2], b[4 * j + 3]);
    FourBytes(Word(b, j));
  }

  lemma Parts(a: Byte, b: Byte, c: Byte, d: Byte)
    ensures var w := a + 0x100 * b + 0x1_0000 * c + 0x100_0000 * d;
            w % 0x100 == a && w / 0x100 % 0x100 == b && w / 0x100 / 0x100 % 0x100 == c && w / 0x100 / 0x100 / 0x100 == d
  {
    var w := a + 0x100 * b + 0x1_0000 * c + 0x100_0000 * d;
    assert w / 0x100 == b + 0x100 * c + 0x1_0000 * d;
    assert w / 0x100 / 0x100 == c + 0x100 * d;
  }

  lemma BytesWord(b: Block, j: nat, w: nat)
    requires j < WORDS && w < WORD_LIMIT && forall n :: 0 <= n < 4 ==> b[4 * j + n] == ByteOf(w, n)
    ensures Word(b, j) == w
  {
    assert b[4 * j + 0] == ByteOf(w, 0) && b[4 * j + 1] == ByteOf(w, 1);
    assert b[4 * j + 2] == ByteOf(w, 2) && b[4 * j + 3] == ByteOf(w, 3);
    FourBytes(w);
    Digits(w);
  }

  predicate WordsAre(b: Block, slot: nat, ip: Inode)
    requires Storable(ip) && slot < IPB
  {
    forall w :: 0 <= w < 3 + COPIED ==> Word(b, DWORDS * slot + w) == Word16(ip, w)
  }

  /** What GetDinode reads, word by word. */
  lemma GetWords(b: Block, slot: nat, ip: Inode)
    requires Storable(ip) && slot < IPB && GetDinode(b, slot, ip.addrs[NDIRECT + 1]) == ip
    ensures WordsAre(b, slot, ip)
  {
    hide Word, Pair;
    var at := DWORDS * slot;
    assert Word(b, at) == Pair(ip.kind, ip.major) by { SameHalves(Word(b, at), Pair(ip.kind, ip.major)); }
    assert Word(b, at + 1) == Pair(ip.minor, ip.nlink) by { SameHalves(Word(b, at + 1), Pair(ip.minor, ip.nlink)); }
    forall w | 0 <= w < 3 + COPIED ensures Word(b, at + w) == Word16(ip, w) {
      if w >= 3 { assert ip.addrs[w - 3] == AddrWord(b, at, ip.addrs[NDIRECT + 1], w - 3); }
    }
  }

  lemma WordsGet(b: Block, slot: nat, ip: Inode)
    requires Storable(ip) && slot < IPB && WordsAre(b, slot, ip)
    ensures GetDinode(b, slot, ip.addrs[NDIRECT + 1]) == ip
  {
    hide Word, Pair;
    var at := DWORDS * slot;
    assert Word(b, at + 0) == Word16(ip, 0) && Word(b, at + 1) == Word16(ip, 1) && Word(b, at + 2) == Word16(ip, 2);
    forall i | 0 <= i < NADDRS ensures AddrWord(b, at, ip.addrs[NDIRECT + 1], i) == ip.addrs[i] {
      if i < COPIED { assert Word(b, at + (3 + i)) == Word16(ip, 3 + i); }
    }
    assert GetDinode(b, slot, ip.addrs[NDIRECT + 1]).addrs == ip.addrs;
  }

  /** Inode k can be read back exactly if its bytes, 64k to 64k+59 from sector 2 on, are those of the struct. */
  lemma SyncedBytes(blocks: seq<Block>, k: nat, ip: Inode)
    requires Storable(ip) && IBlock(k) < |blocks|
    ensures Synced(blocks, ip, k) <==> OnDisk(blocks, k, ip)
  {
    var b, at := blocks[IBlock(k)], INODES + INODE_BYTES * k;
    InodeInside(blocks, k);
    if Synced(blocks, ip, k) {
      GetWords(b, k % IPB, ip);
      forall j: nat | j < COPIED_BYTES ensures DiskByte(blocks, at + j) == DinodeByte(ip, j) {
        ByteThere(blocks, k, j);
        DinodeWord(ip, j);
        hide DinodeByte, Word16, Word, ByteOf, GetDinode;
      }
    }
    if OnDisk(blocks, k, ip) {
      forall w | 0 <= w < 3 + COPIED ensures Word(b, DWORDS * (k % IPB) + w) == Word16(ip, w) {
        WordThere(blocks, k, ip, w);
      }
      WordsGet(b, k % IPB, ip);
    }
  }

  lemma InodeInside(blocks: seq<Block>, k: nat)
    requires IBlock(k) < |blocks|
    ensures INODES + INODE_BYTES * k + INODE_BYTES <= |blocks| * BSIZE && k % IPB < IPB
  {
    assert k == IPB * (k / IPB) + k % IPB;
  }

  lemma ByteThere(blocks: seq<Block>, k: nat, j: nat)
    requires IBlock(k) < |blocks| && j < COPIED_BYTES
    ensures INODES + INODE_BYTES * k + j < |blocks| * BSIZE
    ensures DiskByte(blocks, INODES + INODE_BYTES * k + j)
            == ByteOf(Word(blocks[IBlock(k)], DWORDS * (k % IPB) + j / 4), j % 4)
  {
    var i := INODES + INODE_BYTES * k + j;
    InodeInside(blocks, k);
    Spot(k, i);
    WordByte(blocks[IBlock(k)], i % BSIZE);
    hide Word, ByteOf;
  }

  lemma WordThere(blocks: seq<Block>, k: nat, ip: Inode, w: nat)
    requires Storable(ip) && IBlock(k) < |blocks| && OnDisk(blocks, k, ip) && w < 3 + COPIED
    ensures Word(blocks[IBlock(k)], DWORDS * (k % IPB) + w) == Word16(ip, w)
  {
    var b, j := blocks[IBlock(k)], DWORDS * (k % IPB) + w;
    forall n | 0 <= n < 4 ensures b[4 * j + n] == ByteOf(Word16(ip, w), n) {
      ByteThere(blocks, k, 4 * w + n);
      DinodeWord(ip, 4 * w + n);
      WordByte(b, 4 * j + n);
      hide Word, ByteOf, Word16, DinodeByte;
    }
    BytesWord(b, j, Word16(ip, w));
  }

  /** The bit of block b is bit b from the start of the sector after the inodes. */
  lemma BitPlace(sb: Super, blocks: seq<Block>, b: nat)
    requires b < sb.size <= |blocks| && MetaEnd(sb) <= sb.size
    ensures (sb.ninodes / 8 + 3) * BSIZE + b / 8 < |blocks| * BSIZE
    ensures Marked(sb, blocks, b) <==> Bit(DiskByte(blocks, (sb.ninodes / 8 + 3) * BSIZE + b / 8), b % 8)
  {
    BBlockMeta(sb, b);
    var i := (sb.ninodes / 8 + 3) * BSIZE + b / 8;
    assert b == BPB * (b / BPB) + b % BPB && i == BSIZE * BBlock(sb, b) + b % BPB / 8;
    assert i / BSIZE == BBlock(sb, b) && i % BSIZE == b % BPB / 8 && b % BPB % 8 == b % 8;
    hide Bit;
  }

  lemma SameHalves(v: nat, w: nat)
    requires v % SHORT == w % SHORT && v / SHORT == w / SHORT
    ensures v == w
  {
  }

  // -------- Content --------

  /** The 32-bit number j of block b on the disk; 0 when there is no block. */
  function NumberAt(blocks: seq<Block>, b: nat, j: nat): nat
    requires j < WORDS
  {
    if b == 0 || b >= |blocks| then 0
    else
      var i := BSIZE * b + 4 * j;
      DiskByte(blocks, i) + 0x100 * DiskByte(blocks, i + 1) + 0x1_0000 * DiskByte(blocks, i + 2)
      + 0x100_0000 * DiskByte(blocks, i + 3)
  }

  /** The block number of content block n, with 11 direct ones, 128 behind block number 11 and 128 times 128 behind
      block number 12. */
  function BlockNo(blocks: seq<Block>, ip: Inode, n: nat): nat
    requires |ip.addrs| == NADDRS && n < 11 + 128 + 128 * 128
  {
    if n < 11 then ip.addrs[n]
    else if n < 139 then NumberAt(blocks, ip.addrs[11], n - 11)
    else NumberAt(blocks, NumberAt(blocks, ip.addrs[12], (n - 139) / 128), (n - 139) % 128)
  }

  lemma NumberIs(blocks: seq<Block>, b: nat, j: nat)
    requires j < WORDS
    ensures NumberAt(blocks, b, j) == WordAt(blocks, b, j)
  {
    if 0 < b < |blocks| {
      hide DiskByte;
      ByteIn(blocks, b, 4 * j);
      ByteIn(blocks, b, 4 * j + 1);
      ByteIn(blocks, b, 4 * j + 2);
      ByteIn(blocks, b, 4 * j + 3);
    }
  }

  lemma ByteIn(blocks: seq<Block>, b: nat, i: nat)
    requires b < |blocks| && i < BSIZE
    ensures DiskByte(blocks, BSIZE * b + i) == blocks[b][i]
  {
    assert (BSIZE * b + i) / BSIZE == b && (BSIZE * b + i) % BSIZE == i;
  }

  lemma BlockPlace(fs: Fs, k: nat, n: nat)
    requires k < |fs.inodes| && |fs.inodes[k].addrs| == NADDRS && n < MAXFILE
    ensures BlockAt(fs, k, n) == BlockNo(fs.blocks, fs.inodes[k], n)
  {
    hide NumberAt, WordAt;
    var ip := fs.inodes[k];
    if n < NDIRECT {
    } else if n < NDIRECT + NINDIRECT {
      NumberIs(fs.blocks, ip.addrs[11], n - 11);
      assert At(fs.blocks, ip, Root(NDIRECT)) == ip.addrs[11];
    } else {
      var m := n - 139;
      NumberIs(fs.blocks, ip.addrs[12], m / 128);
      NumberIs(fs.blocks, WordAt(fs.blocks, ip.addrs[12], m / 128), m % 128);
      assert At(fs.blocks, ip, Root(NDIRECT + 1)) == ip.addrs[12];
      assert At(fs.blocks, ip, DblInd(m / 128)) == WordAt(fs.blocks, ip.addrs[12], m / 128);
    }
  }

  /** Byte pos of a file without holes is byte pos % 512 of block pos / 512 of it, on the disk. */
  lemma ContentPlace(sb: Super, fs: Fs, k: nat, pos: nat)
    requires FsOk(sb, fs) && k < |fs.inodes| && |fs.inodes[k].addrs| == NADDRS && pos < fs.inodes[k].size <= MAXBYTES
    requires HoleFree(fs, k, fs.inodes[k].size)
    ensures var b := BlockNo(fs.blocks, fs.inodes[k], pos / 512);
            && 0 < b && 512 * b + pos % 512 < |fs.blocks| * BSIZE
            && Content(fs, k)[pos] == DiskByte(fs.blocks, 512 * b + pos % 512)
  {
    hide At, SlotOf, BlockNo, FsOk;
    BlockPlace(fs, k, pos / BSIZE);
    assert pos / BSIZE * BSIZE <= pos;
    assert BlockAt(fs, k, pos / BSIZE) != 0;
    SlotInRange(sb, fs, k, SlotOf(pos / BSIZE));
    var b := BlockAt(fs, k, pos / BSIZE);
    ByteIn(fs.blocks, b, pos % BSIZE);
  }
}
