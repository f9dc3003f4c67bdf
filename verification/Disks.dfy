/** Two states of the disk that mkfs.c:14-17 lays out, nearly full: one on which a chunk of filewrite is too big
    a transaction, and one on which balloc turns to the log. */
module Disks {
  import opened Blocks
  import opened Bitmap
  import opened FiniteSets
  import opened FsIndex
  import opened FsState
  import opened FsLog
  import opened FsWrite
  import opened FsSpace
  import opened TxBound

  const SIZE := 40960
  const BITMAP := 28
  const DATA := 39

  function Disk(): Super {
    Super(SIZE, 200, 10)
  }

  /** The bitmap and the data blocks start where mkfs.c:86-90 has them, and the log where log.c:62 has it. */
  lemma Laid()
    ensures MetaEnd(Disk()) == DATA && BBlock(Disk(), 0) == BITMAP && LogStart(Disk()) == 40950
  {
  }

  /** One free block at most for each bitmap sector. */
  predicate Holes(holes: map<nat, nat>) {
    forall j :: j in holes ==> holes[j] < BPB
  }

  function Ones(): (b: Block)
    ensures forall i :: 0 <= i < BSIZE ==> b[i] == 255
  {
    seq(BSIZE, _ => 255)
  }

  lemma OnesSet(bi: nat)
    requires bi < BPB
    ensures IsSet(Ones(), bi)
  {
    AllBits(bi % 8);
  }

  lemma AllBits(k: nat)
    requires k < 8
    ensures Bit(255, k)
  {
    assert Bit(255, 0) && Bit(255, 1) && Bit(255, 2) && Bit(255, 3);
    assert Bit(15, 0) && Bit(15, 1) && Bit(15, 2) && Bit(15, 3);
    if k >= 4 { assert Bit(255, k) == Bit(127, k - 1) == Bit(63, k - 2) == Bit(31, k - 3) == Bit(15, k - 4); }
  }

  function MapSector(holes: map<nat, nat>, j: nat): Block
    requires Holes(holes)
  {
    if j in holes then Put(Ones(), holes[j], false) else Ones()
  }

  function Sector(holes: map<nat, nat>, m: nat): Block
    requires Holes(holes)
  {
    if BITMAP <= m < DATA then MapSector(holes, m - BITMAP) else ZeroBlock()
  }

  function Image(holes: map<nat, nat>): (blocks: seq<Block>)
    requires Holes(holes)
    ensures |blocks| == SIZE && forall m :: 0 <= m < SIZE ==> blocks[m] == Sector(holes, m)
  {
    seq(SIZE, m requires 0 <= m < SIZE => Sector(holes, m))
  }

  predicate IsHole(holes: map<nat, nat>, b: nat) {
    b / BPB in holes && holes[b / BPB] == b % BPB
  }

  lemma ImageMarks(holes: map<nat, nat>, b: nat)
    requires Holes(holes) && b < SIZE
    ensures b in Marks(Disk(), Image(holes)) <==> !IsHole(holes, b)
  {
    hide IsSet, Put, Image;
    var j := b / BPB;
    assert BBlock(Disk(), b) == BITMAP + j && BITMAP + j < DATA;
    assert Image(holes)[BITMAP + j] == MapSector(holes, j);
    OnesSet(b % BPB);
    if j in holes { PutGet(Ones(), holes[j], false, b % BPB); }
  }

  // -------- A file of eleven blocks --------

  function NoFile(): Inode {
    Inode(0, 0, 0, 0, 0, seq(NADDRS, _ => 0))
  }

  /** Ten whole blocks and one byte, in blocks 100 to 110. */
  function ElevenBlocks(): (ip: Inode)
    ensures |ip.addrs| == NADDRS && ip.size == 5121
    ensures forall i :: 0 <= i < NADDRS ==> ip.addrs[i] == if i < NDIRECT then 100 + i else 0
  {
    Inode(2, 0, 0, 1, 5121, seq(NADDRS, i => if i < NDIRECT then 100 + i else 0))
  }

  function Held(): set<nat> {
    {100, 101, 102, 103, 104, 105, 106, 107, 108, 109, 110}
  }

  function Owners(): map<nat, Owner> {
    map b | b in Held() :: Owner(1, Root(b - 100))
  }

  function Nearly(holes: map<nat, nat>): Fs
    requires Holes(holes)
  {
    Fs(Image(holes), [NoFile(), ElevenBlocks()], Owners())
  }

  lemma {:induction false} NoFileAt(blocks: seq<Block>, s: Slot)
    requires IsSlot(s)
    ensures At(blocks, NoFile(), s) == 0
    decreases Depth(s)
  {
    if !s.Root? { NoFileAt(blocks, Parent(s)); }
  }

  lemma {:induction false} ElevenAt(blocks: seq<Block>, s: Slot)
    requires IsSlot(s)
    ensures At(blocks, ElevenBlocks(), s) == if s.Root? && s.i < NDIRECT then 100 + s.i else 0
    decreases Depth(s)
  {
    if !s.Root? { ElevenAt(blocks, Parent(s)); }
  }

  /** The free blocks, and the file's, are where they should be. */
  predicate Apart(holes: map<nat, nat>) {
    Holes(holes) && forall b: nat :: b < 111 ==> !IsHole(holes, b)
  }

  lemma NearlyOwned(holes: map<nat, nat>)
    requires Holes(holes)
    ensures var fs := Nearly(holes); Owned(fs.blocks, fs.inodes, fs.owner) && Exact(fs.blocks, fs.inodes, fs.owner)
  {
    hide At, Image;
    var fs := Nearly(holes);
    assert |fs.blocks| == SIZE by { ImageSize(holes); }
    forall k, s | 0 <= k < 2 && IsSlot(s)
      ensures At(fs.blocks, fs.inodes[k], s) == if k == 1 && s.Root? && s.i < NDIRECT then 100 + s.i else 0
    {
      if k == 0 { NoFileAt(fs.blocks, s); } else { ElevenAt(fs.blocks, s); }
    }
  }

  lemma ImageSize(holes: map<nat, nat>)
    requires Holes(holes)
    ensures |Image(holes)| == SIZE
  {
  }

  lemma NearlyOk(holes: map<nat, nat>)
    requires Apart(holes)
    ensures FsOk(Disk(), Nearly(holes)) && AllHoleFree(Nearly(holes))
  {
    var fs := Nearly(holes);
    NearlyOwned(holes);
    ImageSize(holes);
    hide Image, Owned, Exact, Marks, Holes;
    forall b: nat | b < 111 ensures b in Marks(Disk(), fs.blocks) { ImageMarks(holes, b); }
    NearlyHoleFree(holes);
  }

  lemma NearlyHoleFree(holes: map<nat, nat>)
    requires Holes(holes)
    ensures AllHoleFree(Nearly(holes))
  {
    hide At, Image;
    var fs := Nearly(holes);
    forall bn | 0 <= bn < MAXFILE && bn * BSIZE < 5121 ensures BlockAt(fs, 1, bn) != 0 {
      assert SlotOf(bn) == Root(bn);
      ElevenAt(fs.blocks, Root(bn));
    }
  }

  // -------- A chunk that is too big --------

  /** Four free blocks, in four bitmap sectors. */
  function Scattered(): map<nat, nat> {
    map[0 := 4095, 1 := 4095, 2 := 4095, 3 := 4095]
  }

  lemma ScatteredFree()
    ensures Apart(Scattered())
    ensures FreeBlocks(Disk(), Image(Scattered())) == {4095, 8191, 12287, 16383}
  {
    hide Image, Marks;
    var holes := Scattered();
    forall b: nat | b < SIZE ensures b in Marks(Disk(), Image(holes)) <==> b !in {4095, 8191, 12287, 16383} {
      ImageMarks(holes, b);
    }
  }

  /** The blocks behind the eleventh are reached through the indirect block, which is not there yet. */
  lemma NextSlots()
    ensures Paths(10, 14) == {Root(10), Root(11), Ind(0), Ind(1), Ind(2)}
    ensures ContentSlots(10, 14) == {Root(10), Ind(0), Ind(1), Ind(2)}
  {
    assert SlotOf(10) == Root(10) && SlotOf(11) == Ind(0) && SlotOf(12) == Ind(1) && SlotOf(13) == Ind(2);
    PathOf(Root(10));
    PathOf(Ind(0));
    PathOf(Ind(1));
    PathOf(Ind(2));
    hide SlotOf, Path;
    assert Paths(10, 10) == {};
    assert Paths(10, 11) == {Root(10)};
    assert Paths(10, 12) == {Root(10), Ind(0), Root(11)};
    assert Paths(10, 13) == {Root(10), Ind(0), Root(11), Ind(1)};
    forall s | s in ContentSlots(10, 14) ensures s in {Root(10), Ind(0), Ind(1), Ind(2)} {
      var bn :| 10 <= bn < 14 && s == SlotOf(bn);
    }
  }

  lemma NextEmpty(holes: map<nat, nat>)
    requires Holes(holes)
    ensures EmptySlots(Nearly(holes), 1, Paths(10, 14)) == {Root(11), Ind(0), Ind(1), Ind(2)}
  {
    hide At, Image, Paths;
    NextSlots();
    var fs := Nearly(holes);
    forall s | IsSlot(s) ensures At(fs.blocks, fs.inodes[1], s) == if s.Root? && s.i < NDIRECT then 100 + s.i else 0 {
      ElevenAt(fs.blocks, s);
    }
  }

  lemma LowestAll(s: set<nat>)
    ensures Lowest(s, |s|) == s
  {
    LowestIs(s, s);
  }

  lemma ScatteredMaps()
    ensures LowestMaps(Disk(), Image(Scattered()), 4) == {28, 29, 30, 31}
  {
    hide Image, Lowest, FreeBlocks;
    ScatteredFree();
    var free: set<nat> := {4095, 8191, 12287, 16383};
    assert |free| == 4;
    LowestAll(free);
  }

  /** There an append of one chunk has all the blocks it needs and yet does not fit the log: four content blocks
      and the indirect block, and four bitmap sectors, leave no place for the inode. */
  lemma BigChunk()
    ensures var fs := Nearly(Scattered());
            && FsOk(Disk(), fs) && AllHoleFree(fs) && fs.inodes[1].size == 5121
            && Room(Disk(), fs, 1, Paths(10, 14)) && LastBlock(5121, CHUNK) == 14
            && TooBig(Disk(), fs, 1, 5121, CHUNK)
  {
    var fs := Nearly(Scattered());
    hide FsOk, AllHoleFree, Room, TooBig, Image, ElevenBlocks, NoFile, Owners;
    ScatteredFree();
    NearlyOk(Scattered());
    NextEmpty(Scattered());
    ScatteredMaps();
    FourFree(fs);
    FourMaps(fs);
  }

  lemma FourFree(fs: Fs)
    requires 1 < |fs.inodes| && |fs.inodes[1].addrs| == NADDRS
    requires EmptySlots(fs, 1, Paths(10, 14)) == {Root(11), Ind(0), Ind(1), Ind(2)}
    requires FreeBlocks(Disk(), fs.blocks) == {4095, 8191, 12287, 16383}
    ensures Room(Disk(), fs, 1, Paths(10, 14))
  {
    hide EmptySlots, Paths, FreeBlocks;
    FourEmpty();
    var free: set<nat> := {4095, 8191, 12287, 16383};
    assert |free| == 4;
  }

  lemma FourEmpty()
    ensures |{Root(11), Ind(0), Ind(1), Ind(2)}| == 4
  {
  }

  lemma FourMaps(fs: Fs)
    requires 1 < |fs.inodes| && |fs.inodes[1].addrs| == NADDRS && fs.inodes[1].size == 5121
    requires EmptySlots(fs, 1, Paths(10, 14)) == {Root(11), Ind(0), Ind(1), Ind(2)}
    requires LowestMaps(Disk(), fs.blocks, 4) == {28, 29, 30, 31}
    ensures LastBlock(5121, CHUNK) == 14 && TooBig(Disk(), fs, 1, 5121, CHUNK)
  {
    TouchedFive(fs);
    hide EmptySlots, Paths, LowestMaps, Touched;
    FourEmpty();
    FiveSlots();
    FourSectors();
  }

  lemma FiveSlots()
    ensures |{Root(10), Root(11), Ind(0), Ind(1), Ind(2)}| == 5
  {
  }

  lemma FourSectors()
    ensures |{28 as nat, 29, 30, 31}| == 4
  {
  }

  lemma TouchedFive(fs: Fs)
    requires 1 < |fs.inodes| && |fs.inodes[1].addrs| == NADDRS
    requires EmptySlots(fs, 1, Paths(10, 14)) == {Root(11), Ind(0), Ind(1), Ind(2)}
    ensures Touched(fs, 1, 10, 14) == {Root(10), Root(11), Ind(0), Ind(1), Ind(2)}
  {
    hide EmptySlots, Paths, ContentSlots;
    NextSlots();
  }

  // -------- A disk whose data blocks are all in use --------

  /** The first sector of the log, where mkfs leaves the bit clear. */
  function LogHole(): map<nat, nat> {
    map[9 := 4086]
  }

  /** balloc will hand out the header of the log. */
  lemma LogNext()
    ensures var fs := Nearly(LogHole());
            && FsOk(Disk(), fs) && FreeBlocks(Disk(), fs.blocks) == {} && LogOpen(Disk(), fs.blocks)
            && LogStart(Disk()) !in Marks(Disk(), fs.blocks)
  {
    var holes := LogHole();
    hide Image, Marks;
    forall b: nat | b < SIZE ensures b in Marks(Disk(), Image(holes)) <==> b != 40950 { ImageMarks(holes, b); }
    NearlyOk(holes);
    assert LogStart(Disk()) <= 40950 < Disk().size && 40950 !in Marks(Disk(), Image(holes));
    hide FsOk;
  }
}
