/** The file system as a value: logical blocks, in-memory inodes, and the owner of each block;
    what every operation keeps, and what allocation changes. */
module FsState {
  import opened Blocks
  import opened Bitmap
  import opened FsIndex

  const IPB := 8
  const MAXBYTES := MAXFILE * BSIZE

  datatype Super = Super(size: nat, ninodes: nat, nlog: nat)

  datatype Fs = Fs(blocks: seq<Block>, inodes: seq<Inode>, owner: map<nat, Owner>)

  /** BBLOCK and IBLOCK of fs.h. */
  function BBlock(sb: Super, b: nat): nat {
    b / BPB + sb.ninodes / IPB + 3
  }

  function IBlock(inum: nat): nat {
    inum / IPB + 2
  }

  /** The first block after the inodes and the bitmap (mkfs.c:86-90). */
  function MetaEnd(sb: Super): nat {
    sb.ninodes / IPB + 3 + sb.size / BPB + 1
  }

  /** The first sector of the log, which ends the disk (log.c:62). */
  function LogStart(sb: Super): int {
    sb.size - sb.nlog
  }

  /** Sectors that no file may have: those before the data blocks, and the log's. */
  predicate Reserved(sb: Super, b: nat) {
    b < MetaEnd(sb) || b >= LogStart(sb)
  }

  predicate Marked(sb: Super, blocks: seq<Block>, b: nat) {
    BBlock(sb, b) < |blocks| && IsSet(blocks[BBlock(sb, b)], b % BPB)
  }

  /** The blocks in use according to the bitmap. */
  ghost function Marks(sb: Super, blocks: seq<Block>): set<nat> {
    set b | 0 <= b < sb.size && Marked(sb, blocks, b)
  }

  /** Index, bitmap and sizes are consistent: every block of every file is owned once, marked in
      the bitmap, and clear of the inode, bitmap and log sectors. The sectors before the data blocks are
      marked; those of the log need not be, and mkfs leaves their bits clear (mkfs.c:229-237). */
  ghost predicate FsOk(sb: Super, fs: Fs) {
    && |fs.blocks| == sb.size < WORD_LIMIT && MetaEnd(sb) <= LogStart(sb) && |fs.inodes| <= sb.ninodes
    && Owned(fs.blocks, fs.inodes, fs.owner) && Exact(fs.blocks, fs.inodes, fs.owner)
    && (forall m :: 0 <= m < MetaEnd(sb) ==> m in Marks(sb, fs.blocks))
    && (forall b :: b in fs.owner ==> !Reserved(sb, b) && b in Marks(sb, fs.blocks))
    && forall k :: 0 <= k < |fs.inodes| ==> fs.inodes[k].size <= MAXBYTES && Shorts(fs.inodes[k])
  }

  lemma Sized(sb: Super, fs: Fs, k: nat)
    requires FsOk(sb, fs) && k < |fs.inodes|
    ensures |fs.inodes[k].addrs| == NADDRS && fs.inodes[k].size <= MAXBYTES && |fs.blocks| == sb.size
    ensures Shorts(fs.inodes[k])
  {
  }

  lemma FsSizes(sb: Super, fs: Fs)
    requires FsOk(sb, fs)
    ensures |fs.blocks| == sb.size && MetaEnd(sb) <= LogStart(sb) <= sb.size
  {
  }

  lemma InodeBlock(sb: Super, fs: Fs, k: nat)
    requires FsOk(sb, fs) && k < |fs.inodes|
    ensures 2 <= IBlock(k) < sb.ninodes / IPB + 3 <= LogStart(sb) <= |fs.blocks|
  {
    hide At, Owned, Exact, Marks;
  }

  lemma RootInRange(sb: Super, fs: Fs, k: nat, i: nat)
    requires FsOk(sb, fs) && k < |fs.inodes| && i < NADDRS && |fs.inodes[k].addrs| == NADDRS
    ensures fs.inodes[k].addrs[i] < |fs.blocks| || fs.inodes[k].addrs[i] == 0
  {
    assert At(fs.blocks, fs.inodes[k], Root(i)) == fs.inodes[k].addrs[i];
    if fs.inodes[k].addrs[i] != 0 { SlotInRange(sb, fs, k, Root(i)); }
  }

  /** A block number found in a slot is a block between the bitmap and the log. */
  lemma {:induction false} SlotInRange(sb: Super, fs: Fs, k: nat, s: Slot)
    requires FsOk(sb, fs) && k < |fs.inodes| && IsSlot(s) && At(fs.blocks, fs.inodes[k], s) != 0
    ensures MetaEnd(sb) <= At(fs.blocks, fs.inodes[k], s) < LogStart(sb) <= |fs.blocks|
    ensures At(fs.blocks, fs.inodes[k], s) in fs.owner
  {
    hide At, IsSlot, Marks;
  }

  lemma BBlockMeta(sb: Super, b: nat)
    requires b < sb.size
    ensures BBlock(sb, b) < MetaEnd(sb)
  {
  }

  // -------- balloc and bfree --------

  /** Bit b set or cleared. */
  function PutMark(sb: Super, blocks: seq<Block>, b: nat, on: bool): (r: seq<Block>)
    requires BBlock(sb, b) < |blocks|
    ensures |r| == |blocks|
  {
    blocks[BBlock(sb, b) := Put(blocks[BBlock(sb, b)], b % BPB, on)]
  }

  lemma PutMarkMarks(sb: Super, blocks: seq<Block>, b: nat, on: bool)
    requires b < sb.size <= |blocks| && MetaEnd(sb) <= sb.size
    ensures BBlock(sb, b) < |blocks|
    ensures Marks(sb, PutMark(sb, blocks, b, on)) == if on then Marks(sb, blocks) + {b} else Marks(sb, blocks) - {b}
  {
    forall c | 0 <= c < sb.size
      ensures Marked(sb, PutMark(sb, blocks, b, on), c) == if c == b then on else Marked(sb, blocks, c)
    {
      if BBlock(sb, c) == BBlock(sb, b) {
        PutGet(blocks[BBlock(sb, b)], b % BPB, on, c % BPB);
      }
    }
  }

  /** The bitmap lives in the blocks below MetaEnd. */
  lemma MarksFrame(sb: Super, blocks: seq<Block>, blocks': seq<Block>)
    requires sb.size <= |blocks| == |blocks'|
    requires forall m :: sb.ninodes / IPB + 3 <= m < MetaEnd(sb) && m < |blocks| ==> blocks'[m] == blocks[m]
    ensures Marks(sb, blocks') == Marks(sb, blocks)
  {
    forall c | 0 <= c < sb.size ensures Marked(sb, blocks', c) == Marked(sb, blocks, c) {
      BBlockMeta(sb, c);
    }
  }

  /** balloc's effect: bit f set and block f zeroed (fs.c:66-69). */
  function Allocated(sb: Super, blocks: seq<Block>, f: nat): (r: seq<Block>)
    requires BBlock(sb, f) < |blocks| && f < |blocks|
    ensures |r| == |blocks|
  {
    PutMark(sb, blocks, f, true)[f := ZeroBlock()]
  }

  lemma AllocatedMarks(sb: Super, fs: Fs, f: nat)
    requires FsOk(sb, fs) && f < LogStart(sb) && f !in Marks(sb, fs.blocks)
    ensures BBlock(sb, f) < MetaEnd(sb) <= f && f !in fs.owner
    ensures Marks(sb, Allocated(sb, fs.blocks, f)) == Marks(sb, fs.blocks) + {f}
  {
    hide Marked, Put, Owned, Exact, Marks;
    BBlockMeta(sb, f);
    PutMarkMarks(sb, fs.blocks, f, true);
    MarksFrame(sb, PutMark(sb, fs.blocks, f, true), Allocated(sb, fs.blocks, f));
  }

  /** A clear bit before the log belongs to a data block of nobody, and allocating it disturbs no file. */
  lemma AllocatedOk(sb: Super, fs: Fs, f: nat)
    requires FsOk(sb, fs) && f < LogStart(sb) && f !in Marks(sb, fs.blocks)
    ensures f !in fs.owner && BBlock(sb, f) < MetaEnd(sb) <= f
    ensures var blocks' := Allocated(sb, fs.blocks, f);
            && Marks(sb, blocks') == Marks(sb, fs.blocks) + {f}
            && (forall b :: b in fs.owner ==> blocks'[b] == fs.blocks[b])
            && SameSlots(fs.blocks, fs.inodes, blocks', fs.inodes)
            && FsOk(sb, fs.(blocks := blocks'))
  {
    hide Put, Owned, Exact, SameSlots, Marks, HasChildren;
    AllocatedMarks(sb, fs, f);
    InRange(sb, fs);
    OwnedFrame(fs.blocks, Allocated(sb, fs.blocks, f), fs.inodes, fs.owner);
  }

  // -------- Growing an inode --------

  /** Every block below f is in use. */
  ghost predicate FullBelow(sb: Super, blocks: seq<Block>, f: nat) {
    forall c: nat :: c < f ==> c in Marks(sb, blocks)
  }

  /** fs' is fs with more blocks for inode k, all of them for the given slots: no block changes
      owner, the bitmap gains exactly the new blocks, and those were the lowest free ones. */
  ghost predicate Grows(sb: Super, fs: Fs, fs': Fs, k: nat, slots: set<Slot>) {
    && FsOk(sb, fs) && FsOk(sb, fs') && k < |fs.inodes| == |fs'.inodes|
    && (forall b :: b in fs.owner ==> b in fs'.owner && fs'.owner[b] == fs.owner[b])
    && (forall b :: b in fs'.owner && b !in fs.owner ==>
          fs'.owner[b].k == k && fs'.owner[b].s in slots && b !in Marks(sb, fs.blocks))
    && Marks(sb, fs'.blocks) == Marks(sb, fs.blocks) + (fs'.owner.Keys - fs.owner.Keys)
    && (forall b :: b in fs'.owner && b !in fs.owner ==> FullBelow(sb, fs'.blocks, b))
  }

  /** And nothing else of any inode is new. */
  ghost predicate Gains(sb: Super, fs: Fs, fs': Fs, k: nat, slots: set<Slot>) {
    Grows(sb, fs, fs', k, slots) && SameButAddrs(fs.inodes, fs'.inodes, k)
  }

  ghost predicate SameButAddrs(inodes: seq<Inode>, inodes': seq<Inode>, k: nat) {
    && k < |inodes| == |inodes'|
    && inodes' == inodes[k := inodes[k].(addrs := inodes'[k].addrs)]
  }

  /** Old content blocks are unchanged and new ones are zero. */
  ghost predicate Quiet(fs: Fs, fs': Fs) {
    && |fs.blocks| == |fs'.blocks|
    && (forall b :: b in fs.owner && b in fs'.owner && b < |fs.blocks| && !HasChildren(fs.owner[b].s) ==>
          fs'.blocks[b] == fs.blocks[b])
    && (forall b :: b in fs'.owner && b !in fs.owner && b < |fs.blocks| && !HasChildren(fs'.owner[b].s) ==>
          fs'.blocks[b] == ZeroBlock())
  }

  ghost predicate Extends(sb: Super, fs: Fs, fs': Fs, k: nat, slots: set<Slot>) {
    Gains(sb, fs, fs', k, slots) && Quiet(fs, fs')
  }

  lemma ExtendsSelf(sb: Super, fs: Fs, k: nat)
    requires FsOk(sb, fs) && k < |fs.inodes|
    ensures Extends(sb, fs, fs, k, {})
  {
  }

  lemma GainsTwice(sb: Super, fs0: Fs, fs1: Fs, fs2: Fs, k: nat, a: set<Slot>, b: set<Slot>)
    requires Gains(sb, fs0, fs1, k, a) && Gains(sb, fs1, fs2, k, b)
    ensures Gains(sb, fs0, fs2, k, a + b)
  {
    hide FsOk, Marks, HasChildren;
    InRange(sb, fs0);
  }

  lemma ExtendsTwice(sb: Super, fs0: Fs, fs1: Fs, fs2: Fs, k: nat, a: set<Slot>, b: set<Slot>)
    requires Extends(sb, fs0, fs1, k, a) && Extends(sb, fs1, fs2, k, b)
    ensures Extends(sb, fs0, fs2, k, a + b)
  {
    GainsTwice(sb, fs0, fs1, fs2, k, a, b);
    hide FsOk, Marks, HasChildren;
  }

  lemma InRange(sb: Super, fs: Fs)
    requires FsOk(sb, fs)
    ensures |fs.blocks| == sb.size
    ensures forall b :: b in fs.owner ==> 0 < b < |fs.blocks| && b in Marks(sb, fs.blocks)
  {
    hide At;
  }

  /** Slots that were filled keep their block, and other inodes gain none. */
  lemma {:induction false} GainsAt(sb: Super, fs: Fs, fs': Fs, k: nat, slots: set<Slot>, k': nat, t: Slot)
    requires Gains(sb, fs, fs', k, slots) && k' < |fs.inodes| && IsSlot(t)
    ensures |fs.inodes[k'].addrs| == |fs'.inodes[k'].addrs| == NADDRS
    ensures At(fs.blocks, fs.inodes[k'], t) != 0 ==>
              At(fs'.blocks, fs'.inodes[k'], t) == At(fs.blocks, fs.inodes[k'], t)
    ensures k' != k || t !in slots ==> At(fs'.blocks, fs'.inodes[k'], t) == At(fs.blocks, fs.inodes[k'], t)
  {
    hide At, IsSlot, Marks, HasChildren;
    var b, b' := At(fs.blocks, fs.inodes[k'], t), At(fs'.blocks, fs'.inodes[k'], t);
    if b != 0 {
      assert b in fs.owner && fs.owner[b] == Owner(k', t);
      assert b in fs'.owner && fs'.owner[b] == Owner(k', t);
    } else if b' != 0 {
      assert b' in fs'.owner && fs'.owner[b'] == Owner(k', t);
    }
  }

  /** Slot s of inode k is filled with block f, fresh from balloc. */
  function Filled(sb: Super, fs: Fs, k: nat, s: Slot, f: nat): Fs
    requires k < |fs.inodes| && |fs.inodes[k].addrs| == NADDRS && IsSlot(s)
    requires BBlock(sb, f) < |fs.blocks| && f < |fs.blocks| && f < WORD_LIMIT
  {
    Fs(PutBlocks(Allocated(sb, fs.blocks, f), fs.inodes[k], s, f),
       fs.inodes[k := PutAddrs(fs.inodes[k], s, f)],
       fs.owner[f := Owner(k, s)])
  }

  ghost predicate CanFill(sb: Super, fs: Fs, k: nat, s: Slot, f: nat) {
    && FsOk(sb, fs) && k < |fs.inodes| && IsSlot(s) && f < LogStart(sb) && f !in Marks(sb, fs.blocks)
    && FullBelow(sb, fs.blocks, f) && At(fs.blocks, fs.inodes[k], s) == 0
    && (!s.Root? ==> At(fs.blocks, fs.inodes[k], Parent(s)) != 0)
  }

  lemma FillCanPut(sb: Super, fs: Fs, k: nat, s: Slot, f: nat)
    requires CanFill(sb, fs, k, s, f)
    ensures BBlock(sb, f) < |fs.blocks| && FsOk(sb, fs.(blocks := Allocated(sb, fs.blocks, f)))
    ensures CanPut(Allocated(sb, fs.blocks, f), fs.inodes, fs.owner, k, s, f)
  {
    hide At, IsSlot, Owned, Exact, Marks, PutMark;
    AllocatedOk(sb, fs, f);
    var blocks' := Allocated(sb, fs.blocks, f);
    assert At(blocks', fs.inodes[k], s) == 0;
    if !s.Root? { assert At(blocks', fs.inodes[k], Parent(s)) != 0; }
  }

  lemma FilledOk(sb: Super, fs: Fs, k: nat, s: Slot, f: nat)
    requires CanFill(sb, fs, k, s, f)
    ensures BBlock(sb, f) < |fs.blocks|
    ensures var fs' := Filled(sb, fs, k, s, f);
            FsOk(sb, fs') && Marks(sb, fs'.blocks) == Marks(sb, fs.blocks) + {f}
  {
    hide At, IsSlot, Owned, Exact, Marks, Allocated, PutBlocks, CanPut, SameSlots;
    AllocatedOk(sb, fs, f);
    FillCanPut(sb, fs, k, s, f);
    var fs1 := fs.(blocks := Allocated(sb, fs.blocks, f));
    PutOwned(fs1.blocks, fs1.inodes, fs1.owner, k, s, f);
    PutElsewhere(sb, fs1, k, s, f);
  }

  lemma {:induction false} FilledExtends(sb: Super, fs: Fs, k: nat, s: Slot, f: nat)
    requires CanFill(sb, fs, k, s, f)
    ensures BBlock(sb, f) < |fs.blocks|
    ensures Extends(sb, fs, Filled(sb, fs, k, s, f), k, {s})
    ensures At(Filled(sb, fs, k, s, f).blocks, Filled(sb, fs, k, s, f).inodes[k], s) == f != 0
  {
    hide At, IsSlot, Owned, Exact, Marks, PutMark, PutBlocks, CanPut, SameSlots, FsOk, HasChildren;
    FilledOk(sb, fs, k, s, f);
    AllocatedOk(sb, fs, f);
    FillCanPut(sb, fs, k, s, f);
    InRange(sb, fs);
    var fs1 := fs.(blocks := Allocated(sb, fs.blocks, f));
    PutAt(fs1.blocks, fs1.inodes, fs1.owner, k, s, f, k, s);
    PutElsewhere(sb, fs1, k, s, f);
  }

  /** Storing the number touches only an index block. */
  lemma PutElsewhere(sb: Super, fs: Fs, k: nat, s: Slot, f: nat)
    requires FsOk(sb, fs) && CanPut(fs.blocks, fs.inodes, fs.owner, k, s, f)
    ensures var blocks' := PutBlocks(fs.blocks, fs.inodes[k], s, f);
            && Marks(sb, blocks') == Marks(sb, fs.blocks)
            && blocks'[f] == fs.blocks[f]
            && forall b :: b in fs.owner && !HasChildren(fs.owner[b].s) ==> blocks'[b] == fs.blocks[b]
  {
    var blocks' := PutBlocks(fs.blocks, fs.inodes[k], s, f);
    if !s.Root? {
      var p := At(fs.blocks, fs.inodes[k], Parent(s));
      assert p in fs.owner && fs.owner[p] == Owner(k, Parent(s));
      hide At, Marks, SetWord, Exact, Owned;
      MarksFrame(sb, fs.blocks, blocks');
    }
  }

  // -------- File content --------

  function BlockAt(fs: Fs, k: nat, bn: nat): nat
    requires k < |fs.inodes| && |fs.inodes[k].addrs| == NADDRS && bn < MAXFILE
  {
    At(fs.blocks, fs.inodes[k], SlotOf(bn))
  }

  /** The byte at a position of a file, whatever its size; 0 where there is no block. */
  function ByteAt(fs: Fs, k: nat, pos: nat): Byte
    requires k < |fs.inodes| && |fs.inodes[k].addrs| == NADDRS && pos < MAXBYTES
  {
    var b := BlockAt(fs, k, pos / BSIZE);
    if b == 0 || b >= |fs.blocks| then 0 else fs.blocks[b][pos % BSIZE]
  }

  /** The content of a file: a plain byte sequence. */
  function Content(fs: Fs, k: nat): (c: seq<Byte>)
    requires k < |fs.inodes| && |fs.inodes[k].addrs| == NADDRS && fs.inodes[k].size <= MAXBYTES
    ensures |c| == fs.inodes[k].size
  {
    seq(fs.inodes[k].size, pos requires 0 <= pos < fs.inodes[k].size => ByteAt(fs, k, pos))
  }

  /** Every block below n bytes is there. */
  ghost predicate HoleFree(fs: Fs, k: nat, n: nat)
    requires k < |fs.inodes| && |fs.inodes[k].addrs| == NADDRS && n <= MAXBYTES
  {
    forall bn :: 0 <= bn < MAXFILE && bn * BSIZE < n ==> BlockAt(fs, k, bn) != 0
  }

  /** Growing an inode changes no byte of any file, and closes no block. */
  lemma ExtendsBytes(sb: Super, fs: Fs, fs': Fs, k: nat, slots: set<Slot>, k': nat, pos: nat)
    requires Extends(sb, fs, fs', k, slots) && k' < |fs.inodes| && pos < MAXBYTES
    ensures |fs.inodes[k'].addrs| == |fs'.inodes[k'].addrs| == NADDRS
    ensures ByteAt(fs', k', pos) == ByteAt(fs, k', pos)
  {
    hide At, IsSlot, Marks, HasChildren, SlotOf;
    var s := SlotOf(pos / BSIZE);
    GainsAt(sb, fs, fs', k, slots, k', s);
    var b, b' := BlockAt(fs, k', pos / BSIZE), BlockAt(fs', k', pos / BSIZE);
    if b != 0 {
      assert b in fs.owner && fs.owner[b] == Owner(k', s);
    } else if b' != 0 {
      assert b' in fs'.owner && fs'.owner[b'] == Owner(k', s);
    }
  }

  /** Bytes copied into a block at offset o. */
  function Splice(b: Block, o: nat, src: seq<Byte>): (r: Block)
    requires o + |src| <= BSIZE
    ensures forall i :: 0 <= i < BSIZE ==> r[i] == if o <= i < o + |src| then src[i - o] else b[i]
  {
    b[..o] + src + b[o + |src|..]
  }

  /** Content block bn of inode k with bytes o.. replaced. */
  function Stored(fs: Fs, k: nat, bn: nat, o: nat, src: seq<Byte>): Fs
    requires k < |fs.inodes| && |fs.inodes[k].addrs| == NADDRS && bn < MAXFILE && o + |src| <= BSIZE
    requires BlockAt(fs, k, bn) < |fs.blocks|
  {
    var b := BlockAt(fs, k, bn);
    fs.(blocks := fs.blocks[b := Splice(fs.blocks[b], o, src)])
  }

  /** Storing into a content block keeps the file system consistent. */
  lemma StoredOk(sb: Super, fs: Fs, k: nat, bn: nat, o: nat, src: seq<Byte>)
    requires FsOk(sb, fs) && k < |fs.inodes| && bn < MAXFILE && o + |src| <= BSIZE && BlockAt(fs, k, bn) != 0
    ensures BlockAt(fs, k, bn) in fs.owner && BlockAt(fs, k, bn) < |fs.blocks|
    ensures var fs' := Stored(fs, k, bn, o, src);
            && FsOk(sb, fs') && SameSlots(fs.blocks, fs.inodes, fs'.blocks, fs'.inodes)
            && Marks(sb, fs'.blocks) == Marks(sb, fs.blocks)
  {
    hide At, IsSlot, Marks, HasChildren, SlotOf, Splice;
    var s, b := SlotOf(bn), BlockAt(fs, k, bn);
    assert b in fs.owner && fs.owner[b] == Owner(k, s);
    var fs' := Stored(fs, k, bn, o, src);
    OwnedFrame(fs.blocks, fs'.blocks, fs.inodes, fs.owner);
    MarksFrame(sb, fs.blocks, fs'.blocks);
  }

  /** And it changes exactly those bytes, of that file alone. */
  lemma StoredBytes(sb: Super, fs: Fs, k: nat, bn: nat, o: nat, src: seq<Byte>, k': nat, pos: nat)
    requires FsOk(sb, fs) && k < |fs.inodes| && bn < MAXFILE && o + |src| <= BSIZE && BlockAt(fs, k, bn) != 0
    requires k' < |fs.inodes| && pos < MAXBYTES
    ensures |fs.inodes[k].addrs| == |fs.inodes[k'].addrs| == NADDRS && BlockAt(fs, k, bn) < |fs.blocks|
    ensures ByteAt(Stored(fs, k, bn, o, src), k', pos) ==
            if k' == k && bn * BSIZE + o <= pos < bn * BSIZE + o + |src| then src[pos - bn * BSIZE - o]
            else ByteAt(fs, k', pos)
  {
    hide At, IsSlot, Marks, HasChildren, SlotOf, Owned, Exact, Splice;
    StoredOk(sb, fs, k, bn, o, src);
    var fs' := Stored(fs, k, bn, o, src);
    var s, s' := SlotOf(bn), SlotOf(pos / BSIZE);
    assert At(fs'.blocks, fs'.inodes[k'], s') == At(fs.blocks, fs.inodes[k'], s');
    hide FsOk, SameSlots;
    assert pos == pos / BSIZE * BSIZE + pos % BSIZE;
    if BlockAt(fs, k', pos / BSIZE) == BlockAt(fs, k, bn) {
      BlockAtOnce(sb, fs, k, bn, k', pos / BSIZE);
    }
  }

  lemma BlockAtOnce(sb: Super, fs: Fs, k: nat, bn: nat, k': nat, bn': nat)
    requires FsOk(sb, fs) && k < |fs.inodes| && k' < |fs.inodes| && bn < MAXFILE && bn' < MAXFILE
    requires BlockAt(fs, k, bn) == BlockAt(fs, k', bn') != 0
    ensures k == k' && bn == bn'
  {
    hide At, IsSlot, Marks, Owned, Exact, SlotOf;
    OwnedOnce(fs.blocks, fs.inodes, fs.owner, k, SlotOf(bn), k', SlotOf(bn'));
    SlotOfInjective(bn, bn');
  }

  /** Writing an inode block disturbs neither index nor bitmap nor content. */
  lemma InodeWriteOk(sb: Super, fs: Fs, m: nat, data: Block)
    requires FsOk(sb, fs) && m < sb.ninodes / IPB + 3
    ensures m < |fs.blocks|
    ensures var fs' := fs.(blocks := fs.blocks[m := data]);
            && FsOk(sb, fs') && SameSlots(fs.blocks, fs.inodes, fs'.blocks, fs'.inodes)
            && Marks(sb, fs'.blocks) == Marks(sb, fs.blocks)
            && forall b :: b in fs.owner ==> fs'.blocks[b] == fs.blocks[b]
  {
    hide At, IsSlot, Marks, HasChildren, Owned, Exact;
    InRange(sb, fs);
    var blocks' := fs.blocks[m := data];
    OwnedFrame(fs.blocks, blocks', fs.inodes, fs.owner);
    MarksFrame(sb, fs.blocks, blocks');
  }

  /** Same slots and same content blocks: the same bytes. */
  lemma SameBytes(sb: Super, fs: Fs, fs': Fs, k: nat, pos: nat)
    requires FsOk(sb, fs) && k < |fs.inodes| && pos < MAXBYTES
    requires SameSlots(fs.blocks, fs.inodes, fs'.blocks, fs'.inodes)
    requires forall b :: b in fs.owner ==> b < |fs'.blocks| && fs'.blocks[b] == fs.blocks[b]
    ensures ByteAt(fs', k, pos) == ByteAt(fs, k, pos)
  {
    hide At, IsSlot, Marks, HasChildren, Exact, SlotOf;
    var s := SlotOf(pos / BSIZE);
    assert At(fs'.blocks, fs'.inodes[k], s) == At(fs.blocks, fs.inodes[k], s);
  }
}
