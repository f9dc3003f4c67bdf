/** Truncation: what itrunc frees, and when growing a file and truncating it restores the bitmap. */
module FsTrunc {
  import opened Blocks
  import opened Bitmap
  import opened FsIndex
  import opened FsState
  import opened FsLog
  import opened FsWrite
  import opened FsSpace

  /** The slots given up when root i <= NDIRECT is cleared: itself and, for the indirect block, its words. */
  predicate Under(i: nat, s: Slot) {
    s == Root(i) || (i == NDIRECT && s.Ind?)
  }

  /** The blocks of inode k in those slots. */
  ghost function BlocksUnder(fs: Fs, k: nat, i: nat): set<nat> {
    set b | b in fs.owner && fs.owner[b].k == k && Under(i, fs.owner[b].s)
  }

  /** Root i of inode k cleared, its blocks given up. */
  ghost function Dropped(fs: Fs, blocks': seq<Block>, k: nat, i: nat): Fs
    requires k < |fs.inodes| && |fs.inodes[k].addrs| == NADDRS && i < NADDRS
  {
    Fs(blocks', fs.inodes[k := fs.inodes[k].(addrs := fs.inodes[k].addrs[i := 0])], fs.owner - BlocksUnder(fs, k, i))
  }

  /** blocks' differs from fs.blocks in the bitmap only, where the blocks under root i are clear. */
  ghost predicate Freed(sb: Super, fs: Fs, blocks': seq<Block>, k: nat, i: nat) {
    && FsOk(sb, fs) && k < |fs.inodes| && i <= NDIRECT
    && |blocks'| == |fs.blocks|
    && (forall b :: MetaEnd(sb) <= b < |blocks'| ==> blocks'[b] == fs.blocks[b])
    && Marks(sb, blocks') == Marks(sb, fs.blocks) - BlocksUnder(fs, k, i)
  }

  lemma {:induction false} DroppedAt(sb: Super, fs: Fs, blocks': seq<Block>, k: nat, i: nat, k': nat, t: Slot)
    requires Freed(sb, fs, blocks', k, i) && k' < |fs.inodes| && IsSlot(t)
    ensures |fs.inodes[k].addrs| == NADDRS
    ensures |Dropped(fs, blocks', k, i).inodes[k'].addrs| == |fs.inodes[k'].addrs| == NADDRS
    ensures At(blocks', Dropped(fs, blocks', k, i).inodes[k'], t) ==
            if k' == k && Under(i, t) then 0 else At(fs.blocks, fs.inodes[k'], t)
    decreases Depth(t)
  {
    hide Marks, Exact;
    Sized(sb, fs, k);
    Sized(sb, fs, k');
    if !t.Root? {
      DroppedAt(sb, fs, blocks', k, i, k', Parent(t));
      if At(fs.blocks, fs.inodes[k'], Parent(t)) != 0 { SlotInRange(sb, fs, k', Parent(t)); }
    }
  }

  /** Slots under the root are empty in fs', the others as in fs. */
  ghost predicate Cleared(fs: Fs, fs': Fs, k: nat, i: nat) {
    && |fs'.inodes| == |fs.inodes|
    && (forall k' :: 0 <= k' < |fs.inodes| ==> |fs'.inodes[k'].addrs| == |fs.inodes[k'].addrs| == NADDRS)
    && forall k', t :: 0 <= k' < |fs.inodes| && IsSlot(t) ==>
         At(fs'.blocks, fs'.inodes[k'], t) == if k' == k && Under(i, t) then 0 else At(fs.blocks, fs.inodes[k'], t)
  }

  lemma ClearedOwned(fs: Fs, fs': Fs, k: nat, i: nat)
    requires Owned(fs.blocks, fs.inodes, fs.owner) && Cleared(fs, fs', k, i) && |fs.blocks| == |fs'.blocks|
    requires fs'.owner == fs.owner - BlocksUnder(fs, k, i)
    ensures Owned(fs'.blocks, fs'.inodes, fs'.owner)
  {
    hide At, IsSlot, Under;
    forall k', t | 0 <= k' < |fs.inodes| && IsSlot(t) && At(fs'.blocks, fs'.inodes[k'], t) != 0
      ensures At(fs'.blocks, fs'.inodes[k'], t) in fs'.owner
              && fs'.owner[At(fs'.blocks, fs'.inodes[k'], t)] == Owner(k', t)
    {
      var b := At(fs.blocks, fs.inodes[k'], t);
      assert At(fs'.blocks, fs'.inodes[k'], t) == b;
      assert b in fs.owner && fs.owner[b] == Owner(k', t);
    }
  }

  lemma ClearedExact(fs: Fs, fs': Fs, k: nat, i: nat)
    requires Exact(fs.blocks, fs.inodes, fs.owner) && Cleared(fs, fs', k, i)
    requires fs'.owner == fs.owner - BlocksUnder(fs, k, i)
    ensures Exact(fs'.blocks, fs'.inodes, fs'.owner)
  {
    hide At, IsSlot, Under;
    forall b | b in fs'.owner
      ensures fs'.owner[b].k < |fs'.inodes| && IsSlot(fs'.owner[b].s) && |fs'.inodes[fs'.owner[b].k].addrs| == NADDRS
      ensures At(fs'.blocks, fs'.inodes[fs'.owner[b].k], fs'.owner[b].s) == b
    {
      assert b in fs.owner && fs'.owner[b] == fs.owner[b];
    }
  }

  lemma DroppedOk(sb: Super, fs: Fs, blocks': seq<Block>, k: nat, i: nat)
    requires Freed(sb, fs, blocks', k, i)
    ensures |fs.inodes[k].addrs| == NADDRS
    ensures FsOk(sb, Dropped(fs, blocks', k, i)) && Cleared(fs, Dropped(fs, blocks', k, i), k, i)
  {
    hide Marks, At, IsSlot, Under, Owned, Exact;
    Sized(sb, fs, k);
    var fs' := Dropped(fs, blocks', k, i);
    forall k' | 0 <= k' < |fs.inodes|
      ensures |fs'.inodes[k'].addrs| == |fs.inodes[k'].addrs| == NADDRS { Sized(sb, fs, k'); }
    forall k', t | 0 <= k' < |fs.inodes| && IsSlot(t)
      ensures At(blocks', fs'.inodes[k'], t) == if k' == k && Under(i, t) then 0 else At(fs.blocks, fs.inodes[k'], t)
    {
      DroppedAt(sb, fs, blocks', k, i, k', t);
    }
    MetaNotOwned(sb, fs, k, i);
    ClearedOwned(fs, fs', k, i);
    ClearedExact(fs, fs', k, i);
  }

  lemma MetaNotOwned(sb: Super, fs: Fs, k: nat, i: nat)
    requires FsOk(sb, fs)
    ensures forall m :: 0 <= m < MetaEnd(sb) ==> m !in BlocksUnder(fs, k, i)
  {
    hide At, Owned, Exact, Marks;
  }

  // -------- Which blocks are under a root --------

  /** The nonzero ones among the first j words of the indirect block. */
  ghost function IndBlocks(fs: Fs, k: nat, j: nat): set<nat>
    requires k < |fs.inodes| && |fs.inodes[k].addrs| == NADDRS && j <= NINDIRECT
  {
    set x | 0 <= x < j && At(fs.blocks, fs.inodes[k], Ind(x)) != 0 :: At(fs.blocks, fs.inodes[k], Ind(x))
  }

  lemma UnderDirect(sb: Super, fs: Fs, k: nat, i: nat)
    requires FsOk(sb, fs) && k < |fs.inodes| && i < NDIRECT
    ensures |fs.inodes[k].addrs| == NADDRS
    ensures BlocksUnder(fs, k, i) == if fs.inodes[k].addrs[i] == 0 then {} else {fs.inodes[k].addrs[i]}
  {
    Sized(sb, fs, k);
    assert At(fs.blocks, fs.inodes[k], Root(i)) == fs.inodes[k].addrs[i];
    hide At, IsSlot, Marks;
    assert IsSlot(Root(i)) by { IsRoot(i); }
    forall b | b in BlocksUnder(fs, k, i) ensures b == fs.inodes[k].addrs[i] && b != 0 {
      assert fs.owner[b].s == Root(i);
    }
  }

  lemma IsRoot(i: nat)
    requires i < NADDRS
    ensures IsSlot(Root(i))
  {
  }

  lemma UnderIndirect(sb: Super, fs: Fs, k: nat)
    requires FsOk(sb, fs) && k < |fs.inodes|
    ensures |fs.inodes[k].addrs| == NADDRS
    ensures fs.inodes[k].addrs[NDIRECT] == 0 ==> BlocksUnder(fs, k, NDIRECT) == {}
    ensures fs.inodes[k].addrs[NDIRECT] != 0 ==>
              BlocksUnder(fs, k, NDIRECT) == IndBlocks(fs, k, NINDIRECT) + {fs.inodes[k].addrs[NDIRECT]}
  {
    hide At, Marks, Owned, Exact, IsSlot, Under, BlocksUnder, IndBlocks;
    Sized(sb, fs, k);
    var r, inds := fs.inodes[k].addrs[NDIRECT], IndBlocks(fs, k, NINDIRECT);
    forall b | b in BlocksUnder(fs, k, NDIRECT) ensures r != 0 && (b == r || b in inds) { UnderIsInd(fs, k, b); }
    forall b | b in inds || (b == r && r != 0) ensures b in BlocksUnder(fs, k, NDIRECT) { IndIsUnder(fs, k, b); }
  }

  lemma UnderIsInd(fs: Fs, k: nat, b: nat)
    requires Owned(fs.blocks, fs.inodes, fs.owner) && Exact(fs.blocks, fs.inodes, fs.owner)
    requires k < |fs.inodes| && |fs.inodes[k].addrs| == NADDRS && b in BlocksUnder(fs, k, NDIRECT)
    ensures fs.inodes[k].addrs[NDIRECT] != 0
    ensures b == fs.inodes[k].addrs[NDIRECT] || b in IndBlocks(fs, k, NINDIRECT)
  {
    hide Word;
    var s := fs.owner[b].s;
    assert At(fs.blocks, fs.inodes[k], s) == b != 0;
    if s.Ind? { assert s.j < NINDIRECT && b == At(fs.blocks, fs.inodes[k], Ind(s.j)); }
  }

  lemma IndIsUnder(fs: Fs, k: nat, b: nat)
    requires Owned(fs.blocks, fs.inodes, fs.owner)
    requires k < |fs.inodes| && |fs.inodes[k].addrs| == NADDRS
    requires b in IndBlocks(fs, k, NINDIRECT) || (b == fs.inodes[k].addrs[NDIRECT] && b != 0)
    ensures b in BlocksUnder(fs, k, NDIRECT)
  {
    IsRoot(NDIRECT);
    assert At(fs.blocks, fs.inodes[k], Root(NDIRECT)) == fs.inodes[k].addrs[NDIRECT];
    hide At;
    if b in IndBlocks(fs, k, NINDIRECT) {
      var j :| 0 <= j < NINDIRECT && At(fs.blocks, fs.inodes[k], Ind(j)) != 0
        && b == At(fs.blocks, fs.inodes[k], Ind(j));
      assert IsSlot(Ind(j));
      assert b in fs.owner && fs.owner[b] == Owner(k, Ind(j));
    } else {
      assert fs.owner[b] == Owner(k, Root(NDIRECT));
    }
  }

  // -------- itrunc, root by root --------

  /** The blocks of inode k reached through its first n roots. */
  predicate UnderFirst(n: nat, s: Slot) {
    (s.Root? && s.i < n) || (n > NDIRECT && s.Ind?)
  }

  ghost function Gone(fs: Fs, k: nat, n: nat): set<nat> {
    set b | b in fs.owner && fs.owner[b].k == k && UnderFirst(n, fs.owner[b].s)
  }

  /** fs0 with the first n roots of inode k cleared and their blocks, and no others, freed. */
  ghost predicate Truncating(sb: Super, fs0: Fs, fs: Fs, k: nat, n: nat) {
    && FsOk(sb, fs0) && FsOk(sb, fs) && k < |fs0.inodes| == |fs.inodes| && n <= NDIRECT + 1
    && |fs.inodes[k].addrs| == |fs0.inodes[k].addrs| == NADDRS
    && fs.inodes == fs0.inodes[k := fs0.inodes[k].(addrs := fs.inodes[k].addrs)]
    && (forall i :: 0 <= i < NADDRS ==> fs.inodes[k].addrs[i] == if i < n then 0 else fs0.inodes[k].addrs[i])
    && fs.owner == fs0.owner - Gone(fs0, k, n)
    && Marks(sb, fs.blocks) == Marks(sb, fs0.blocks) - Gone(fs0, k, n)
    && |fs.blocks| == |fs0.blocks| && forall b :: MetaEnd(sb) <= b < |fs.blocks| ==> fs.blocks[b] == fs0.blocks[b]
  }

  lemma TruncStart(sb: Super, fs: Fs, k: nat)
    requires FsOk(sb, fs) && k < |fs.inodes|
    ensures Truncating(sb, fs, fs, k, 0)
  {
    hide At, Marks;
    Sized(sb, fs, k);
    assert Gone(fs, k, 0) == {};
  }

  lemma TruncStep(sb: Super, fs0: Fs, fs: Fs, blocks': seq<Block>, k: nat, n: nat)
    requires Truncating(sb, fs0, fs, k, n) && n <= NDIRECT && Freed(sb, fs, blocks', k, n)
    ensures Truncating(sb, fs0, Dropped(fs, blocks', k, n), k, n + 1)
  {
    hide At, Marks, FsOk, Cleared, UnderFirst, Under;
    DroppedOk(sb, fs, blocks', k, n);
    GoneStep(fs0, fs, k, n);
  }

  lemma GoneStep(fs0: Fs, fs: Fs, k: nat, n: nat)
    requires n <= NDIRECT && fs.owner == fs0.owner - Gone(fs0, k, n)
    ensures Gone(fs0, k, n + 1) == Gone(fs0, k, n) + BlocksUnder(fs, k, n)
  {
  }

  /** A root that is zero has nothing to give up. */
  lemma TruncSkip(sb: Super, fs0: Fs, fs: Fs, k: nat, n: nat)
    requires Truncating(sb, fs0, fs, k, n) && n <= NDIRECT && fs.inodes[k].addrs[n] == 0
    ensures Truncating(sb, fs0, fs, k, n + 1)
  {
    hide At, Marks, FsOk, UnderFirst;
    if n < NDIRECT { UnderDirect(sb, fs, k, n); } else { UnderIndirect(sb, fs, k); }
    TruncStep(sb, fs0, fs, fs.blocks, k, n);
    assert fs.inodes[k].addrs[n := 0] == fs.inodes[k].addrs;
    assert fs.owner - {} == fs.owner;
    assert Dropped(fs, fs.blocks, k, n) == fs;
  }

  // -------- The finished truncation --------

  /** What itrunc leaves: inode k with size 0 and only its doubly indirect slot as it was; exactly
      the blocks reached through the other slots are free; every other file is untouched. */
  ghost predicate Truncated(sb: Super, fs0: Fs, fs: Fs, k: nat) {
    && FsOk(sb, fs0) && FsOk(sb, fs) && k < |fs0.inodes| == |fs.inodes|
    && |fs0.inodes[k].addrs| == |fs.inodes[k].addrs| == NADDRS
    && fs.inodes == fs0.inodes[k := fs0.inodes[k].(size := 0, addrs := fs.inodes[k].addrs)]
    && (forall i :: 0 <= i < NADDRS ==> fs.inodes[k].addrs[i] == if i < NDIRECT + 1 then 0 else fs0.inodes[k].addrs[i])
    && fs.owner == fs0.owner - Gone(fs0, k, NDIRECT + 1)
    && Marks(sb, fs.blocks) == Marks(sb, fs0.blocks) - Gone(fs0, k, NDIRECT + 1)
    && (forall i :: 0 <= i < |fs.inodes| && i != k ==>
          |fs0.inodes[i].addrs| == NADDRS && fs0.inodes[i].size <= MAXBYTES && Content(fs, i) == Content(fs0, i))
  }

  /** fs' is fs with size 0 for inode k and its inode block written. */
  lemma TruncDone(sb: Super, fs0: Fs, fs: Fs, fs': Fs, k: nat)
    requires Truncating(sb, fs0, fs, k, NDIRECT + 1) && Resized(sb, fs, fs', k, 0)
    requires forall b :: MetaEnd(sb) <= b < |fs.blocks| ==> fs'.blocks[b] == fs.blocks[b]
    ensures Truncated(sb, fs0, fs', k)
  {
    hide At, Marks, FsOk, Content, SameSlots;
    forall i | 0 <= i < |fs'.inodes| && i != k
      ensures |fs0.inodes[i].addrs| == NADDRS && fs0.inodes[i].size <= MAXBYTES && Content(fs', i) == Content(fs0, i)
    {
      OtherContent(sb, fs0, fs', i);
    }
  }

  /** A file whose inode and blocks past the bitmap are the same has the same content. */
  lemma OtherContent(sb: Super, fs0: Fs, fs: Fs, i: nat)
    requires FsOk(sb, fs0) && i < |fs0.inodes| && i < |fs.inodes| && fs.inodes[i] == fs0.inodes[i]
    requires |fs.blocks| == |fs0.blocks| && forall b :: MetaEnd(sb) <= b < |fs0.blocks| ==>
               fs.blocks[b] == fs0.blocks[b]
    ensures |fs0.inodes[i].addrs| == NADDRS && fs0.inodes[i].size <= MAXBYTES && Content(fs, i) == Content(fs0, i)
  {
    hide At, Marks, Exact, SlotOf, IsSlot, HasChildren;
    Sized(sb, fs0, i);
    forall t | IsSlot(t) && HasChildren(t) && 0 < At(fs0.blocks, fs0.inodes[i], t) < |fs0.blocks|
      ensures fs.blocks[At(fs0.blocks, fs0.inodes[i], t)] == fs0.blocks[At(fs0.blocks, fs0.inodes[i], t)]
    {
      SlotInRange(sb, fs0, i, t);
    }
    forall pos | 0 <= pos < fs0.inodes[i].size ensures ByteAt(fs, i, pos) == ByteAt(fs0, i, pos) {
      var s := SlotOf(pos / BSIZE);
      AtFrame(fs0.blocks, fs.blocks, fs0.inodes[i], s);
      if At(fs0.blocks, fs0.inodes[i], s) != 0 { SlotInRange(sb, fs0, i, s); }
    }
    assert Content(fs, i) == Content(fs0, i);
  }

  /** The slots on the way to the blocks of a file of that size. */
  function Needed(size: nat): set<Slot>
    requires size <= MAXBYTES
  {
    Paths(0, LastBlock(0, size))
  }

  /** Any sequence of writes to file k grows it, by blocks its new size needs. */
  lemma {:induction false} WritesGrow(sb: Super, fss: seq<Fs>, offs: seq<nat>, srcs: seq<seq<Byte>>, k: nat, n: nat)
    requires |fss| == |offs| + 1 == |srcs| + 1 && n < |fss| && FsOk(sb, fss[0]) && k < |fss[0].inodes|
    requires forall i :: 0 <= i < |offs| ==> Wrote(sb, fss[i], fss[i + 1], k, offs[i], srcs[i])
    ensures k < |fss[n].inodes| && fss[n].inodes[k].size <= MAXBYTES
    ensures Grows(sb, fss[0], fss[n], k, Needed(fss[n].inodes[k].size))
  {
    hide FsOk, Wrote, Grows, Needed;
    if n == 0 {
      Sized(sb, fss[0], k);
      GrowsSelf(sb, fss[0], k, Needed(fss[0].inodes[k].size));
    } else {
      WritesGrow(sb, fss, offs, srcs, k, n - 1);
      assert Wrote(sb, fss[n - 1], fss[n - 1 + 1], k, offs[n - 1], srcs[n - 1]);
      WroteNeeded(sb, fss[n - 1], fss[n], k, offs[n - 1], srcs[n - 1]);
      var a, b := Needed(fss[n - 1].inodes[k].size), Paths(offs[n - 1] / BSIZE, LastBlock(offs[n - 1], |srcs[n - 1]|));
      GrowsTwice(sb, fss[0], fss[n - 1], fss[n], k, a, b, Needed(fss[n].inodes[k].size));
    }
  }

  lemma WroteNeeded(sb: Super, fs: Fs, fs': Fs, k: nat, off: nat, src: seq<Byte>)
    requires Wrote(sb, fs, fs', k, off, src)
    ensures k < |fs.inodes| == |fs'.inodes| && fs.inodes[k].size <= MAXBYTES && fs'.inodes[k].size <= MAXBYTES
    ensures off + |src| <= MAXBYTES && Grows(sb, fs, fs', k, Paths(off / BSIZE, LastBlock(off, |src|)))
    ensures Needed(fs.inodes[k].size) <= Needed(fs'.inodes[k].size)
    ensures Paths(off / BSIZE, LastBlock(off, |src|)) <= Needed(fs'.inodes[k].size)
  {
    hide FsOk, Grows, Content, HoleFree, Overwrite, Paths;
    var size, size' := fs.inodes[k].size, fs'.inodes[k].size;
    PathsMore(0, LastBlock(0, size), LastBlock(0, size'));
    if |src| > 0 {
      PathsMore(0, LastBlock(off, |src|), LastBlock(0, size'));
      PathsWider(off / BSIZE, 0, LastBlock(off, |src|));
    } else {
      PathsNone(off / BSIZE);
    }
  }

  /** Growing an empty file and truncating it restores the bitmap exactly when the file has no doubly
      indirect block; otherwise blocks are lost. */
  lemma TruncRestores(sb: Super, fs0: Fs, fs1: Fs, fs2: Fs, k: nat, slots: set<Slot>)
    requires Grows(sb, fs0, fs1, k, slots) && Truncated(sb, fs1, fs2, k)
    requires forall b :: b in fs0.owner ==> fs0.owner[b].k != k
    ensures Marks(sb, fs2.blocks) == Marks(sb, fs0.blocks) <==> fs1.inodes[k].addrs[NDIRECT + 1] == 0
  {
    hide At, Marks, FsOk, Content, IsSlot, Truncated, UnderFirst;
    TruncatedMarks(sb, fs1, fs2, k);
    DblRoot(sb, fs1, k);
    InRange(sb, fs0);
    var r := fs1.inodes[k].addrs[NDIRECT + 1];
    if r != 0 {
      NotGone(fs1, k, r);
      assert r in fs1.owner.Keys - fs0.owner.Keys;
      assert r in Marks(sb, fs2.blocks) && r !in Marks(sb, fs0.blocks);
    } else {
      assert Gone(fs1, k, NDIRECT + 1) == fs1.owner.Keys - fs0.owner.Keys;
    }
  }

  /** A file written from empty has a doubly indirect block exactly when it is longer than the direct and
      indirect slots reach. */
  lemma DoublyIndirect(sb: Super, fs0: Fs, fs: Fs, k: nat)
    requires k < |fs.inodes| && fs.inodes[k].size <= MAXBYTES && |fs.inodes[k].addrs| == NADDRS
    requires Grows(sb, fs0, fs, k, Needed(fs.inodes[k].size)) && HoleFree(fs, k, fs.inodes[k].size)
    requires forall b :: b in fs0.owner ==> fs0.owner[b].k != k
    ensures fs.inodes[k].addrs[NDIRECT + 1] != 0 <==> fs.inodes[k].size > (NDIRECT + NINDIRECT) * BSIZE
  {
    var r, size := fs.inodes[k].addrs[NDIRECT + 1], fs.inodes[k].size;
    if r != 0 {
      DblRoot(sb, fs, k);
      assert fs.owner[r].s in Needed(size) by { hide FsOk, Marks, Needed; }
      if size <= (NDIRECT + NINDIRECT) * BSIZE { NoDoublyPath(LastBlock(0, size)); }
    } else if size > (NDIRECT + NINDIRECT) * BSIZE {
      assert BlockAt(fs, k, NDIRECT + NINDIRECT) != 0;
      assert SlotOf(NDIRECT + NINDIRECT) == Dbl(0, 0);
      DblEmpty(fs, k, Dbl(0, 0));
    }
  }

  lemma {:induction false} NoDoublyPath(hi: nat)
    requires hi <= NDIRECT + NINDIRECT
    ensures Root(NDIRECT + 1) !in Paths(0, hi)
  {
    if hi > 0 { NoDoublyPath(hi - 1); }
  }

  /** So a file written from empty and truncated gives all its blocks back exactly up to that size. */
  lemma TruncRestoresUpTo(sb: Super, fs0: Fs, fs1: Fs, fs2: Fs, k: nat)
    requires k < |fs1.inodes| && fs1.inodes[k].size <= MAXBYTES && |fs1.inodes[k].addrs| == NADDRS
    requires Grows(sb, fs0, fs1, k, Needed(fs1.inodes[k].size)) && HoleFree(fs1, k, fs1.inodes[k].size)
    requires (forall b :: b in fs0.owner ==> fs0.owner[b].k != k) && Truncated(sb, fs1, fs2, k)
    ensures Marks(sb, fs2.blocks) == Marks(sb, fs0.blocks) <==> fs1.inodes[k].size <= (NDIRECT + NINDIRECT) * BSIZE
  {
    hide Grows, Truncated, Needed, Marks, HoleFree;
    TruncRestores(sb, fs0, fs1, fs2, k, Needed(fs1.inodes[k].size));
    DoublyIndirect(sb, fs0, fs1, k);
  }

  lemma TruncatedMarks(sb: Super, fs1: Fs, fs2: Fs, k: nat)
    requires Truncated(sb, fs1, fs2, k)
    ensures FsOk(sb, fs1) && k < |fs1.inodes|
    ensures Marks(sb, fs2.blocks) == Marks(sb, fs1.blocks) - Gone(fs1, k, NDIRECT + 1)
  {
  }

  lemma NotGone(fs: Fs, k: nat, r: nat)
    requires r in fs.owner && fs.owner[r] == Owner(k, Root(NDIRECT + 1))
    ensures r !in Gone(fs, k, NDIRECT + 1)
  {
  }

  /** With no doubly indirect root, every block of the inode is under the other roots. */
  lemma DblRoot(sb: Super, fs: Fs, k: nat)
    requires FsOk(sb, fs) && k < |fs.inodes|
    ensures |fs.inodes[k].addrs| == NADDRS
    ensures fs.inodes[k].addrs[NDIRECT + 1] != 0 ==>
              var r := fs.inodes[k].addrs[NDIRECT + 1]; r in fs.owner && fs.owner[r] == Owner(k, Root(NDIRECT + 1))
    ensures fs.inodes[k].addrs[NDIRECT + 1] == 0 ==>
              forall b :: b in fs.owner && fs.owner[b].k == k ==> UnderFirst(NDIRECT + 1, fs.owner[b].s)
  {
    Sized(sb, fs, k);
    IsRoot(NDIRECT + 1);
    assert At(fs.blocks, fs.inodes[k], Root(NDIRECT + 1)) == fs.inodes[k].addrs[NDIRECT + 1];
    if fs.inodes[k].addrs[NDIRECT + 1] == 0 {
      forall b | b in fs.owner && fs.owner[b].k == k ensures UnderFirst(NDIRECT + 1, fs.owner[b].s) {
        DblEmpty(fs, k, fs.owner[b].s);
        hide At, Marks;
        InRange(sb, fs);
      }
    }
  }

  lemma {:induction false} DblEmpty(fs: Fs, k: nat, s: Slot)
    requires k < |fs.inodes| && |fs.inodes[k].addrs| == NADDRS && IsSlot(s) && fs.inodes[k].addrs[NDIRECT + 1] == 0
    ensures !UnderFirst(NDIRECT + 1, s) ==> At(fs.blocks, fs.inodes[k], s) == 0
    decreases Depth(s)
  {
    hide Word;
    if s.Dbl? { DblEmpty(fs, k, Parent(s)); }
  }

  // -------- The loop over the indirect block --------

  /** blocks differs from fs.blocks in the bitmap only, where the first j indirect blocks are clear. */
  ghost predicate FreeingInd(sb: Super, fs: Fs, blocks: seq<Block>, k: nat, j: nat) {
    && FsOk(sb, fs) && k < |fs.inodes| && |fs.inodes[k].addrs| == NADDRS && j <= NINDIRECT
    && |blocks| == |fs.blocks|
    && (forall b :: MetaEnd(sb) <= b < |blocks| ==> blocks[b] == fs.blocks[b])
    && Marks(sb, blocks) == Marks(sb, fs.blocks) - IndBlocks(fs, k, j)
  }

  lemma FreeingStart(sb: Super, fs: Fs, k: nat)
    requires FsOk(sb, fs) && k < |fs.inodes|
    ensures FreeingInd(sb, fs, fs.blocks, k, 0)
  {
    hide Marks, At, Owned, Exact;
    Sized(sb, fs, k);
    assert IndBlocks(fs, k, 0) == {};
  }

  lemma IndNext(fs: Fs, k: nat, j: nat)
    requires k < |fs.inodes| && |fs.inodes[k].addrs| == NADDRS && j < NINDIRECT
    ensures var b := At(fs.blocks, fs.inodes[k], Ind(j));
            IndBlocks(fs, k, j + 1) == if b == 0 then IndBlocks(fs, k, j) else IndBlocks(fs, k, j) + {b}
  {
    hide At;
    var b, a, c := At(fs.blocks, fs.inodes[k], Ind(j)), IndBlocks(fs, k, j), IndBlocks(fs, k, j + 1);
    forall x | x in c ensures x in a || (b != 0 && x == b) {
      var i :| 0 <= i < j + 1 && At(fs.blocks, fs.inodes[k], Ind(i)) != 0 && x == At(fs.blocks, fs.inodes[k], Ind(i));
      if i < j { assert x in a; }
    }
    if b != 0 { assert b in c; }
  }

  /** Block j is still marked when its turn comes: no two words of the index name the same block. */
  lemma FreeingNext(sb: Super, fs: Fs, blocks: seq<Block>, k: nat, j: nat, b: nat)
    requires FreeingInd(sb, fs, blocks, k, j) && j < NINDIRECT && b == At(fs.blocks, fs.inodes[k], Ind(j)) != 0
    ensures MetaEnd(sb) <= b < |blocks| == sb.size && b in Marks(sb, blocks)
    ensures BBlock(sb, b) < |blocks| && FreeingInd(sb, fs, PutMark(sb, blocks, b, false), k, j + 1)
  {
    hide Marks, At, Owned, Exact, Put;
    IsInd(j);
    SlotInRange(sb, fs, k, Ind(j));
    IndDistinct(sb, fs, k, j);
    IndNext(fs, k, j);
    BBlockMeta(sb, b);
    PutMarkMarks(sb, blocks, b, false);
  }

  lemma IsInd(j: nat)
    requires j < NINDIRECT
    ensures IsSlot(Ind(j))
  {
  }

  lemma IndDistinct(sb: Super, fs: Fs, k: nat, j: nat)
    requires FsOk(sb, fs) && k < |fs.inodes| && |fs.inodes[k].addrs| == NADDRS && j < NINDIRECT
    requires At(fs.blocks, fs.inodes[k], Ind(j)) != 0
    ensures At(fs.blocks, fs.inodes[k], Ind(j)) !in IndBlocks(fs, k, j)
  {
    hide Marks, At;
    forall i | 0 <= i < j && At(fs.blocks, fs.inodes[k], Ind(i)) != 0
      ensures At(fs.blocks, fs.inodes[k], Ind(i)) != At(fs.blocks, fs.inodes[k], Ind(j))
    {
      if At(fs.blocks, fs.inodes[k], Ind(i)) == At(fs.blocks, fs.inodes[k], Ind(j)) {
        OwnedOnce(fs.blocks, fs.inodes, fs.owner, k, Ind(i), k, Ind(j));
      }
    }
  }

  lemma FreeingSkip(sb: Super, fs: Fs, blocks: seq<Block>, k: nat, j: nat)
    requires FreeingInd(sb, fs, blocks, k, j) && j < NINDIRECT && At(fs.blocks, fs.inodes[k], Ind(j)) == 0
    ensures FreeingInd(sb, fs, blocks, k, j + 1)
  {
    hide Marks, At, FsOk;
    IndNext(fs, k, j);
  }

  /** Last comes the indirect block itself. */
  lemma FreeingDone(sb: Super, fs: Fs, blocks: seq<Block>, k: nat, r: nat)
    requires FreeingInd(sb, fs, blocks, k, NINDIRECT) && r == fs.inodes[k].addrs[NDIRECT] != 0
    ensures MetaEnd(sb) <= r < |blocks| == sb.size && r in Marks(sb, blocks)
    ensures BBlock(sb, r) < |blocks| && Freed(sb, fs, PutMark(sb, blocks, r, false), k, NDIRECT)
  {
    assert At(fs.blocks, fs.inodes[k], Root(NDIRECT)) == r;
    hide Marks, At, Put, IndBlocks;
    IsRoot(NDIRECT);
    SlotInRange(sb, fs, k, Root(NDIRECT));
    RootNotInd(sb, fs, k);
    UnderIndirect(sb, fs, k);
    BBlockMeta(sb, r);
    hide FsOk;
    PutMarkMarks(sb, blocks, r, false);
  }

  lemma RootNotInd(sb: Super, fs: Fs, k: nat)
    requires FsOk(sb, fs) && k < |fs.inodes| && |fs.inodes[k].addrs| == NADDRS && fs.inodes[k].addrs[NDIRECT] != 0
    ensures fs.inodes[k].addrs[NDIRECT] !in IndBlocks(fs, k, NINDIRECT)
  {
    assert At(fs.blocks, fs.inodes[k], Root(NDIRECT)) == fs.inodes[k].addrs[NDIRECT];
    hide Marks, At;
    IsRoot(NDIRECT);
    forall i | 0 <= i < NINDIRECT && At(fs.blocks, fs.inodes[k], Ind(i)) == fs.inodes[k].addrs[NDIRECT] ensures false {
      OwnedOnce(fs.blocks, fs.inodes, fs.owner, k, Ind(i), k, Root(NDIRECT));
    }
  }

  lemma FreeDirect(sb: Super, fs: Fs, k: nat, i: nat)
    requires FsOk(sb, fs) && k < |fs.inodes| && i < NDIRECT && |fs.inodes[k].addrs| == NADDRS
             && fs.inodes[k].addrs[i] != 0
    ensures var b := fs.inodes[k].addrs[i];
            && MetaEnd(sb) <= b < |fs.blocks| == sb.size && b in Marks(sb, fs.blocks)
            && BBlock(sb, b) < |fs.blocks| && Freed(sb, fs, PutMark(sb, fs.blocks, b, false), k, i)
  {
    var b := fs.inodes[k].addrs[i];
    assert At(fs.blocks, fs.inodes[k], Root(i)) == b;
    hide Marks, At, Put;
    IsRoot(i);
    SlotInRange(sb, fs, k, Root(i));
    UnderDirect(sb, fs, k, i);
    BBlockMeta(sb, b);
    PutMarkMarks(sb, fs.blocks, b, false);
  }

  lemma TruncatingOk(sb: Super, fs0: Fs, fs: Fs, k: nat, n: nat)
    requires Truncating(sb, fs0, fs, k, n)
    ensures FsOk(sb, fs) && k < |fs.inodes|
  {
  }
}
