/** Inodes in memory against inodes on disk, across a writei. */
module FsSync {
  import opened Blocks
  import opened FsIndex
  import opened FsState
  import opened FsLog
  import opened FsWrite
  import opened FsSpace
  import opened Dinode
  import LogSpec

  /** The on-disk copy of inode i agrees with memory: ilock would read it back, into an entry whose
      last slot is this inode's own. */
  ghost predicate Synced(blocks: seq<Block>, ip: Inode, i: nat) {
    && |ip.addrs| == NADDRS && IBlock(i) < |blocks|
    && GetDinode(blocks[IBlock(i)], i % IPB, ip.addrs[NDIRECT + 1]) == ip
  }

  ghost predicate AllSynced(fs: Fs) {
    forall i :: 0 <= i < |fs.inodes| ==> Synced(fs.blocks, fs.inodes[i], i)
  }

  /** The loop of writei leaves the inode sectors alone. */
  lemma LoopSectors(sb: Super, fs0: Fs, fs: Fs, k: nat, slots: set<Slot>, xs: seq<nat>, us: seq<LogSpec.Update>, m: nat)
    requires FsOk(sb, fs0) && FsOk(sb, fs) && k < |fs.inodes| && |fs.inodes[k].addrs| == NADDRS
    requires Footprint(sb, fs0, fs, k, slots, xs)
    requires Traced(fs0.blocks, us, xs, fs.blocks) && m < sb.ninodes / IPB + 3
    ensures m < |fs0.blocks| == |fs.blocks| && fs.blocks[m] == fs0.blocks[m]
  {
    FsSizes(sb, fs0);
    if m in xs {
      var i :| 0 <= i < |xs| && xs[i] == m;
      hide FsOk, InFootprint;
      FootprintRange(sb, fs0, fs, k, slots, xs[i]);
    }
    hide FsOk, Footprint, Traced;
    TracedUntouched(fs0.blocks, us, xs, fs.blocks, m);
  }

  /** A write inside a file without holes allocates nothing. */
  lemma NoGrowth(sb: Super, fs0: Fs, fs: Fs, k: nat, off: nat, src: seq<Byte>)
    requires off + |src| <= MAXBYTES && Writing(sb, fs0, fs, k, off, src, |src|, LastBlock(off, |src|))
    requires AllHoleFree(fs0) && NewSize(fs0.inodes[k].size, off, |src|) == fs0.inodes[k].size
    ensures fs.inodes == fs0.inodes
  {
    hide FsOk, At, Marks, Overwritten, Grows, SlotOf;
    WritingOk(sb, fs0, fs, k, off, src, |src|, LastBlock(off, |src|));
    RangeThere(fs0, k, off, |src|);
    SameAddrs(sb, fs0, fs, k, Paths(off / BSIZE, LastBlock(off, |src|)));
  }

  lemma SameAddrs(sb: Super, fs0: Fs, fs: Fs, k: nat, slots: set<Slot>)
    requires Gains(sb, fs0, fs, k, slots) && |fs0.inodes[k].addrs| == |fs.inodes[k].addrs| == NADDRS
    requires EmptySlots(fs0, k, slots) == {}
    ensures fs.inodes == fs0.inodes
  {
    forall i | 0 <= i < NADDRS ensures fs.inodes[k].addrs[i] == fs0.inodes[k].addrs[i] {
      hide FsOk, At, Marks, Grows;
      RootAt(fs, k, i);
      RootAt(fs0, k, i);
      if Root(i) in slots { assert Root(i) !in EmptySlots(fs0, k, slots); }
      GainsAt(sb, fs0, fs, k, slots, k, Root(i));
    }
    hide FsOk, At, Marks, Grows;
    assert fs.inodes[k].addrs == fs0.inodes[k].addrs;
  }

  lemma RangeThere(fs: Fs, k: nat, off: nat, n: nat)
    requires k < |fs.inodes| && AllHoleFree(fs) && off + n <= MAXBYTES && (n > 0 ==> off + n <= fs.inodes[k].size)
    ensures EmptySlots(fs, k, Paths(off / BSIZE, LastBlock(off, n))) == {}
  {
    hide At, SlotOf, Paths;
    assert HoleFree(fs, k, fs.inodes[k].size);
    PathsFilled(fs, k, off / BSIZE, LastBlock(off, n));
  }

  /** Writing inode k back, and no other change to inodes. */
  lemma PutSynced(fs0: Fs, fs: Fs, k: nat)
    requires AllSynced(fs0) && k < |fs0.inodes| == |fs.inodes| && IBlock(k) < |fs0.blocks| == |fs.blocks|
    requires forall i :: 0 <= i < |fs.inodes| && i != k ==> fs.inodes[i] == fs0.inodes[i]
    requires Storable(fs.inodes[k]) && fs.blocks[IBlock(k)] == PutDinode(fs0.blocks[IBlock(k)], k % IPB, fs.inodes[k])
    requires forall i :: 0 <= i < |fs.inodes| && IBlock(i) != IBlock(k) && IBlock(i) < |fs.blocks| ==>
               fs.blocks[IBlock(i)] == fs0.blocks[IBlock(i)]
    ensures AllSynced(fs)
  {
    hide PutDinode, GetDinode;
    forall i | 0 <= i < |fs.inodes| ensures Synced(fs.blocks, fs.inodes[i], i) {
      if i == k {
        SurvivesReload(fs0.blocks[IBlock(k)], k % IPB, fs.inodes[k], fs.inodes[k].addrs[NDIRECT + 1]);
      } else {
        assert Synced(fs0.blocks, fs0.inodes[i], i);
        if IBlock(i) == IBlock(k) {
          ReloadOthers(fs0.blocks[IBlock(k)], k % IPB, fs.inodes[k], i % IPB, fs.inodes[i].addrs[NDIRECT + 1]);
        }
      }
    }
  }

  /** After the loop: writei that grows the file writes the inode back, and otherwise has not changed it. */
  lemma WriteSynced(sb: Super, fs0: Fs, fs: Fs, fs': Fs, k: nat, off: nat, src: seq<Byte>, xs: seq<nat>,
                    us: seq<LogSpec.Update>)
    requires AllSynced(fs0) && AllHoleFree(fs0)
    requires off + |src| <= MAXBYTES && Writing(sb, fs0, fs, k, off, src, |src|, LastBlock(off, |src|))
    requires LoggedSoFar(sb, fs0, fs, k, off / BSIZE, LastBlock(off, |src|), xs)
             && Traced(fs0.blocks, us, xs, fs.blocks)
    requires |fs'.blocks| == |fs.blocks|
    requires var size := NewSize(fs0.inodes[k].size, off, |src|);
             if size == fs0.inodes[k].size then fs' == fs
             else
               && fs'.inodes == fs.inodes[k := fs.inodes[k].(size := size)]
               && (forall b :: 0 <= b < |fs.blocks| && b != IBlock(k) ==> fs'.blocks[b] == fs.blocks[b])
               && Storable(fs'.inodes[k]) && IBlock(k) < |fs.blocks|
               && fs'.blocks[IBlock(k)] == PutDinode(fs.blocks[IBlock(k)], k % IPB, fs'.inodes[k])
    ensures AllSynced(fs')
  {
    hide FsOk, At, Marks, Paths, Overwritten, AllHoleFree, LastBlock, Grows, Traced, Footprint, LogsGains, PutDinode,
        Storable, Synced;
    var slots := Paths(off / BSIZE, LastBlock(off, |src|));
    forall i | 0 <= i < |fs0.inodes|
      ensures IBlock(i) < |fs0.blocks| == |fs.blocks| && fs.blocks[IBlock(i)] == fs0.blocks[IBlock(i)]
    {
      GainsOk(sb, fs0, fs, k, slots);
      InodeBlock(sb, fs0, i);
      LoopSectors(sb, fs0, fs, k, ContentSlots(off / BSIZE, LastBlock(off, |src|)), xs, us, IBlock(i));
    }
    assert |fs.blocks| == |fs0.blocks| by {
      GainsOk(sb, fs0, fs, k, slots);
      FsSizes(sb, fs0);
      FsSizes(sb, fs);
    }
    if NewSize(fs0.inodes[k].size, off, |src|) == fs0.inodes[k].size {
      NoGrowth(sb, fs0, fs, k, off, src);
      SameSynced(fs0, fs);
    } else {
      PutSynced(fs0, fs', k);
    }
  }

  lemma GainsOk(sb: Super, fs: Fs, fs': Fs, k: nat, slots: set<Slot>)
    requires Gains(sb, fs, fs', k, slots)
    ensures FsOk(sb, fs) && FsOk(sb, fs') && k < |fs.inodes| == |fs'.inodes|
  {
  }

  lemma SameSynced(fs0: Fs, fs: Fs)
    requires AllSynced(fs0) && fs.inodes == fs0.inodes && |fs.blocks| == |fs0.blocks|
    requires forall i :: 0 <= i < |fs0.inodes| && IBlock(i) < |fs.blocks| ==>
               fs.blocks[IBlock(i)] == fs0.blocks[IBlock(i)]
    ensures AllSynced(fs)
  {
    hide GetDinode;
    forall i | 0 <= i < |fs.inodes| ensures Synced(fs.blocks, fs.inodes[i], i) {
      assert Synced(fs0.blocks, fs0.inodes[i], i);
    }
  }
}
