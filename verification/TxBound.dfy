/** How much of the log one chunk of filewrite (file.c:132-150) can use. */
module TxBound {
  import opened Blocks
  import opened Bitmap
  import opened FiniteSets
  import opened FsIndex
  import opened FsState
  import opened FsLog
  import opened FsWrite
  import opened FsSpace
  import opened FsSync
  import LogSpec

  /** ((LOGSIZE-1-1-2) / 2) * 512 */
  const CHUNK := 1536

  /** log.size - 1 for the LOGSIZE log sectors mkfs lays out (mkfs.c:15) */
  const ROOM := LogSpec.LOGSIZE - 1

  // -------- Slots on the way to four consecutive content blocks --------

  function Contents(lo: nat): set<Slot>
    requires lo + 4 <= MAXFILE
  {
    {SlotOf(lo), SlotOf(lo + 1), SlotOf(lo + 2), SlotOf(lo + 3)}
  }

  /** Three index slots at most: the indirect root; or the doubly indirect root and the second-level
      slots, of which four consecutive blocks meet two only when they miss the indirect root. */
  function Indexes(lo: nat): set<Slot> {
    if lo + 3 < NDIRECT + NINDIRECT then {Root(NDIRECT)}
    else if lo < NDIRECT + NINDIRECT then {Root(NDIRECT), Root(NDIRECT + 1), DblInd(0)}
    else
      var i := (lo - NDIRECT - NINDIRECT) / NINDIRECT;
      {Root(NDIRECT + 1), DblInd(i), DblInd(i + 1)}
  }

  lemma PathCovered(lo: nat, bn: nat)
    requires lo <= bn < lo + 4 <= MAXFILE
    ensures Path(SlotOf(bn)) <= Contents(lo) + Indexes(lo)
  {
    hide Path, Contents;
    var s := SlotOf(bn);
    ContentsHave(lo, bn);
    PathOf(s);
    if lo >= NDIRECT + NINDIRECT { DivNear(lo - NDIRECT - NINDIRECT, bn - NDIRECT - NINDIRECT); }
  }

  lemma ContentsHave(lo: nat, bn: nat)
    requires lo <= bn < lo + 4 <= MAXFILE
    ensures SlotOf(bn) in Contents(lo)
  {
    hide SlotOf;
  }

  lemma DivNear(x: nat, y: nat)
    requires x <= y < x + 4
    ensures y / NINDIRECT == x / NINDIRECT || y / NINDIRECT == x / NINDIRECT + 1
  {
  }

  lemma {:induction false} PathOf(s: Slot)
    ensures s.Root? ==> Path(s) == {s}
    ensures s.Ind? ==> Path(s) == {s, Root(NDIRECT)}
    ensures s.Dbl? ==> Path(s) == {s, DblInd(s.i), Root(NDIRECT + 1)}
  {
    if s.Dbl? { assert Path(DblInd(s.i)) == {DblInd(s.i), Root(NDIRECT + 1)}; }
  }

  lemma {:induction false} PathsCovered(lo: nat, hi: nat)
    requires lo <= hi <= lo + 4 <= MAXFILE
    ensures Paths(lo, hi) <= Contents(lo) + Indexes(lo)
  {
    hide SlotOf, Path, Indexes, Contents;
    if hi > lo {
      PathsCovered(lo, hi - 1);
      PathCovered(lo, hi - 1);
    }
  }

  lemma {:induction false} PathsFew(lo: nat, hi: nat)
    requires lo <= hi <= lo + 4 && hi <= MAXFILE
    ensures |Paths(lo, hi)| <= 7
  {
    hide SlotOf;
    var lo' := if lo + 4 <= MAXFILE then lo else MAXFILE - 4;
    PathsWider(lo, lo', hi);
    PathsCovered(lo', hi);
    SubsetSize(Paths(lo, hi), Contents(lo') + Indexes(lo'));
    UnionSize(Contents(lo'), Indexes(lo'));
    FourSlots(SlotOf(lo'), SlotOf(lo' + 1), SlotOf(lo' + 2), SlotOf(lo' + 3));
    ThreeSlots(lo');
  }

  lemma FourSlots(a: Slot, b: Slot, c: Slot, d: Slot)
    ensures |{a, b, c, d}| <= 4
  {
    assert {a, b, c, d} == {a} + {b} + {c} + {d};
    UnionSize({a}, {b});
    UnionSize({a} + {b}, {c});
    UnionSize({a} + {b} + {c}, {d});
  }

  lemma ThreeSlots(lo: nat)
    ensures |Indexes(lo)| <= 3
  {
    var i := if lo < NDIRECT + NINDIRECT then 0 else (lo - NDIRECT - NINDIRECT) / NINDIRECT;
    FourSlots(Root(NDIRECT + 1), DblInd(i), DblInd(i + 1), DblInd(i + 1));
    assert {Root(NDIRECT + 1), DblInd(i), DblInd(i + 1), DblInd(i + 1)}
           == {Root(NDIRECT + 1), DblInd(i), DblInd(i + 1)};
  }

  // -------- Sectors logged by one chunk --------

  ghost function Sectors(xs: seq<nat>): set<nat> {
    set i | 0 <= i < |xs| :: xs[i]
  }

  /** The blocks of inode k in the given slots. */
  ghost function SlotBlocks(fs: Fs, k: nat, slots: set<Slot>): set<nat>
    requires k < |fs.inodes| && |fs.inodes[k].addrs| == NADDRS
  {
    set s | s in slots && IsSlot(s) :: At(fs.blocks, fs.inodes[k], s)
  }

  /** The bitmap sectors of some blocks. */
  function MapsOf(sb: Super, blocks: set<nat>): set<nat> {
    set f | f in blocks :: BBlock(sb, f)
  }

  /** Those of the blocks gained since fs0. */
  ghost function BitmapSectors(sb: Super, fs0: Fs, fs: Fs): set<nat> {
    MapsOf(sb, fs.owner.Keys - fs0.owner.Keys)
  }

  /** At most CHUNK bytes lie in at most four blocks. */
  lemma ChunkBlocks(off: nat, n: nat)
    requires off + n <= MAXBYTES && n <= CHUNK
    ensures off / BSIZE <= LastBlock(off, n) <= off / BSIZE + 4
  {
    assert CHUNK == (LogSpec.LOGSIZE - 1 - 1 - 2) / 2 * BSIZE;
  }

  // -------- The guard of log_write --------

  /** The sectors of the first k updates. */
  ghost function First(us: seq<LogSpec.Update>, k: nat): set<nat>
    requires k <= |us|
  {
    set i | 0 <= i < k :: us[i].sector
  }

  /** log_write has panicked exactly if it was called with as many sectors listed as there is room for; the
      in-memory header lists each sector once. */
  lemma {:induction false} HeaderSize(us: seq<LogSpec.Update>, room: nat, k: nat)
    requires k <= |us|
    ensures var t := LogSpec.LogFirst(room, us, k);
            && (t.panicked <==> k > 0 && LogSpec.LogFull(room, |First(us, k - 1)|))
            && (!t.panicked ==> Sectors(t.lh) == First(us, k) && |t.lh| == |First(us, k)|)
  {
    if k == 0 {
      assert First(us, 0) == {} && Sectors([]) == {};
    } else {
      hide LogSpec.LogFirst, LogSpec.NextHeader;
      FirstGrows(us, k - 1);
      HeaderSize(us, room, k - 1);
      LogNext(us, room, k);
      if !LogSpec.LogFirst(room, us, k - 1).panicked {
        HeaderNext(LogSpec.LogFirst(room, us, k - 1).lh, us[k - 1].sector);
      }
      FirstNext(us, k);
    }
  }

  lemma LogNext(us: seq<LogSpec.Update>, room: nat, k: nat)
    requires 0 < k <= |us|
    ensures var t, t' := LogSpec.LogFirst(room, us, k - 1), LogSpec.LogFirst(room, us, k);
            && (t'.panicked <==> t.panicked || LogSpec.LogFull(room, |t.lh|))
            && (!t'.panicked ==> t'.lh == LogSpec.NextHeader(t.lh, us[k - 1].sector))
  {
  }

  lemma FirstNext(us: seq<LogSpec.Update>, k: nat)
    requires 0 < k <= |us|
    ensures First(us, k) == First(us, k - 1) + {us[k - 1].sector}
  {
  }

  lemma FirstGrows(us: seq<LogSpec.Update>, k: nat)
    requires k <= |us|
    ensures k > 0 ==> |First(us, k - 1)| <= |First(us, k)|
  {
    if k > 0 {
      assert First(us, k - 1) <= First(us, k);
      SubsetSize(First(us, k - 1), First(us, k));
    }
  }

  lemma HeaderNext(lh: seq<nat>, s: nat)
    requires |lh| == |Sectors(lh)|
    ensures var next := LogSpec.NextHeader(lh, s); Sectors(next) == Sectors(lh) + {s} && |next| == |Sectors(next)|
  {
    if s in lh {
      var i :| 0 <= i < |lh| && lh[i] == s;
      assert lh[i] in Sectors(lh);
      assert Sectors(lh) + {s} == Sectors(lh);
    } else {
      var more := lh + [s];
      forall x | x in Sectors(lh) + {s} ensures x in Sectors(more) {
        if x == s { assert more[|lh|] == s; } else {
          var i :| 0 <= i < |lh| && lh[i] == x;
          assert more[i] == x;
        }
      }
      assert Sectors(more) == Sectors(lh) + {s};
      assert s !in Sectors(lh);
    }
  }

  // -------- What a chunk will log, told from the state before it --------

  lemma SlotBlocksMany(sb: Super, fs: Fs, k: nat, slots: set<Slot>)
    requires FsOk(sb, fs) && k < |fs.inodes| && |fs.inodes[k].addrs| == NADDRS
    requires forall s :: s in slots ==> IsSlot(s) && At(fs.blocks, fs.inodes[k], s) != 0
    ensures |SlotBlocks(fs, k, slots)| == |slots|
    ensures forall b :: b in SlotBlocks(fs, k, slots) ==> MetaEnd(sb) <= b
  {
    hide At, IsSlot, Marks;
    var f := map s | s in slots :: At(fs.blocks, fs.inodes[k], s);
    forall x, y | x in f && y in f && x != y ensures f[x] != f[y] {
      if f[x] == f[y] { OwnedOnce(fs.blocks, fs.inodes, fs.owner, k, x, k, y); }
    }
    InjectiveSize(f);
    assert f.Keys == slots;
    assert f.Values == SlotBlocks(fs, k, slots);
    forall s | s in slots ensures MetaEnd(sb) <= At(fs.blocks, fs.inodes[k], s) { SlotInRange(sb, fs, k, s); }
  }

  /** The slots whose blocks a write of content blocks lo..hi-1 logs: those of the content, those it has to
      fill, and those of the index blocks that get a new entry. */
  ghost function Touched(fs: Fs, k: nat, lo: nat, hi: nat): set<Slot>
    requires k < |fs.inodes| && |fs.inodes[k].addrs| == NADDRS && hi <= MAXFILE
  {
    var empty := EmptySlots(fs, k, Paths(lo, hi));
    ContentSlots(lo, hi) + empty + set s | s in empty && !s.Root? :: Parent(s)
  }

  /** The bitmap sectors of the n lowest free data blocks. */
  ghost function LowestMaps(sb: Super, blocks: seq<Block>, n: nat): set<nat> {
    MapsOf(sb, Lowest(FreeBlocks(sb, blocks), n))
  }

  /** balloc takes the lowest free blocks. */
  lemma GainedLowest(sb: Super, fs0: Fs, fs: Fs, k: nat, slots: set<Slot>)
    requires Grows(sb, fs0, fs, k, slots)
    ensures fs.owner.Keys - fs0.owner.Keys
            == Lowest(FreeBlocks(sb, fs0.blocks), |fs.owner.Keys - fs0.owner.Keys|)
  {
    var free, gained := FreeBlocks(sb, fs0.blocks), fs.owner.Keys - fs0.owner.Keys;
    GrowsMarks(sb, fs0, fs, k, slots);
    forall x, y | x in gained && y in free && y < x ensures y in gained {
      GainedBelow(sb, fs0, fs, k, slots, x, y);
    }
    assert gained <= free by { hide Grows, Marks; }
    hide Grows, FreeBlocks;
    LowestIs(free, gained);
  }

  lemma GainedBelow(sb: Super, fs0: Fs, fs: Fs, k: nat, slots: set<Slot>, x: nat, y: nat)
    requires Grows(sb, fs0, fs, k, slots) && x in fs.owner && x !in fs0.owner && y < x && y !in Marks(sb, fs0.blocks)
    ensures y in fs.owner && y !in fs0.owner
  {
    hide FsOk, Marks;
    assert FullBelow(sb, fs.blocks, x);
  }

  /** So the bitmap sectors logged are known beforehand. */
  lemma MapsBefore(sb: Super, fs0: Fs, fs: Fs, k: nat, slots: set<Slot>)
    requires Grows(sb, fs0, fs, k, slots) && |fs.inodes[k].addrs| == NADDRS && EmptySlots(fs, k, slots) == {}
    ensures |fs0.inodes[k].addrs| == NADDRS
    ensures BitmapSectors(sb, fs0, fs) == LowestMaps(sb, fs0.blocks, |EmptySlots(fs0, k, slots)|)
  {
    GrowsSized(sb, fs0, fs, k, slots);
    hide Grows, EmptySlots, MapsOf, FreeBlocks, Lowest;
    GrowsSlots(sb, fs0, fs, k, slots);
    GainedLowest(sb, fs0, fs, k, slots);
  }

  /** After the write every touched slot has a block. */
  lemma TouchedFilled(sb: Super, fs0: Fs, fs: Fs, k: nat, lo: nat, hi: nat)
    requires hi <= MAXFILE && Grows(sb, fs0, fs, k, Paths(lo, hi))
    requires |fs0.inodes[k].addrs| == |fs.inodes[k].addrs| == NADDRS
    requires forall bn :: lo <= bn < hi ==> BlockAt(fs, k, bn) != 0
    ensures forall s :: s in Touched(fs0, k, lo, hi) ==> IsSlot(s) && At(fs.blocks, fs.inodes[k], s) != 0
    ensures EmptySlots(fs, k, Paths(lo, hi)) == {}
  {
    GrowsSized(sb, fs0, fs, k, Paths(lo, hi));
    hide Grows, At, SlotOf, Paths, IsSlot;
    PathsFilled(fs, k, lo, hi);
    var empty := EmptySlots(fs0, k, Paths(lo, hi));
    forall s | s in empty ensures IsSlot(s) && At(fs.blocks, fs.inodes[k], s) != 0 {
      assert s !in EmptySlots(fs, k, Paths(lo, hi));
    }
    forall s | s in empty && !s.Root? ensures IsSlot(Parent(s)) && At(fs.blocks, fs.inodes[k], Parent(s)) != 0 {
      ParentThere(fs, k, s);
    }
    forall s | s in ContentSlots(lo, hi) ensures IsSlot(s) && At(fs.blocks, fs.inodes[k], s) != 0 {
      var bn :| lo <= bn < hi && s == SlotOf(bn);
      assert BlockAt(fs, k, bn) != 0;
    }
  }

  /** Everything logged before the inode is the block of a touched slot or a bitmap sector. */
  lemma LoggedTouched(sb: Super, fs0: Fs, fs: Fs, k: nat, lo: nat, hi: nat, xs: seq<nat>, x: nat)
    requires LoggedSoFar(sb, fs0, fs, k, lo, hi, xs) && Grows(sb, fs0, fs, k, Paths(lo, hi)) && x in xs
    requires |fs0.inodes[k].addrs| == NADDRS
    ensures x in SlotBlocks(fs, k, Touched(fs0, k, lo, hi)) + BitmapSectors(sb, fs0, fs)
  {
    GrowsSized(sb, fs0, fs, k, Paths(lo, hi));
    hide Grows, At, SlotOf, Paths, IsSlot, BBlock, LogsGains, ContentSlots;
    var i :| 0 <= i < |xs| && xs[i] == x;
    assert InFootprint(sb, fs0, fs, k, ContentSlots(lo, hi), xs[i]);
    var touched := Touched(fs0, k, lo, hi);
    if s :| s in ContentSlots(lo, hi) && IsSlot(s) && At(fs.blocks, fs.inodes[k], s) == x != 0 {
      assert s in touched;
    } else {
      var f :| f in fs.owner && f !in fs0.owner && OfGain(sb, fs, k, f, x);
      GrowsFills(sb, fs0, fs, k, Paths(lo, hi), f);
      var s := fs.owner[f].s;
      assert s in touched && (!s.Root? ==> Parent(s) in touched);
    }
  }

  /** And all of those are logged. */
  lemma TouchedLogged(sb: Super, fs0: Fs, fs: Fs, k: nat, lo: nat, hi: nat, xs: seq<nat>, s: Slot)
    requires LoggedSoFar(sb, fs0, fs, k, lo, hi, xs) && Grows(sb, fs0, fs, k, Paths(lo, hi))
    requires |fs0.inodes[k].addrs| == NADDRS && s in Touched(fs0, k, lo, hi)
    requires EmptySlots(fs, k, Paths(lo, hi)) == {}
    ensures IsSlot(s) && At(fs.blocks, fs.inodes[k], s) in xs
  {
    GrowsSized(sb, fs0, fs, k, Paths(lo, hi));
    hide Grows, At, SlotOf, Paths, IsSlot, BBlock, Footprint;
    var empty := EmptySlots(fs0, k, Paths(lo, hi));
    if s in ContentSlots(lo, hi) {
      var bn :| lo <= bn < hi && s == SlotOf(bn);
      assert BlockAt(fs, k, bn) in xs;
    } else {
      var e :| e in empty && (e == s || (!e.Root? && Parent(e) == s));
      assert e !in EmptySlots(fs, k, Paths(lo, hi));
      GrowsAt(sb, fs0, fs, k, Paths(lo, hi), e);
      assert LogsGain(sb, fs, k, At(fs.blocks, fs.inodes[k], e), xs);
    }
  }

  /** The sectors logged before the inode, counted in the state before. */
  lemma ChunkSectors(sb: Super, fs0: Fs, fs: Fs, k: nat, lo: nat, hi: nat, xs: seq<nat>)
    requires LoggedSoFar(sb, fs0, fs, k, lo, hi, xs) && Grows(sb, fs0, fs, k, Paths(lo, hi))
    requires forall bn :: lo <= bn < hi ==> BlockAt(fs, k, bn) != 0
    ensures |fs0.inodes[k].addrs| == NADDRS
    ensures |Sectors(xs)| == |Touched(fs0, k, lo, hi)|
                             + |LowestMaps(sb, fs0.blocks, |EmptySlots(fs0, k, Paths(lo, hi))|)|
  {
    GrowsSized(sb, fs0, fs, k, Paths(lo, hi));
    GrowsFsOk(sb, fs0, fs, k, Paths(lo, hi));
    hide Grows, At, SlotOf, Paths, IsSlot, BBlock, LoggedSoFar, Touched, EmptySlots, FsOk;
    TouchedFilled(sb, fs0, fs, k, lo, hi);
    var touched, maps := Touched(fs0, k, lo, hi), BitmapSectors(sb, fs0, fs);
    var blocks := SlotBlocks(fs, k, touched);
    SlotBlocksMany(sb, fs, k, touched);
    BitmapLogged(sb, fs0, fs, k, lo, hi, xs);
    forall x | x in Sectors(xs) ensures x in blocks + maps { LoggedTouched(sb, fs0, fs, k, lo, hi, xs, x); }
    forall x | x in blocks ensures x in xs {
      var s :| s in touched && IsSlot(s) && At(fs.blocks, fs.inodes[k], s) == x;
      TouchedLogged(sb, fs0, fs, k, lo, hi, xs, s);
    }
    MapsBefore(sb, fs0, fs, k, Paths(lo, hi));
    hide SlotBlocks, BitmapSectors, LowestMaps;
    SectorsAre(xs, blocks + maps);
    assert blocks !! maps;
  }

  lemma SectorsAre(xs: seq<nat>, s: set<nat>)
    requires (forall x :: x in Sectors(xs) ==> x in s) && forall x :: x in s ==> x in xs
    ensures Sectors(xs) == s
  {
    forall x | x in s ensures x in Sectors(xs) {
      var i :| 0 <= i < |xs| && xs[i] == x;
    }
  }

  lemma GrowsFsOk(sb: Super, fs0: Fs, fs: Fs, k: nat, slots: set<Slot>)
    requires Grows(sb, fs0, fs, k, slots)
    ensures FsOk(sb, fs0) && FsOk(sb, fs) && k < |fs0.inodes| == |fs.inodes|
  {
  }

  lemma BitmapLogged(sb: Super, fs0: Fs, fs: Fs, k: nat, lo: nat, hi: nat, body: seq<nat>)
    requires FsOk(sb, fs) && LoggedSoFar(sb, fs0, fs, k, lo, hi, body)
    ensures forall x :: x in BitmapSectors(sb, fs0, fs) ==> x in body && x < MetaEnd(sb)
  {
    InRange(sb, fs);
    hide FsOk, At, Footprint, Paths, BBlock, MetaEnd;
    forall x | x in BitmapSectors(sb, fs0, fs) ensures x in body && x < MetaEnd(sb) {
      var f :| f in fs.owner.Keys - fs0.owner.Keys && x == BBlock(sb, f);
      assert LogsGain(sb, fs, k, f, body);
      BBlockMeta(sb, f);
    }
  }

  lemma FirstSectors(us: seq<LogSpec.Update>, xs: seq<nat>)
    requires 0 < |us| == |xs| && forall j :: 0 <= j < |xs| ==> us[j].sector == xs[j]
    ensures First(us, |us| - 1) == Sectors(xs[..|xs| - 1])
  {
    var body := xs[..|xs| - 1];
    forall x | x in First(us, |us| - 1) ensures x in Sectors(body) {
      var j :| 0 <= j < |us| - 1 && us[j].sector == x;
      assert body[j] == x;
    }
    forall x | x in Sectors(body) ensures x in First(us, |us| - 1) {
      var j :| 0 <= j < |body| && body[j] == x;
      assert us[j].sector == x;
    }
  }

  // -------- The exact condition --------

  /** n bytes written at off into file k are too big a transaction: the file grows, and the content blocks,
      the new index blocks, the old ones that get an entry and the bitmap sectors of the blocks that
      balloc will hand out leave no room for the inode. */
  ghost predicate TooBig(sb: Super, fs: Fs, k: nat, off: nat, n: nat)
    requires k < |fs.inodes| && |fs.inodes[k].addrs| == NADDRS && off + n <= MAXBYTES
  {
    var lo, hi := off / BSIZE, LastBlock(off, n);
    && NewSize(fs.inodes[k].size, off, n) > fs.inodes[k].size
    && |Touched(fs, k, lo, hi)| + |LowestMaps(sb, fs.blocks, |EmptySlots(fs, k, Paths(lo, hi))|)| >= ROOM
  }

  lemma WroteBlocks(sb: Super, fs0: Fs, fs: Fs, k: nat, off: nat, src: seq<Byte>)
    requires Wrote(sb, fs0, fs, k, off, src)
    ensures k < |fs0.inodes| == |fs.inodes| && |fs0.inodes[k].addrs| == |fs.inodes[k].addrs| == NADDRS
    ensures off + |src| <= MAXBYTES && Grows(sb, fs0, fs, k, Paths(off / BSIZE, LastBlock(off, |src|)))
    ensures forall bn :: off / BSIZE <= bn < LastBlock(off, |src|) ==> BlockAt(fs, k, bn) != 0
  {
    hide FsOk, Grows, Content, Overwrite, Paths, At, SlotOf;
    assert HoleFree(fs, k, fs.inodes[k].size);
  }

  /** log_write panics with "too big a transaction" in a chunk of filewrite exactly when the chunk is. */
  lemma ChunkExact(sb: Super, fs0: Fs, fs: Fs, k: nat, off: nat, src: seq<Byte>, xs: seq<nat>, us: seq<LogSpec.Update>)
    requires Wrote(sb, fs0, fs, k, off, src) && WriteLogs(sb, fs0, fs, k, off, |src|, xs) && |src| <= CHUNK
    requires |us| == |xs| && forall j :: 0 <= j < |xs| ==> us[j].sector == xs[j]
    ensures k < |fs0.inodes| && |fs0.inodes[k].addrs| == NADDRS && off + |src| <= MAXBYTES
    ensures LogSpec.LogAll(ROOM, us).panicked <==> TooBig(sb, fs0, k, off, |src|)
  {
    WroteBlocks(sb, fs0, fs, k, off, src);
    var lo, hi := off / BSIZE, LastBlock(off, |src|);
    HeaderSize(us, ROOM, |us|);
    if NewSize(fs0.inodes[k].size, off, |src|) > fs0.inodes[k].size {
      hide Wrote, LoggedSoFar, Grows, LogSpec.LogFirst, First, Sectors, Touched, LowestMaps, EmptySlots, LastBlock;
      ChunkSectors(sb, fs0, fs, k, lo, hi, xs[..|xs| - 1]);
      FirstSectors(us, xs);
    } else {
      InsideFits(sb, fs0, fs, k, off, src, xs, us);
    }
  }

  /** A write inside the file logs its content blocks only. */
  lemma InsideFits(sb: Super, fs0: Fs, fs: Fs, k: nat, off: nat, src: seq<Byte>, xs: seq<nat>, us: seq<LogSpec.Update>)
    requires Wrote(sb, fs0, fs, k, off, src) && |src| <= CHUNK && off + |src| <= MAXBYTES
    requires NewSize(fs0.inodes[k].size, off, |src|) == fs0.inodes[k].size
    requires LoggedSoFar(sb, fs0, fs, k, off / BSIZE, LastBlock(off, |src|), xs)
    requires |us| == |xs| && forall j :: 0 <= j < |xs| ==> us[j].sector == xs[j]
    ensures |us| > 0 ==> |First(us, |us| - 1)| <= 4
  {
    WroteBlocks(sb, fs0, fs, k, off, src);
    var lo, hi := off / BSIZE, LastBlock(off, |src|);
    assert EmptySlots(fs0, k, Paths(lo, hi)) == {} by {
      hide FsOk, Grows, Content, Overwrite;
      RangeThere(fs0, k, off, |src|);
    }
    hide Wrote, LoggedSoFar, Grows;
    ChunkSectors(sb, fs0, fs, k, lo, hi, xs);
    ChunkBlocks(off, |src|);
    ContentFew(lo, hi);
    assert Touched(fs0, k, lo, hi) == ContentSlots(lo, hi);
    assert LowestMaps(sb, fs0.blocks, 0) == {};
    if |us| > 0 {
      FirstWithin(us, xs);
      SubsetSize(First(us, |us| - 1), Sectors(xs));
    }
  }

  lemma FirstWithin(us: seq<LogSpec.Update>, xs: seq<nat>)
    requires 0 < |us| == |xs| && forall j :: 0 <= j < |xs| ==> us[j].sector == xs[j]
    ensures First(us, |us| - 1) <= Sectors(xs)
  {
    forall x | x in First(us, |us| - 1) ensures x in Sectors(xs) {
      var j :| 0 <= j < |us| - 1 && us[j].sector == x;
      assert xs[j] == x;
    }
  }

  lemma {:induction false} ContentFew(lo: nat, hi: nat)
    requires lo <= hi <= MAXFILE
    ensures |ContentSlots(lo, hi)| <= hi - lo
    decreases hi
  {
    hide SlotOf;
    if lo < hi {
      ContentFew(lo, hi - 1);
      assert ContentSlots(lo, hi) == ContentSlots(lo, hi - 1) + {SlotOf(hi - 1)};
      UnionSize(ContentSlots(lo, hi - 1), {SlotOf(hi - 1)});
    } else {
      assert ContentSlots(lo, hi) == {};
    }
  }

  // -------- Chunks that always fit --------

  lemma {:induction false} PathsHold(lo: nat, hi: nat, bn: nat)
    requires lo <= bn < hi <= MAXFILE
    ensures SlotOf(bn) in Paths(lo, hi)
    decreases hi
  {
    hide SlotOf;
    if bn < hi - 1 { PathsHold(lo, hi - 1, bn); }
  }

  lemma {:induction false} PathsParents(lo: nat, hi: nat, s: Slot)
    requires hi <= MAXFILE && s in Paths(lo, hi) && !s.Root?
    ensures Parent(s) in Paths(lo, hi)
    decreases hi
  {
    hide SlotOf;
    if s in Paths(lo, hi - 1) { PathsParents(lo, hi - 1, s); } else { PathParents(SlotOf(hi - 1), s); }
  }

  lemma {:induction false} PathParents(t: Slot, s: Slot)
    requires s in Path(t) && !s.Root?
    ensures Parent(s) in Path(t)
    decreases Depth(t)
  {
    if s != t { PathParents(Parent(t), s); }
  }

  /** At most seven slots are touched. */
  lemma TouchedFew(fs: Fs, k: nat, lo: nat, hi: nat)
    requires k < |fs.inodes| && |fs.inodes[k].addrs| == NADDRS && lo <= hi <= lo + 4 && hi <= MAXFILE
    ensures |Touched(fs, k, lo, hi)| <= 7
  {
    hide At, SlotOf, Paths, IsSlot;
    forall s | s in Touched(fs, k, lo, hi) ensures s in Paths(lo, hi) {
      if s in ContentSlots(lo, hi) {
        var bn :| lo <= bn < hi && s == SlotOf(bn);
        PathsHold(lo, hi, bn);
      } else if s !in EmptySlots(fs, k, Paths(lo, hi)) {
        var e :| e in EmptySlots(fs, k, Paths(lo, hi)) && !e.Root? && Parent(e) == s;
        PathsParents(lo, hi, e);
      }
    }
    SubsetSize(Touched(fs, k, lo, hi), Paths(lo, hi));
    PathsFew(lo, hi);
  }

  /** A chunk whose new blocks share one bitmap sector fits, wherever in the file it lies. */
  lemma ChunkFits(sb: Super, fs: Fs, k: nat, off: nat, n: nat)
    requires k < |fs.inodes| && |fs.inodes[k].addrs| == NADDRS && off + n <= MAXBYTES && n <= CHUNK
    requires |LowestMaps(sb, fs.blocks, |EmptySlots(fs, k, Paths(off / BSIZE, LastBlock(off, n)))|)| <= 1
    ensures !TooBig(sb, fs, k, off, n)
  {
    hide LastBlock, Touched, LowestMaps, EmptySlots;
    ChunkBlocks(off, n);
    TouchedFew(fs, k, off / BSIZE, LastBlock(off, n));
  }

  /** Up to 4096 blocks there is one bitmap sector. */
  lemma OneBitmap(sb: Super, blocks: seq<Block>, n: nat)
    requires sb.size <= BPB
    ensures |LowestMaps(sb, blocks, n)| <= 1
  {
    hide Marks, BBlock;
    var first := {BBlock(sb, 0)};
    forall x | x in LowestMaps(sb, blocks, n) ensures x in first {
      var f :| f in Lowest(FreeBlocks(sb, blocks), n) && x == BBlock(sb, f);
      assert f < LogStart(sb);
      FirstBitmap(sb, f);
    }
    hide LowestMaps;
    SubsetSize(LowestMaps(sb, blocks, n), first);
  }

  lemma FirstBitmap(sb: Super, f: nat)
    requires f < BPB
    ensures BBlock(sb, f) == BBlock(sb, 0)
  {
  }
}
