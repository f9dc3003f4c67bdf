/** How many free blocks growing an inode takes. */
module FsSpace {
  import opened Blocks
  import opened FiniteSets
  import opened FsIndex
  import opened FsState
  import opened FsLog
  import opened FsWrite

  /** The data blocks that are free. */
  ghost function FreeBlocks(sb: Super, blocks: seq<Block>): set<nat> {
    set b: nat | b < LogStart(sb) && b !in Marks(sb, blocks)
  }

  /** Some sector of the log looks free. */
  ghost predicate LogOpen(sb: Super, blocks: seq<Block>) {
    exists b :: LogStart(sb) <= b < sb.size && b !in Marks(sb, blocks)
  }

  /** The given slots of inode k that have no block. */
  ghost function EmptySlots(fs: Fs, k: nat, slots: set<Slot>): set<Slot>
    requires k < |fs.inodes| && |fs.inodes[k].addrs| == NADDRS
  {
    set s | s in slots && IsSlot(s) && At(fs.blocks, fs.inodes[k], s) == 0
  }

  lemma GrowsFree(sb: Super, fs0: Fs, fs: Fs, k: nat, slots: set<Slot>)
    requires Grows(sb, fs0, fs, k, slots)
    ensures |FreeBlocks(sb, fs.blocks)| + |fs.owner.Keys - fs0.owner.Keys| == |FreeBlocks(sb, fs0.blocks)|
  {
    GrowsMarks(sb, fs0, fs, k, slots);
    FreeAfter(LogStart(sb), Marks(sb, fs0.blocks), Marks(sb, fs.blocks), fs.owner.Keys - fs0.owner.Keys);
  }

  lemma FreeAfter(n: int, marks0: set<nat>, marks: set<nat>, gained: set<nat>)
    requires marks == marks0 + gained && forall f :: f in gained ==> f < n && f !in marks0
    ensures |set b: nat | b < n && b !in marks| + |gained| == |set b: nat | b < n && b !in marks0|
  {
    var free0, free := set b: nat | b < n && b !in marks0, set b: nat | b < n && b !in marks;
    assert gained <= free0;
    assert free == free0 - gained;
    SubsetSize(gained, free0);
  }

  lemma GrowsMarks(sb: Super, fs0: Fs, fs: Fs, k: nat, slots: set<Slot>)
    requires Grows(sb, fs0, fs, k, slots)
    ensures Marks(sb, fs.blocks) == Marks(sb, fs0.blocks) + (fs.owner.Keys - fs0.owner.Keys)
    ensures forall f :: f in fs.owner.Keys - fs0.owner.Keys ==> f < LogStart(sb) && f !in Marks(sb, fs0.blocks)
  {
    hide Marks, Owned, Exact, MetaEnd;
  }

  lemma GrowsLog(sb: Super, fs0: Fs, fs: Fs, k: nat, slots: set<Slot>)
    requires Grows(sb, fs0, fs, k, slots)
    ensures LogOpen(sb, fs.blocks) == LogOpen(sb, fs0.blocks)
  {
    GrowsMarks(sb, fs0, fs, k, slots);
    hide Grows, Marks, MetaEnd;
    assert forall b: nat :: b >= LogStart(sb) ==> (b in Marks(sb, fs.blocks) <==> b in Marks(sb, fs0.blocks));
  }

  /** Old slots keep their block. */
  lemma {:induction false} GrowsAt(sb: Super, fs0: Fs, fs: Fs, k: nat, slots: set<Slot>, s: Slot)
    requires Grows(sb, fs0, fs, k, slots) && IsSlot(s)
    ensures |fs0.inodes[k].addrs| == |fs.inodes[k].addrs| == NADDRS
    ensures At(fs0.blocks, fs0.inodes[k], s) != 0 ==> At(fs.blocks, fs.inodes[k], s) == At(fs0.blocks, fs0.inodes[k], s)
    ensures var f := At(fs.blocks, fs.inodes[k], s);
            At(fs0.blocks, fs0.inodes[k], s) == 0 != f ==>
              f in fs.owner.Keys - fs0.owner.Keys && fs.owner[f] == Owner(k, s)
  {
    hide At, IsSlot, Marks;
    var b := At(fs0.blocks, fs0.inodes[k], s);
    if b != 0 { assert b in fs0.owner && fs0.owner[b] == Owner(k, s); }
  }

  lemma GrowsSized(sb: Super, fs0: Fs, fs: Fs, k: nat, slots: set<Slot>)
    requires Grows(sb, fs0, fs, k, slots)
    ensures k < |fs0.inodes| == |fs.inodes| && |fs0.inodes[k].addrs| == |fs.inodes[k].addrs| == NADDRS
  {
  }

  /** The slots that the blocks gained since fs0 were put into. */
  ghost function Placed(fs0: Fs, fs: Fs): (m: map<nat, Slot>)
    ensures m.Keys == fs.owner.Keys - fs0.owner.Keys
  {
    map f | f in fs.owner && f !in fs0.owner :: fs.owner[f].s
  }

  lemma PlacedSlots(sb: Super, fs0: Fs, fs: Fs, k: nat, slots: set<Slot>)
    requires Grows(sb, fs0, fs, k, slots) && |fs0.inodes[k].addrs| == |fs.inodes[k].addrs| == NADDRS
    ensures Placed(fs0, fs).Values == EmptySlots(fs0, k, slots) - EmptySlots(fs, k, slots)
    ensures EmptySlots(fs, k, slots) <= EmptySlots(fs0, k, slots)
  {
    GrowsSized(sb, fs0, fs, k, slots);
    hide Grows, At, IsSlot;
    var m, empty0, empty := Placed(fs0, fs), EmptySlots(fs0, k, slots), EmptySlots(fs, k, slots);
    forall f | f in m ensures m[f] in empty0 - empty { GrowsFills(sb, fs0, fs, k, slots, f); }
    forall s | s in empty0 - empty ensures s in m.Values {
      GrowsAt(sb, fs0, fs, k, slots, s);
      assert m[At(fs.blocks, fs.inodes[k], s)] == s;
    }
    forall s | s in empty ensures s in empty0 { GrowsAt(sb, fs0, fs, k, slots, s); }
  }

  /** The slots filled and the blocks gained correspond. */
  lemma GrowsSlots(sb: Super, fs0: Fs, fs: Fs, k: nat, slots: set<Slot>)
    requires Grows(sb, fs0, fs, k, slots) && |fs0.inodes[k].addrs| == |fs.inodes[k].addrs| == NADDRS
    ensures |EmptySlots(fs, k, slots)| + |fs.owner.Keys - fs0.owner.Keys| == |EmptySlots(fs0, k, slots)|
  {
    hide Grows, EmptySlots, Placed;
    GrowsSized(sb, fs0, fs, k, slots);
    PlacedSize(sb, fs0, fs, k, slots);
    PlacedSlots(sb, fs0, fs, k, slots);
    SubsetSize(EmptySlots(fs, k, slots), EmptySlots(fs0, k, slots));
  }

  lemma PlacedSize(sb: Super, fs0: Fs, fs: Fs, k: nat, slots: set<Slot>)
    requires Grows(sb, fs0, fs, k, slots)
    ensures |Placed(fs0, fs).Values| == |Placed(fs0, fs).Keys|
  {
    hide Grows;
    var m := Placed(fs0, fs);
    forall f, g | f in m && g in m && f != g ensures m[f] != m[g] {
      if m[f] == m[g] { GrowsOnce(sb, fs0, fs, k, slots, f, g); }
    }
    InjectiveSize(m);
  }

  lemma {:induction false} GrowsFills(sb: Super, fs0: Fs, fs: Fs, k: nat, slots: set<Slot>, f: nat)
    requires Grows(sb, fs0, fs, k, slots) && f in fs.owner && f !in fs0.owner
    requires |fs0.inodes[k].addrs| == |fs.inodes[k].addrs| == NADDRS
    ensures fs.owner[f].k == k && IsSlot(fs.owner[f].s) && At(fs.blocks, fs.inodes[k], fs.owner[f].s) == f
    ensures fs.owner[f].s in EmptySlots(fs0, k, slots) && fs.owner[f].s !in EmptySlots(fs, k, slots)
  {
    hide At, IsSlot, Marks;
    var s := fs.owner[f].s;
    var b := At(fs0.blocks, fs0.inodes[k], s);
    if b != 0 { GrowsAt(sb, fs0, fs, k, slots, s); }
    assert f != 0;
  }

  lemma GrowsOnce(sb: Super, fs0: Fs, fs: Fs, k: nat, slots: set<Slot>, f: nat, g: nat)
    requires Grows(sb, fs0, fs, k, slots) && f in fs.owner && g in fs.owner && f !in fs0.owner && g !in fs0.owner
    requires fs.owner[f].s == fs.owner[g].s
    ensures f == g
  {
    GrowsSized(sb, fs0, fs, k, slots);
    GrowsFills(sb, fs0, fs, k, slots, f);
    GrowsFills(sb, fs0, fs, k, slots, g);
  }

  /** Every block gained fills one slot: free blocks and empty slots fall together. */
  lemma GrowsCount(sb: Super, fs0: Fs, fs: Fs, k: nat, slots: set<Slot>)
    requires Grows(sb, fs0, fs, k, slots)
    ensures k < |fs0.inodes| == |fs.inodes| && |fs0.inodes[k].addrs| == |fs.inodes[k].addrs| == NADDRS
    ensures |FreeBlocks(sb, fs0.blocks)| - |EmptySlots(fs0, k, slots)|
            == |FreeBlocks(sb, fs.blocks)| - |EmptySlots(fs, k, slots)|
    ensures LogOpen(sb, fs.blocks) == LogOpen(sb, fs0.blocks)
  {
    GrowsSized(sb, fs0, fs, k, slots);
    GrowsFree(sb, fs0, fs, k, slots);
    GrowsSlots(sb, fs0, fs, k, slots);
    GrowsLog(sb, fs0, fs, k, slots);
  }

  lemma GrowsSelf(sb: Super, fs: Fs, k: nat, slots: set<Slot>)
    requires FsOk(sb, fs) && k < |fs.inodes|
    ensures Grows(sb, fs, fs, k, slots)
  {
    hide FsOk;
  }

  lemma GrowsTwice(sb: Super, fs0: Fs, fs1: Fs, fs2: Fs, k: nat, a: set<Slot>, b: set<Slot>, c: set<Slot>)
    requires Grows(sb, fs0, fs1, k, a) && Grows(sb, fs1, fs2, k, b) && a <= c && b <= c
    ensures Grows(sb, fs0, fs2, k, c)
  {
    hide FsOk, Marks;
    InRange(sb, fs0);
  }

  /** What balloc comes back with: a data block, the panic, or a sector of the log. */
  datatype Alloc = Got(b: nat) | OutOfBlocks | LogSector(b: nat)

  /** Growth that stopped for want of a block: no data block is free, and a slot is still empty. */
  ghost predicate Stuck(sb: Super, fs0: Fs, fs: Fs, k: nat, slots: set<Slot>) {
    && Grows(sb, fs0, fs, k, slots) && |fs.inodes[k].addrs| == NADDRS
    && FreeBlocks(sb, fs.blocks) == {} && EmptySlots(fs, k, slots) != {}
  }

  /** It stopped in that way, and balloc panicked exactly if every sector of the log was marked. */
  ghost predicate Short(sb: Super, r: Alloc, fs0: Fs, fs: Fs, k: nat, slots: set<Slot>) {
    && !r.Got? && Stuck(sb, fs0, fs, k, slots)
    && (r.OutOfBlocks? <==> !LogOpen(sb, fs0.blocks))
  }

  lemma {:induction false} ShortHere(sb: Super, r: Alloc, fs: Fs, k: nat, s: Slot)
    requires FsOk(sb, fs) && k < |fs.inodes| && IsSlot(s) && |fs.inodes[k].addrs| == NADDRS
    requires At(fs.blocks, fs.inodes[k], s) == 0 && FreeBlocks(sb, fs.blocks) == {}
    requires !r.Got? && (r.OutOfBlocks? <==> !LogOpen(sb, fs.blocks))
    ensures Short(sb, r, fs, fs, k, Path(s))
  {
    hide At, IsSlot, FsOk, Marks, FreeBlocks, LogOpen;
    assert s in EmptySlots(fs, k, Path(s));
  }

  /** First growth, then no room for more. */
  lemma ShortLater(sb: Super, r: Alloc, fs0: Fs, fs1: Fs, fs2: Fs, k: nat, a: set<Slot>, b: set<Slot>, all: set<Slot>)
    requires Grows(sb, fs0, fs1, k, a) && Short(sb, r, fs1, fs2, k, b) && a <= all && b <= all
    ensures Short(sb, r, fs0, fs2, k, all)
  {
    hide At, IsSlot, Grows, FreeBlocks, LogOpen;
    GrowsLog(sb, fs0, fs1, k, a);
    GrowsTwice(sb, fs0, fs1, fs2, k, a, b, all);
    GrowsSized(sb, fs1, fs2, k, b);
    assert EmptySlots(fs2, k, b) <= EmptySlots(fs2, k, all);
  }

  lemma ShortMore(sb: Super, r: Alloc, fs0: Fs, fs: Fs, k: nat, a: set<Slot>, all: set<Slot>)
    requires Short(sb, r, fs0, fs, k, a) && a <= all
    ensures Short(sb, r, fs0, fs, k, all)
  {
    hide At, IsSlot, FsOk, Marks, FreeBlocks, LogOpen;
    assert EmptySlots(fs, k, a) <= EmptySlots(fs, k, all);
  }

  lemma ShortOk(sb: Super, r: Alloc, fs0: Fs, fs: Fs, k: nat, slots: set<Slot>)
    requires Short(sb, r, fs0, fs, k, slots)
    ensures FsOk(sb, fs) && k < |fs0.inodes| == |fs.inodes|
  {
  }

  lemma {:induction false} ParentPath(s: Slot)
    requires !s.Root?
    ensures Path(Parent(s)) <= Path(s)
  {
  }

  /** Growth can be completed exactly when there are as many free blocks as empty slots. */
  ghost predicate Room(sb: Super, fs: Fs, k: nat, slots: set<Slot>)
    requires k < |fs.inodes| && |fs.inodes[k].addrs| == NADDRS
  {
    |EmptySlots(fs, k, slots)| <= |FreeBlocks(sb, fs.blocks)|
  }

  lemma StuckNoRoom(sb: Super, fs0: Fs, fs: Fs, k: nat, slots: set<Slot>, all: set<Slot>)
    requires Stuck(sb, fs0, fs, k, slots) && slots <= all
    ensures k < |fs0.inodes| && |fs0.inodes[k].addrs| == NADDRS && !Room(sb, fs0, k, all)
    ensures LogOpen(sb, fs.blocks) == LogOpen(sb, fs0.blocks)
  {
    hide Grows, At, IsSlot;
    GrowsCount(sb, fs0, fs, k, slots);
    assert |EmptySlots(fs, k, slots)| > 0;
    SubsetSize(EmptySlots(fs0, k, slots), EmptySlots(fs0, k, all));
  }

  lemma FilledRoom(sb: Super, fs0: Fs, fs: Fs, k: nat, slots: set<Slot>)
    requires Grows(sb, fs0, fs, k, slots) && |fs.inodes[k].addrs| == NADDRS && EmptySlots(fs, k, slots) == {}
    ensures |fs0.inodes[k].addrs| == NADDRS && Room(sb, fs0, k, slots)
  {
    hide Grows, At, IsSlot;
    GrowsCount(sb, fs0, fs, k, slots);
  }

  // -------- The slots of a range of content blocks --------

  lemma {:induction false} PathFilled(fs: Fs, k: nat, s: Slot)
    requires k < |fs.inodes| && |fs.inodes[k].addrs| == NADDRS && IsSlot(s) && At(fs.blocks, fs.inodes[k], s) != 0
    ensures EmptySlots(fs, k, Path(s)) == {}
    decreases Depth(s)
  {
    hide At, IsSlot;
    if !s.Root? {
      ParentThere(fs, k, s);
      PathFilled(fs, k, Parent(s));
      assert EmptySlots(fs, k, Path(s)) <= EmptySlots(fs, k, Path(Parent(s))) + EmptySlots(fs, k, {s});
    }
  }

  lemma {:induction false} PathsFilled(fs: Fs, k: nat, lo: nat, hi: nat)
    requires k < |fs.inodes| && |fs.inodes[k].addrs| == NADDRS && hi <= MAXFILE
    requires forall bn :: lo <= bn < hi ==> BlockAt(fs, k, bn) != 0
    ensures EmptySlots(fs, k, Paths(lo, hi)) == {}
    decreases hi
  {
    hide At, IsSlot, SlotOf, Path;
    if lo < hi {
      PathsFilled(fs, k, lo, hi - 1);
      assert BlockAt(fs, k, hi - 1) != 0;
      PathFilled(fs, k, SlotOf(hi - 1));
      assert EmptySlots(fs, k, Paths(lo, hi)) <= EmptySlots(fs, k, Paths(lo, hi - 1))
             + EmptySlots(fs, k, Path(SlotOf(hi - 1)));
    }
  }

  lemma PathsNone(lo: nat)
    requires lo <= MAXFILE
    ensures Paths(lo, lo) == {}
  {
  }

  lemma {:induction false} PathsMore(lo: nat, hi: nat, hi': nat)
    requires hi <= hi' <= MAXFILE
    ensures Paths(lo, hi) <= Paths(lo, hi')
    decreases hi'
  {
    hide SlotOf, Path;
    if hi < hi' { PathsMore(lo, hi, hi' - 1); }
  }

  lemma {:induction false} PathsWider(lo: nat, lo': nat, hi: nat)
    requires lo' <= lo && hi <= MAXFILE
    ensures Paths(lo, hi) <= Paths(lo', hi)
    decreases hi
  {
    hide SlotOf, Path;
    if hi > lo { PathsWider(lo, lo', hi - 1); }
  }

  /** writei comes to a content block it cannot provide. */
  lemma WriteShort(sb: Super, r: Alloc, fs0: Fs, fs: Fs, fs1: Fs, k: nat, off: nat, src: seq<Byte>, tot: nat, hi: nat)
    requires Writing(sb, fs0, fs, k, off, src, tot, hi) && hi < LastBlock(off, |src|)
    requires Short(sb, r, fs, fs1, k, Path(SlotOf(hi)))
    ensures var slots := Paths(off / BSIZE, LastBlock(off, |src|));
            && Stuck(sb, fs0, fs1, k, slots) && |fs0.inodes[k].addrs| == NADDRS && !Room(sb, fs0, k, slots)
            && (r.LogSector? <==> LogOpen(sb, fs0.blocks))
  {
    hide FsOk, At, Marks, SlotOf, Path, Grows, Overwritten;
    var slots := Paths(off / BSIZE, LastBlock(off, |src|));
    PathsMore(off / BSIZE, hi + 1, LastBlock(off, |src|));
    ShortLater(sb, r, fs0, fs, fs1, k, Paths(off / BSIZE, hi), Path(SlotOf(hi)), slots);
    StuckNoRoom(sb, fs0, fs1, k, slots, slots);
  }

  /** writei has provided them all. */
  lemma WriteRoom(sb: Super, fs0: Fs, fs: Fs, k: nat, off: nat, src: seq<Byte>, hi: nat)
    requires Writing(sb, fs0, fs, k, off, src, |src|, hi)
    ensures |fs0.inodes[k].addrs| == NADDRS && Room(sb, fs0, k, Paths(off / BSIZE, hi))
  {
    WritingOk(sb, fs0, fs, k, off, src, |src|, hi);
    hide FsOk, At, Marks, SlotOf, Path, Grows, Overwritten, Paths;
    PathsFilled(fs, k, off / BSIZE, hi);
    FilledRoom(sb, fs0, fs, k, Paths(off / BSIZE, hi));
  }
}
