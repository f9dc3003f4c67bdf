/** Which sectors an operation that grows or writes inode k may pass to log_write. */
module FsLog {
  import opened Blocks
  import opened FsIndex
  import opened FsState
  import LogSpec

  /** The log_write calls us, of the sectors xs, lead from one content of the sectors to the other. */
  ghost predicate Traced(blocks: seq<Block>, us: seq<LogSpec.Update>, xs: seq<nat>, blocks': seq<Block>) {
    && |us| == |xs| && (forall i :: 0 <= i < |us| ==> us[i].sector == xs[i])
    && LogSpec.Within(us, |blocks|) && LogSpec.RedoAll(blocks, us) == blocks'
  }

  lemma TracedNext(blocks: seq<Block>, us: seq<LogSpec.Update>, xs: seq<nat>, blocks': seq<Block>, x: nat, data: Block)
    requires Traced(blocks, us, xs, blocks') && x < |blocks'|
    ensures Traced(blocks, us + [LogSpec.Update(x, data)], xs + [x], blocks'[x := data])
  {
    LogSpec.RedoPrefix(blocks, us, us + [LogSpec.Update(x, data)], |us|);
  }

  lemma TracedLength(blocks: seq<Block>, us: seq<LogSpec.Update>, xs: seq<nat>, blocks': seq<Block>)
    requires Traced(blocks, us, xs, blocks')
    ensures |us| == |xs|
  {
  }

  lemma {:induction false} RedoRest(blocks: seq<Block>, us: seq<LogSpec.Update>, n: nat, k: nat)
    requires LogSpec.Within(us, |blocks|) && n <= k <= |us|
    ensures LogSpec.Within(us[n..], |blocks|)
    ensures LogSpec.Redo(LogSpec.Redo(blocks, us, n), us[n..], k - n) == LogSpec.Redo(blocks, us, k)
  {
    if k > n { RedoRest(blocks, us, n, k - 1); }
  }

  /** What was logged later leads on from where what was logged first had led. */
  lemma TracedRest(blocks: seq<Block>, us0: seq<LogSpec.Update>, xs0: seq<nat>, blocks0: seq<Block>,
                   us: seq<LogSpec.Update>, xs: seq<nat>, blocks': seq<Block>)
    requires Traced(blocks, us0, xs0, blocks0) && Traced(blocks, us, xs, blocks') && us0 <= us && xs0 <= xs
    ensures Traced(blocks0, us[|us0|..], xs[|xs0|..], blocks')
  {
    RedoRest(blocks, us, |us0|, |us|);
    LogSpec.RedoPrefix(blocks, us0, us, |us0|);
  }

  /** Sectors that are not logged keep their content. */
  lemma TracedUntouched(blocks: seq<Block>, us: seq<LogSpec.Update>, xs: seq<nat>, blocks': seq<Block>, x: nat)
    requires Traced(blocks, us, xs, blocks') && x < |blocks| && x !in xs
    ensures |blocks'| == |blocks| && blocks'[x] == blocks[x]
  {
    assert forall i :: 0 <= i < |us| ==> us[i].sector != x;
    LogSpec.RedoUntouched(blocks, us, |us|, x);
  }

  /** None of the sectors is the boot sector, the superblock or one of the log. */
  ghost predicate Apart(sb: Super, xs: seq<nat>) {
    forall i :: 0 <= i < |xs| ==> 2 <= xs[i] < LogStart(sb)
  }

  /** So whatever was logged, those sectors are as they were. */
  lemma BootKept(sb: Super, blocks: seq<Block>, us: seq<LogSpec.Update>, xs: seq<nat>, blocks': seq<Block>, x: nat)
    requires Traced(blocks, us, xs, blocks') && Apart(sb, xs) && x < |blocks| && (x < 2 || x >= LogStart(sb))
    ensures |blocks'| == |blocks| && blocks'[x] == blocks[x]
  {
    hide Traced;
    TracedUntouched(blocks, us, xs, blocks', x);
  }

  /** x is block f, gained by inode k, its bitmap sector, or the index block that names it. */
  ghost predicate OfGain(sb: Super, fs': Fs, k: nat, f: nat, x: nat)
    requires k < |fs'.inodes| && |fs'.inodes[k].addrs| == NADDRS && f in fs'.owner
  {
    && fs'.owner[f].k == k && IsSlot(fs'.owner[f].s)
    && (|| x == f || x == BBlock(sb, f)
        || (!fs'.owner[f].s.Root? && x == At(fs'.blocks, fs'.inodes[k], Parent(fs'.owner[f].s))))
  }

  /** x is the block of inode k in one of the slots, or belongs to a block gained since fs. */
  ghost predicate InFootprint(sb: Super, fs: Fs, fs': Fs, k: nat, slots: set<Slot>, x: nat)
    requires k < |fs'.inodes| && |fs'.inodes[k].addrs| == NADDRS
  {
    || (exists s :: s in slots && IsSlot(s) && At(fs'.blocks, fs'.inodes[k], s) == x != 0)
    || (exists f :: f in fs'.owner && f !in fs.owner && OfGain(sb, fs', k, f, x))
  }

  ghost predicate Footprint(sb: Super, fs: Fs, fs': Fs, k: nat, slots: set<Slot>, xs: seq<nat>)
    requires k < |fs'.inodes| && |fs'.inodes[k].addrs| == NADDRS
  {
    forall i :: 0 <= i < |xs| ==> InFootprint(sb, fs, fs', k, slots, xs[i])
  }

  /** Such a sector is a data block, or a sector of the bitmap. */
  lemma FootprintRange(sb: Super, fs: Fs, fs': Fs, k: nat, slots: set<Slot>, x: nat)
    requires FsOk(sb, fs') && k < |fs'.inodes| && |fs'.inodes[k].addrs| == NADDRS
    requires InFootprint(sb, fs, fs', k, slots, x)
    ensures sb.ninodes / IPB + 3 <= x < LogStart(sb)
  {
    hide At, IsSlot, Marks;
    if s :| s in slots && IsSlot(s) && At(fs'.blocks, fs'.inodes[k], s) == x != 0 {
      SlotInRange(sb, fs', k, s);
    } else {
      var f :| f in fs'.owner && f !in fs.owner && OfGain(sb, fs', k, f, x);
      BBlockMeta(sb, f);
      var s := fs'.owner[f].s;
      if !s.Root? {
        ParentThere(fs', k, s);
        SlotInRange(sb, fs', k, Parent(s));
      }
    }
  }

  lemma OfGainLater(sb: Super, fs0: Fs, fs1: Fs, fs2: Fs, k: nat, a: set<Slot>, b: set<Slot>, f: nat, x: nat)
    requires Gains(sb, fs0, fs1, k, a) && Gains(sb, fs1, fs2, k, b)
    requires |fs1.inodes[k].addrs| == |fs2.inodes[k].addrs| == NADDRS
    requires f in fs1.owner && f !in fs0.owner && OfGain(sb, fs1, k, f, x)
    ensures f in fs2.owner && OfGain(sb, fs2, k, f, x)
  {
    hide At, IsSlot, Marks, HasChildren;
    GainIsThere(sb, fs0, fs1, k, a, f);
    var s := fs1.owner[f].s;
    if !s.Root? {
      ParentThere(fs1, k, s);
      GainsAt(sb, fs1, fs2, k, b, k, Parent(s));
    }
  }

  /** Sectors logged by an earlier step stay in the footprint of the whole. */
  lemma FootprintLater(sb: Super, fs0: Fs, fs1: Fs, fs2: Fs, k: nat, a: set<Slot>, b: set<Slot>, slots: set<Slot>,
                       x: nat)
    requires Gains(sb, fs0, fs1, k, a) && Gains(sb, fs1, fs2, k, b)
    requires |fs1.inodes[k].addrs| == |fs2.inodes[k].addrs| == NADDRS
    requires InFootprint(sb, fs0, fs1, k, slots, x)
    ensures InFootprint(sb, fs0, fs2, k, slots, x)
  {
    assert k < |fs1.inodes| == |fs2.inodes|;
    hide At, IsSlot, Gains, OfGain;
    if s :| s in slots && IsSlot(s) && At(fs1.blocks, fs1.inodes[k], s) == x != 0 {
      GainsAt(sb, fs1, fs2, k, b, k, s);
    } else {
      var f :| f in fs1.owner && f !in fs0.owner && OfGain(sb, fs1, k, f, x);
      OfGainLater(sb, fs0, fs1, fs2, k, a, b, f, x);
    }
  }

  lemma FootprintEarlier(sb: Super, fs0: Fs, fs1: Fs, fs2: Fs, k: nat, a: set<Slot>, slots: set<Slot>, x: nat)
    requires Gains(sb, fs0, fs1, k, a) && k < |fs2.inodes| && |fs2.inodes[k].addrs| == NADDRS
    requires InFootprint(sb, fs1, fs2, k, slots, x)
    ensures InFootprint(sb, fs0, fs2, k, slots, x)
  {
    hide At, IsSlot, Marks, FsOk, OfGain;
  }

  lemma FootprintMore(sb: Super, fs: Fs, fs': Fs, k: nat, slots: set<Slot>, more: set<Slot>, x: nat)
    requires k < |fs'.inodes| && |fs'.inodes[k].addrs| == NADDRS && slots <= more
    requires InFootprint(sb, fs, fs', k, slots, x)
    ensures InFootprint(sb, fs, fs', k, more, x)
  {
    hide At, IsSlot, OfGain;
  }

  /** Inode k grew in two steps, in the slots a and b; the steps logged blocks in the slots c and d for
      their own sake. */
  lemma FootprintJoin(sb: Super, fs0: Fs, fs1: Fs, fs2: Fs, k: nat, a: set<Slot>, b: set<Slot>,
                      c: set<Slot>, d: set<Slot>, xs: seq<nat>, ys: seq<nat>)
    requires Gains(sb, fs0, fs1, k, a) && Gains(sb, fs1, fs2, k, b)
    requires |fs1.inodes[k].addrs| == |fs2.inodes[k].addrs| == NADDRS
    requires Footprint(sb, fs0, fs1, k, c, xs) && Footprint(sb, fs1, fs2, k, d, ys)
    ensures Footprint(sb, fs0, fs2, k, c + d, xs + ys)
  {
    assert k < |fs2.inodes|;
    hide Gains, InFootprint;
    forall i | 0 <= i < |xs + ys| ensures InFootprint(sb, fs0, fs2, k, c + d, (xs + ys)[i]) {
      if i < |xs| {
        FootprintLater(sb, fs0, fs1, fs2, k, a, b, c, xs[i]);
        FootprintMore(sb, fs0, fs2, k, c, c + d, xs[i]);
      } else {
        FootprintEarlier(sb, fs0, fs1, fs2, k, a, d, ys[i - |xs|]);
        FootprintMore(sb, fs0, fs2, k, d, c + d, ys[i - |xs|]);
      }
    }
  }

  /** A block gained since fs was logged, with its bitmap sector and the index block naming it. */
  ghost predicate LogsGain(sb: Super, fs': Fs, k: nat, f: nat, xs: seq<nat>)
    requires f in fs'.owner && k < |fs'.inodes| && |fs'.inodes[k].addrs| == NADDRS
  {
    && f in xs && BBlock(sb, f) in xs && IsSlot(fs'.owner[f].s)
    && (!fs'.owner[f].s.Root? ==> At(fs'.blocks, fs'.inodes[k], Parent(fs'.owner[f].s)) in xs)
  }

  ghost predicate LogsGains(sb: Super, fs: Fs, fs': Fs, k: nat, xs: seq<nat>)
    requires k < |fs'.inodes| && |fs'.inodes[k].addrs| == NADDRS
  {
    forall f :: f in fs'.owner && f !in fs.owner ==> LogsGain(sb, fs', k, f, xs)
  }

  lemma LogsGainLater(sb: Super, fs0: Fs, fs1: Fs, fs2: Fs, k: nat, a: set<Slot>, b: set<Slot>, f: nat, xs: seq<nat>,
                      ys: seq<nat>)
    requires Gains(sb, fs0, fs1, k, a) && Gains(sb, fs1, fs2, k, b)
    requires |fs1.inodes[k].addrs| == |fs2.inodes[k].addrs| == NADDRS
    requires f in fs1.owner && f !in fs0.owner && LogsGain(sb, fs1, k, f, xs)
    ensures f in fs2.owner && LogsGain(sb, fs2, k, f, xs + ys)
  {
    hide Marks, At, IsSlot;
    GainIsThere(sb, fs0, fs1, k, a, f);
    var s := fs1.owner[f].s;
    if !s.Root? {
      ParentThere(fs1, k, s);
      GainsAt(sb, fs1, fs2, k, b, k, Parent(s));
    }
  }

  lemma GainIsThere(sb: Super, fs: Fs, fs': Fs, k: nat, slots: set<Slot>, f: nat)
    requires Gains(sb, fs, fs', k, slots) && f in fs'.owner && f !in fs.owner
    ensures |fs'.inodes[k].addrs| == NADDRS && fs'.owner[f].k == k && IsSlot(fs'.owner[f].s)
    ensures At(fs'.blocks, fs'.inodes[k], fs'.owner[f].s) == f != 0
  {
    hide Marks, At, IsSlot;
    InRange(sb, fs');
  }

  lemma LogsGainsJoin(sb: Super, fs0: Fs, fs1: Fs, fs2: Fs, k: nat, a: set<Slot>, b: set<Slot>, xs: seq<nat>,
                      ys: seq<nat>)
    requires Gains(sb, fs0, fs1, k, a) && Gains(sb, fs1, fs2, k, b)
    requires |fs1.inodes[k].addrs| == |fs2.inodes[k].addrs| == NADDRS
    requires LogsGains(sb, fs0, fs1, k, xs) && LogsGains(sb, fs1, fs2, k, ys)
    ensures LogsGains(sb, fs0, fs2, k, xs + ys)
  {
    hide Marks, At, FsOk, IsSlot;
    forall f | f in fs2.owner && f !in fs0.owner ensures LogsGain(sb, fs2, k, f, xs + ys) {
      if f in fs1.owner {
        assert LogsGain(sb, fs1, k, f, xs);
        LogsGainLater(sb, fs0, fs1, fs2, k, a, b, f, xs, ys);
      } else {
        assert LogsGain(sb, fs2, k, f, ys);
      }
    }
  }

  lemma LogsGainsSame(sb: Super, fs0: Fs, fs1: Fs, fs2: Fs, k: nat, xs: seq<nat>, ys: seq<nat>)
    requires SameSlots(fs1.blocks, fs1.inodes, fs2.blocks, fs2.inodes) && fs1.owner == fs2.owner && k < |fs1.inodes|
    requires |fs1.inodes[k].addrs| == NADDRS && LogsGains(sb, fs0, fs1, k, xs) && forall x :: x in xs ==> x in ys
    ensures LogsGains(sb, fs0, fs2, k, ys)
  {
    hide At, IsSlot;
    forall f | f in fs2.owner && f !in fs0.owner ensures LogsGain(sb, fs2, k, f, ys) {
      assert LogsGain(sb, fs1, k, f, xs);
    }
  }

  /** The slots visited on the way to slot s. */
  function Path(s: Slot): set<Slot>
    decreases Depth(s)
  {
    if s.Root? then {s} else {s} + Path(Parent(s))
  }

  /** Slot s of inode k holds b in fs', which is fs or fs grown by that block; `delta` was logged. */
  ghost predicate Provides(sb: Super, fs: Fs, fs': Fs, k: nat, s: Slot, b: nat, slots: set<Slot>, delta: seq<nat>) {
    && IsSlot(s) && s in slots
    && Extends(sb, fs, fs', k, slots)
    && |fs.inodes[k].addrs| == |fs'.inodes[k].addrs| == NADDRS
    && b == At(fs'.blocks, fs'.inodes[k], s) != 0
    && (At(fs.blocks, fs.inodes[k], s) != 0 ==> fs' == fs && delta == [])
    && Footprint(sb, fs, fs', k, {}, delta) && LogsGains(sb, fs, fs', k, delta)
  }

  lemma ProvidesOk(sb: Super, fs: Fs, fs': Fs, k: nat, s: Slot, b: nat, slots: set<Slot>, delta: seq<nat>)
    requires Provides(sb, fs, fs', k, s, b, slots, delta)
    ensures FsOk(sb, fs) && FsOk(sb, fs') && k < |fs.inodes| == |fs'.inodes| && Extends(sb, fs, fs', k, slots)
  {
  }

  lemma ProvidesRange(sb: Super, fs: Fs, fs': Fs, k: nat, s: Slot, b: nat, slots: set<Slot>, delta: seq<nat>)
    requires Provides(sb, fs, fs', k, s, b, slots, delta)
    ensures 2 <= b < LogStart(sb)
  {
    hide At, Marks, Footprint, LogsGains;
    SlotInRange(sb, fs', k, s);
  }

  /** What came after the first |a| elements: some of them, then some more, then x. */
  lemma LaterThan<T>(a: seq<T>, b: seq<T>, c: seq<T>, x: T)
    requires a <= b <= c
    ensures (c + [x])[|a|..] == b[|a|..] + c[|b|..] + [x]
  {
  }

  lemma {:induction false} ProvidesOld(sb: Super, fs: Fs, k: nat, s: Slot)
    requires FsOk(sb, fs) && k < |fs.inodes| && IsSlot(s) && At(fs.blocks, fs.inodes[k], s) != 0
    ensures Provides(sb, fs, fs, k, s, At(fs.blocks, fs.inodes[k], s), Path(s), [])
  {
    hide At, IsSlot, Marks, HasChildren;
    ExtendsSelf(sb, fs, k);
    ExtendsMore(sb, fs, fs, k, {}, Path(s));
  }

  lemma ExtendsMore(sb: Super, fs: Fs, fs': Fs, k: nat, a: set<Slot>, b: set<Slot>)
    requires Extends(sb, fs, fs', k, a) && a <= b
    ensures Extends(sb, fs, fs', k, b)
  {
    hide FsOk, Marks, HasChildren;
  }

  /** What filling an empty slot logs: the bitmap sector, the new block and the index block. */
  function FillLog(sb: Super, fs: Fs, k: nat, s: Slot, f: nat): seq<nat>
    requires k < |fs.inodes| && |fs.inodes[k].addrs| == NADDRS && IsSlot(s)
  {
    [BBlock(sb, f), f] + if s.Root? then [] else [At(fs.blocks, fs.inodes[k], Parent(s))]
  }

  lemma {:induction false} ProvidesNew(sb: Super, fs: Fs, k: nat, s: Slot, f: nat)
    requires CanFill(sb, fs, k, s, f)
    ensures BBlock(sb, f) < |fs.blocks| && |fs.inodes[k].addrs| == NADDRS
    ensures Provides(sb, fs, Filled(sb, fs, k, s, f), k, s, f, Path(s), FillLog(sb, fs, k, s, f))
  {
    hide At, IsSlot, Marks, HasChildren, Owned, Exact, Allocated, PutBlocks, PutAddrs;
    FilledExtends(sb, fs, k, s, f);
    AllocatedOk(sb, fs, f);
    var fs' := Filled(sb, fs, k, s, f);
    ExtendsMore(sb, fs, fs', k, {s}, Path(s));
    if !s.Root? { GainsAt(sb, fs, fs', k, {s}, k, Parent(s)); }
    var xs := FillLog(sb, fs, k, s, f);
    assert forall i :: 0 <= i < |xs| ==> OfGain(sb, fs', k, f, xs[i]);
    assert LogsGain(sb, fs', k, f, FillLog(sb, fs, k, s, f));
  }

  /** The parent first, then the slot itself. */
  lemma {:induction false} ProvidesBoth(sb: Super, fs0: Fs, fs1: Fs, fs2: Fs, k: nat, s: Slot, p: nat, b: nat,
                                        xs: seq<nat>, ys: seq<nat>)
    requires IsSlot(s) && !s.Root?
    requires Provides(sb, fs0, fs1, k, Parent(s), p, Path(Parent(s)), xs)
    requires Provides(sb, fs1, fs2, k, s, b, Path(s), ys)
    ensures Provides(sb, fs0, fs2, k, s, b, Path(s), xs + ys)
  {
    hide At, Marks, HasChildren, FsOk, Footprint, LogsGains;
    ExtendsTwice(sb, fs0, fs1, fs2, k, Path(Parent(s)), Path(s));
    var none: set<Slot> := {};
    FootprintJoin(sb, fs0, fs1, fs2, k, Path(Parent(s)), Path(s), none, none, xs, ys);
    assert none + none == none;
    LogsGainsJoin(sb, fs0, fs1, fs2, k, Path(Parent(s)), Path(s), xs, ys);
    assert Path(Parent(s)) + Path(s) == Path(s);
    if At(fs0.blocks, fs0.inodes[k], s) != 0 {
      ParentThere(fs0, k, s);
    }
  }

  lemma {:induction false} ParentThere(fs: Fs, k: nat, s: Slot)
    requires k < |fs.inodes| && |fs.inodes[k].addrs| == NADDRS && IsSlot(s) && !s.Root?
    requires At(fs.blocks, fs.inodes[k], s) != 0
    ensures At(fs.blocks, fs.inodes[k], Parent(s)) != 0
  {
  }

  lemma {:induction false} AtWord(sb: Super, fs: Fs, k: nat, s: Slot, p: nat)
    requires FsOk(sb, fs) && k < |fs.inodes| && IsSlot(s) && !s.Root?
    requires p == At(fs.blocks, fs.inodes[k], Parent(s)) != 0
    ensures 2 <= p < LogStart(sb) <= |fs.blocks| && At(fs.blocks, fs.inodes[k], s) == Word(fs.blocks[p], s.j)
  {
    SlotInRange(sb, fs, k, Parent(s));
  }

  /** Filling a slot of index block p, spelled out. */
  lemma FilledWord(sb: Super, fs: Fs, k: nat, s: Slot, f: nat, p: nat)
    requires CanFill(sb, fs, k, s, f) && !s.Root? && p == At(fs.blocks, fs.inodes[k], Parent(s))
    ensures BBlock(sb, f) < |fs.blocks| && p < |fs.blocks| && |fs.inodes[k].addrs| == NADDRS && f < WORD_LIMIT
    ensures var blocks' := Allocated(sb, fs.blocks, f);
            Filled(sb, fs, k, s, f)
              == Fs(blocks'[p := SetWord(blocks'[p], s.j, f)], fs.inodes, fs.owner[f := Owner(k, s)])
  {
    hide At, IsSlot, Marks, HasChildren, Owned, Exact, Allocated, SetWord;
    AllocatedOk(sb, fs, f);
    SlotInRange(sb, fs, k, Parent(s));
    assert At(Allocated(sb, fs.blocks, f), fs.inodes[k], Parent(s)) == p;
    assert fs.inodes[k := fs.inodes[k]] == fs.inodes;
  }

  lemma RootAt(fs: Fs, k: nat, i: nat)
    requires k < |fs.inodes| && |fs.inodes[k].addrs| == NADDRS && i < NADDRS
    ensures IsSlot(Root(i)) && At(fs.blocks, fs.inodes[k], Root(i)) == fs.inodes[k].addrs[i]
  {
  }
}
