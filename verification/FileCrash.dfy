/** filewrite over the redo log: what a crash anywhere in it leaves behind. */
module FileCrash {
  import opened Blocks
  import opened Bitmap
  import opened FsIndex
  import opened FsState
  import opened FsLog
  import opened FsWrite
  import opened FsSpace
  import opened FsSync
  import opened FsLayout
  import opened TxBound
  import opened FileWrite
  import opened LogSpec
  import Dinode

  /** The sectors before the log. */
  function Home(sb: Super, fs: Fs): seq<Block> {
    if 0 <= LogStart(sb) <= |fs.blocks| then fs.blocks[..LogStart(sb)] else fs.blocks
  }

  /** Nothing writei logs is the boot sector, the superblock or a sector of the log. */
  lemma LogsHome(sb: Super, fs0: Fs, fs: Fs, k: nat, off: nat, n: nat, xs: seq<nat>, i: nat)
    requires FsOk(sb, fs) && WriteLogs(sb, fs0, fs, k, off, n, xs) && i < |xs|
    ensures 2 <= xs[i] < LogStart(sb)
  {
    var slots := ContentSlots(off / BSIZE, LastBlock(off, n));
    if xs[i] == IBlock(k) {
      InodeBlock(sb, fs, k);
    } else {
      assert InFootprint(sb, fs0, fs, k, slots, xs[i]) by {
        hide FsOk, At, InFootprint, LogsGains, ContentSlots, LastBlock, SlotOf;
      }
      FootprintRange(sb, fs0, fs, k, slots, xs[i]);
    }
  }

  lemma {:induction false} RedoHome(blocks: seq<Block>, us: seq<Update>, n: nat, j: nat)
    requires Within(us, n) && n <= |blocks| && j <= |us|
    ensures Within(us, |blocks|) && Redo(blocks[..n], us, j) == Redo(blocks, us, j)[..n]
  {
    if j > 0 { RedoHome(blocks, us, n, j - 1); }
  }

  /** On the home sectors a chunk is its log_write calls. */
  lemma TxHome(sb: Super, k: nat, t: Tx)
    requires TxOk(sb, k, t)
    ensures Within(t.us, |Home(sb, t.before)|) && RedoAll(Home(sb, t.before), t.us) == Home(sb, t.after)
  {
    hide AllSynced, WriteLogs, Content, AllHoleFree, Overwrite, Grows, Paths, FsOk;
    FsSizes(sb, t.before);
    FsSizes(sb, t.after);
    forall i | 0 <= i < |t.us| ensures 2 <= t.us[i].sector < LogStart(sb) {
      LogsHome(sb, t.before, t.after, k, t.off, |t.src|, t.logged, i);
    }
    RedoHome(t.before.blocks, t.us, LogStart(sb), |t.us|);
  }

  /** A chunk leaves the boot sector and the superblock alone. */
  lemma TxBoot(sb: Super, k: nat, t: Tx, x: nat)
    requires TxOk(sb, k, t) && x < 2
    ensures x < |Home(sb, t.before)| == |Home(sb, t.after)| && Home(sb, t.after)[x] == Home(sb, t.before)[x]
  {
    hide AllSynced, WriteLogs, Content, AllHoleFree, Overwrite, Grows, Paths, FsOk, Traced;
    FsSizes(sb, t.before);
    FsSizes(sb, t.after);
    forall i | 0 <= i < |t.logged| ensures 2 <= t.logged[i] < LogStart(sb) {
      LogsHome(sb, t.before, t.after, k, t.off, |t.src|, t.logged, i);
    }
    BootKept(sb, t.before.blocks, t.us, t.logged, t.after.blocks, x);
  }

  lemma {:induction false} ChainBoot(sb: Super, k: nat, fs0: Fs, off: nat, data: seq<Byte>, txs: seq<Tx>, p: nat,
                                     x: nat)
    requires FsOk(sb, fs0) && Chain(sb, k, fs0, off, data, txs) && p <= |txs| && x < 2
    ensures x < |Home(sb, fs0)| == |Home(sb, After(fs0, txs, p))|
    ensures Home(sb, After(fs0, txs, p))[x] == Home(sb, fs0)[x]
  {
    hide TxOk, Chain, Taken, FsOk;
    if p == 0 {
      FsSizes(sb, fs0);
    } else {
      ChainBoot(sb, k, fs0, off, data, txs, p - 1, x);
      ChainLink(sb, k, fs0, off, data, txs, p);
      TxBoot(sb, k, txs[p - 1], x);
    }
  }

  /** A chunk of filewrite panics in log_write exactly when it is too big a transaction in the state before it. */
  lemma TxExact(sb: Super, k: nat, t: Tx)
    requires TxOk(sb, k, t)
    ensures k < |t.before.inodes| && |t.before.inodes[k].addrs| == NADDRS && t.off + |t.src| <= MAXBYTES
    ensures LogAll(ROOM, t.us).panicked <==> TooBig(sb, t.before, k, t.off, |t.src|)
  {
    hide AllSynced, WriteLogs, Wrote, TooBig, LogFirst;
    ChunkExact(sb, t.before, t.after, k, t.off, t.src, t.logged, t.us);
  }

  /** On a disk of at most 4096 blocks none ever is. */
  lemma FilewriteFits(sb: Super, k: nat, fs0: Fs, off: nat, data: seq<Byte>, txs: seq<Tx>, i: nat)
    requires Chain(sb, k, fs0, off, data, txs) && i < |txs| && sb.size <= BPB
    ensures !LogAll(ROOM, txs[i].us).panicked
  {
    hide Chain, LogFirst, TooBig, TxOk;
    ChainLink(sb, k, fs0, off, data, txs, i + 1);
    var t := txs[i];
    TxExact(sb, k, t);
    assert |t.src| <= CHUNK by { TxSize(sb, k, t); }
    OneBitmap(sb, t.before.blocks, |EmptySlots(t.before, k, Paths(t.off / BSIZE, LastBlock(t.off, |t.src|)))|);
    ChunkFits(sb, t.before, k, t.off, |t.src|);
  }

  lemma TxSize(sb: Super, k: nat, t: Tx)
    requires TxOk(sb, k, t)
    ensures |t.src| <= CHUNK
  {
  }

  /** A run of filewrite's transactions, of which only the last can fail to complete, and then reboots. */
  ghost predicate ChunkRun(txs: seq<Tx>, ms: seq<Machine>, es: seq<Event>, m: nat) {
    && IsRun(ms, es) && ms[0].Up? && m <= |txs| && m <= |es|
    && (forall i :: 0 <= i < m ==> es[i].Tx? && es[i].us == txs[i].us)
    && forall i :: m <= i < |es| ==> es[i].Boot?
  }

  /** After q events recovery shows p whole chunks; all of them, while the machine stays up. */
  ghost predicate Shows(sb: Super, fs0: Fs, txs: seq<Tx>, m: nat, machine: Machine, q: nat, p: nat) {
    && MachineOk(machine) && p <= m <= |txs| && p <= q
    && Recovered(machine.disk).home == Home(sb, After(fs0, txs, p))
    && (q <= m && machine.Up? ==> p == q)
  }

  lemma ChunkStep(sb: Super, k: nat, fs0: Fs, txs: seq<Tx>, m: nat, machine: Machine, e: Event, q: nat,
                  p: nat) returns (p': nat)
    requires Shows(sb, fs0, txs, m, machine, q, p) && q < m
    requires e.Tx? && e.us == txs[q].us && Enabled(machine, e)
    requires TxOk(sb, k, txs[q]) && txs[q].before == After(fs0, txs, q)
    ensures Shows(sb, fs0, txs, m, Step(machine, e), q + 1, p')
  {
    hide Recovered, Home, TxOk, LogFirst, Redo, Apply, WellFormed;
    TxHome(sb, k, txs[q]);
    StepRefines(machine, e);
    p' := if Commits(|machine.disk.area|, e) || e.us == [] then q + 1 else p;
    if e.us == [] { RedoNothing(Home(sb, txs[q].before)); }
  }

  lemma RedoNothing(home: seq<Block>)
    ensures RedoAll(home, []) == home
  {
  }

  lemma BootStep(sb: Super, fs0: Fs, txs: seq<Tx>, m: nat, machine: Machine, e: Event, q: nat, p: nat)
    requires Shows(sb, fs0, txs, m, machine, q, p) && m <= q && e.Boot?
    ensures Shows(sb, fs0, txs, m, Step(machine, e), q + 1, p)
  {
    hide Recovered, Home, LogFirst, Redo, Apply, WellFormed, Step;
    StepRefines(machine, e);
  }

  lemma {:induction false} ChunksCommitted(sb: Super, k: nat, fs0: Fs, off: nat, data: seq<Byte>, txs: seq<Tx>,
                                           ms: seq<Machine>, es: seq<Event>, m: nat, q: nat) returns (p: nat)
    requires Chain(sb, k, fs0, off, data, txs) && ChunkRun(txs, ms, es, m) && q <= |es|
    requires ms[0].disk.home == Home(sb, fs0)
    ensures Shows(sb, fs0, txs, m, ms[q], q, p)
  {
    hide Chain, Step, Recovered, Home, Apply, Shows, Enabled;
    if q == 0 {
      ShowsStart(sb, fs0, txs, m, ms[0]);
      p := 0;
    } else {
      p := ChunksCommitted(sb, k, fs0, off, data, txs, ms, es, m, q - 1);
      assert Enabled(ms[q - 1], es[q - 1]) && ms[q - 1 + 1] == Step(ms[q - 1], es[q - 1]);
      if q <= m {
        ChainLink(sb, k, fs0, off, data, txs, q);
        p := ChunkStep(sb, k, fs0, txs, m, ms[q - 1], es[q - 1], q - 1, p);
      } else {
        BootStep(sb, fs0, txs, m, ms[q - 1], es[q - 1], q - 1, p);
      }
    }
  }

  lemma ShowsStart(sb: Super, fs0: Fs, txs: seq<Tx>, m: nat, machine: Machine)
    requires MachineOk(machine) && machine.Up? && m <= |txs| && machine.disk.home == Home(sb, fs0)
    ensures Shows(sb, fs0, txs, m, machine, 0, 0)
  {
    NothingPending(machine.disk);
  }

  lemma {:induction false} ChainSynced(sb: Super, k: nat, fs0: Fs, off: nat, data: seq<Byte>, txs: seq<Tx>, p: nat)
    requires Chain(sb, k, fs0, off, data, txs) && p <= |txs| && AllSynced(fs0)
    ensures AllSynced(After(fs0, txs, p))
  {
    hide Wrote, WriteLogs, Traced, Chain, Taken, AllSynced;
    if p > 0 {
      ChainSynced(sb, k, fs0, off, data, txs, p - 1);
      ChainLink(sb, k, fs0, off, data, txs, p);
    }
  }

  /** Wherever power fails in filewrite, and in any recovery after it, the recovered disk is that of the file
      holding the data up to the end of some chunk, with every other file as before; the inodes can be read
      back from it, as far as ilock reads them, and sectors 0 and 1 are untouched. */
  lemma CrashInFilewrite(sb: Super, k: nat, fs0: Fs, off: nat, data: seq<Byte>, txs: seq<Tx>,
                         ms: seq<Machine>, es: seq<Event>, m: nat, q: nat) returns (p: nat)
    requires Writable(sb, fs0, k, off) && AllSynced(fs0) && Chain(sb, k, fs0, off, data, txs)
    requires ChunkRun(txs, ms, es, m) && q <= |es| && ms[0].disk.home == Home(sb, fs0)
    ensures p <= m && p <= q && (q <= m && ms[q].Up? ==> p == q) && MachineOk(ms[q])
    ensures var home, fs := Recovered(ms[q].disk).home, After(fs0, txs, p);
            && home == Home(sb, fs) && Holds(sb, fs0, fs, k, Overwrite(Content(fs0, k), off, data[..Taken(|data|, p)]))
            && (forall i :: 0 <= i < |fs.inodes| ==> OnDisk(home, i, fs.inodes[i]))
            && forall x :: 0 <= x < 2 ==> x < |home| && x < |ms[0].disk.home| && home[x] == ms[0].disk.home[x]
  {
    p := ChunksCommitted(sb, k, fs0, off, data, txs, ms, es, m, q);
    hide Chain, ChunkRun, Content, Overwrite, AllHoleFree, Recovered, FsOk, AllSynced, OnDisk, Home, Holds;
    ChainHolds(sb, k, fs0, off, data, txs, p);
    ChainSynced(sb, k, fs0, off, data, txs, p);
    SyncedHome(sb, After(fs0, txs, p));
    forall x | 0 <= x < 2
      ensures x < |Home(sb, fs0)| == |Home(sb, After(fs0, txs, p))|
              && Home(sb, After(fs0, txs, p))[x] == Home(sb, fs0)[x]
    {
      ChainBoot(sb, k, fs0, off, data, txs, p, x);
    }
  }

  lemma SyncedHome(sb: Super, fs: Fs)
    requires FsOk(sb, fs) && AllSynced(fs)
    ensures forall i :: 0 <= i < |fs.inodes| ==> OnDisk(Home(sb, fs), i, fs.inodes[i])
  {
    hide FsOk, Dinode.GetDinode, MetaEnd, OnDisk;
    MetaHome(sb, fs);
    forall i | 0 <= i < |fs.inodes| ensures OnDisk(Home(sb, fs), i, fs.inodes[i]) {
      assert Synced(fs.blocks, fs.inodes[i], i);
      InodeBlock(sb, fs, i);
      InodeStorable(sb, fs, i);
      SyncedBytes(Home(sb, fs), i, fs.inodes[i]);
    }
  }

  lemma MetaHome(sb: Super, fs: Fs)
    requires FsOk(sb, fs)
    ensures sb.ninodes / IPB + 3 <= LogStart(sb) <= |fs.blocks|
  {
  }
}
