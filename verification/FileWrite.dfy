/** filewrite (file.c:117-155) on an inode: one bounded transaction per chunk. */
module FileWrite {
  import opened Blocks
  import opened FsIndex
  import opened FsState
  import opened FsLog
  import opened FsWrite
  import opened FsSpace
  import opened FsSync
  import opened FileSys
  import opened TxBound
  import LogSpec

  datatype Result = Ok | Failed | DiskFull | LogSpoiled

  /** A transaction: the states around its writei, what it wrote where, and its log_write calls. */
  datatype Tx = Tx(before: Fs, after: Fs, off: nat, src: seq<Byte>, logged: seq<nat>, us: seq<LogSpec.Update>)

  ghost predicate TxOk(sb: Super, k: nat, t: Tx) {
    && |t.src| <= CHUNK && Wrote(sb, t.before, t.after, k, t.off, t.src)
    && WriteLogs(sb, t.before, t.after, k, t.off, |t.src|, t.logged)
    && Traced(t.before.blocks, t.us, t.logged, t.after.blocks)
    && (AllSynced(t.before) ==> AllSynced(t.after))
  }

  // -------- A run of chunks --------

  /** The state after the first p transactions. */
  ghost function After(fs0: Fs, txs: seq<Tx>, p: nat): Fs
    requires p <= |txs|
  {
    if p == 0 then fs0 else txs[p - 1].after
  }

  /** How many of n bytes p chunks cover. */
  function Taken(n: nat, p: nat): (r: nat)
    ensures r <= n
  {
    if p * CHUNK < n then p * CHUNK else n
  }

  lemma TakenStart(n: nat)
    ensures Taken(n, 0) == 0
  {
  }

  /** The transactions write the chunks of data one after the other, from off on, each from the state the
      one before it left. */
  ghost predicate Chain(sb: Super, k: nat, fs0: Fs, off: nat, data: seq<Byte>, txs: seq<Tx>) {
    forall i :: 0 <= i < |txs| ==> Link(sb, k, After(fs0, txs, i), off, data, i, txs[i])
  }

  /** Transaction number i, started in the given state. */
  ghost predicate Link(sb: Super, k: nat, fs: Fs, off: nat, data: seq<Byte>, i: nat, t: Tx) {
    && i * CHUNK < |data| && t.before == fs
    && t.off == off + i * CHUNK && t.src == data[i * CHUNK..Taken(|data|, i + 1)]
    && TxOk(sb, k, t)
  }

  lemma LinkDone(sb: Super, k: nat, fs: Fs, off: nat, data: seq<Byte>, i: nat, t: Tx)
    requires t.before == fs && Taken(|data|, i) < |data| && t.off == off + Taken(|data|, i)
    requires t.src == data[Taken(|data|, i)..Taken(|data|, i + 1)] && Wrote(sb, t.before, t.after, k, t.off, t.src)
    requires WriteLogs(sb, t.before, t.after, k, t.off, |t.src|, t.logged)
    requires Traced(t.before.blocks, t.us, t.logged, t.after.blocks) && (AllSynced(t.before) ==> AllSynced(t.after))
    ensures Link(sb, k, fs, off, data, i, t)
  {
    hide Wrote, WriteLogs, Traced, AllSynced;
  }

  /** Everything the first p transactions logged, in order. */
  function Logs(txs: seq<Tx>, p: nat): seq<nat>
    requires p <= |txs|
  {
    if p == 0 then [] else Logs(txs, p - 1) + txs[p - 1].logged
  }

  lemma LogsNext(txs: seq<Tx>, t: Tx)
    ensures Logs(txs + [t], |txs| + 1) == Logs(txs, |txs|) + t.logged
  {
    LogsPrefix(txs, t, |txs|);
  }

  lemma {:induction false} LogsPrefix(txs: seq<Tx>, t: Tx, p: nat)
    requires p <= |txs|
    ensures Logs(txs + [t], p) == Logs(txs, p)
  {
    if p > 0 { LogsPrefix(txs, t, p - 1); }
  }

  lemma ChainNext(sb: Super, k: nat, fs0: Fs, off: nat, data: seq<Byte>, txs: seq<Tx>, t: Tx)
    requires Chain(sb, k, fs0, off, data, txs) && Link(sb, k, After(fs0, txs, |txs|), off, data, |txs|, t)
    ensures Chain(sb, k, fs0, off, data, txs + [t])
  {
    hide Link, After;
    var more := txs + [t];
    forall i | 0 <= i < |more| ensures Link(sb, k, After(fs0, more, i), off, data, i, more[i]) {
      AfterNext(fs0, txs, t, i);
      if i < |txs| { assert Link(sb, k, After(fs0, txs, i), off, data, i, txs[i]); }
    }
  }

  lemma AfterNext(fs0: Fs, txs: seq<Tx>, t: Tx, i: nat)
    requires i <= |txs|
    ensures After(fs0, txs + [t], i) == After(fs0, txs, i) && After(fs0, txs + [t], |txs| + 1) == t.after
  {
  }

  /** Transaction p - 1 writes the bytes after those of the ones before it. */
  lemma ChainLink(sb: Super, k: nat, fs0: Fs, off: nat, data: seq<Byte>, txs: seq<Tx>, p: nat)
    requires Chain(sb, k, fs0, off, data, txs) && 0 < p <= |txs|
    ensures var t := txs[p - 1];
            && TxOk(sb, k, t) && t.before == After(fs0, txs, p - 1) && t.after == After(fs0, txs, p)
            && t.off == off + Taken(|data|, p - 1) && Taken(|data|, p - 1) + |t.src| == Taken(|data|, p)
            && data[..Taken(|data|, p - 1)] + t.src == data[..Taken(|data|, p)]
  {
    hide TxOk;
    assert Link(sb, k, After(fs0, txs, p - 1), off, data, p - 1, txs[p - 1]);
    assert data[..Taken(|data|, p - 1)] + txs[p - 1].src == data[..Taken(|data|, p)];
  }

  lemma OverwriteTwice(c: seq<Byte>, off: nat, a: seq<Byte>, b: seq<Byte>)
    requires off <= |c|
    ensures Overwrite(Overwrite(c, off, a), off + |a|, b) == Overwrite(c, off, a + b)
  {
  }

  lemma OverwriteNothing(c: seq<Byte>, off: nat)
    requires off <= |c|
    ensures Overwrite(c, off, []) == c
  {
  }

  /** Every file but k, and every inode but k's size and slots, is as before; file k holds c. */
  ghost predicate Holds(sb: Super, fs0: Fs, fs: Fs, k: nat, c: seq<Byte>) {
    && FsOk(sb, fs) && AllHoleFree(fs) && k < |fs.inodes| == |fs0.inodes|
    && Content(fs, k) == c
    && forall i :: 0 <= i < |fs.inodes| && i != k ==>
         && fs.inodes[i] == fs0.inodes[i] && |fs0.inodes[i].addrs| == NADDRS && fs0.inodes[i].size <= MAXBYTES
         && Content(fs, i) == Content(fs0, i)
  }

  /** The file can be written at off. */
  ghost predicate Writable(sb: Super, fs: Fs, k: nat, off: nat) {
    && FsOk(sb, fs) && AllHoleFree(fs) && k < |fs.inodes|
    && |fs.inodes[k].addrs| == NADDRS && off <= fs.inodes[k].size <= MAXBYTES
  }

  lemma HoldsStart(sb: Super, fs: Fs, k: nat, off: nat)
    requires Writable(sb, fs, k, off)
    ensures Holds(sb, fs, fs, k, Overwrite(Content(fs, k), off, []))
  {
    OverwriteNothing(Content(fs, k), off);
  }

  lemma HoldsNext(sb: Super, fs0: Fs, fs: Fs, fs': Fs, k: nat, c: seq<Byte>, off: nat, a: seq<Byte>, b: seq<Byte>)
    requires off <= |c| && Holds(sb, fs0, fs, k, Overwrite(c, off, a)) && Wrote(sb, fs, fs', k, off + |a|, b)
    ensures Holds(sb, fs0, fs', k, Overwrite(c, off, a + b))
  {
    hide FsOk, Content, Overwrite, AllHoleFree, Grows;
    OverwriteTwice(c, off, a, b);
  }

  /** After p chunks the file holds that much of the data, and nothing else has changed. */
  lemma {:induction false} ChainHolds(sb: Super, k: nat, fs0: Fs, off: nat, data: seq<Byte>, txs: seq<Tx>, p: nat)
    requires Writable(sb, fs0, k, off) && Chain(sb, k, fs0, off, data, txs) && p <= |txs|
    ensures Holds(sb, fs0, After(fs0, txs, p), k, Overwrite(Content(fs0, k), off, data[..Taken(|data|, p)]))
    ensures Writable(sb, After(fs0, txs, p), k, off + Taken(|data|, p))
  {
    hide FsOk, Content, Overwrite, AllHoleFree, Wrote, WriteLogs, Traced, AllSynced, Holds, Chain, Taken;
    TakenStart(|data|);
    if p == 0 {
      HoldsStart(sb, fs0, k, off);
      assert data[..0] == [];
    } else {
      ChainHolds(sb, k, fs0, off, data, txs, p - 1);
      ChainLink(sb, k, fs0, off, data, txs, p);
      var t, n := txs[p - 1], Taken(|data|, p - 1);
      HoldsNext(sb, fs0, t.before, t.after, k, Content(fs0, k), off, data[..n], t.src);
    }
    HoldsWritable(sb, fs0, After(fs0, txs, p), k, Content(fs0, k), off, data[..Taken(|data|, p)]);
  }

  lemma HoldsWritable(sb: Super, fs0: Fs, fs: Fs, k: nat, c: seq<Byte>, off: nat, a: seq<Byte>)
    requires off <= |c| && Holds(sb, fs0, fs, k, Overwrite(c, off, a))
    ensures Writable(sb, fs, k, off + |a|)
  {
    hide FsOk, Overwrite;
  }

  /** All blocks gained on the way went into slots on the way to the bytes written. */
  lemma {:induction false} ChainGrows(sb: Super, k: nat, fs0: Fs, off: nat, data: seq<Byte>, txs: seq<Tx>, p: nat)
    requires Writable(sb, fs0, k, off) && Chain(sb, k, fs0, off, data, txs) && p <= |txs|
    ensures off + Taken(|data|, p) <= MAXBYTES
    ensures Grows(sb, fs0, After(fs0, txs, p), k, Paths(off / BSIZE, LastBlock(off, Taken(|data|, p))))
  {
    hide FsOk, Content, Overwrite, AllHoleFree, WriteLogs, Traced, AllSynced, Holds, Paths, LastBlock, Marks, Grows,
        Chain, Taken;
    TakenStart(|data|);
    if p == 0 {
      GrowsSelf(sb, fs0, k, Paths(off / BSIZE, LastBlock(off, Taken(|data|, 0))));
    } else {
      ChainGrows(sb, k, fs0, off, data, txs, p - 1);
      ChainLink(sb, k, fs0, off, data, txs, p);
      var t := txs[p - 1];
      ChunkSlots(off, Taken(|data|, p - 1), |t.src|);
      GrowsTwice(sb, fs0, t.before, t.after, k, Paths(off / BSIZE, LastBlock(off, Taken(|data|, p - 1))),
                 Paths(t.off / BSIZE, LastBlock(t.off, |t.src|)), Paths(off / BSIZE, LastBlock(off, Taken(|data|, p))));
    }
  }

  /** The slots for n bytes and for the next m of them are slots for n + m bytes. */
  lemma ChunkSlots(off: nat, n: nat, m: nat)
    requires off + n + m <= MAXBYTES
    ensures Paths(off / BSIZE, LastBlock(off, n)) <= Paths(off / BSIZE, LastBlock(off, n + m))
    ensures Paths((off + n) / BSIZE, LastBlock(off + n, m)) <= Paths(off / BSIZE, LastBlock(off, n + m))
  {
    hide Paths;
    PathsMore(off / BSIZE, LastBlock(off, n), LastBlock(off, n + m));
    if m > 0 {
      PathsWider((off + n) / BSIZE, off / BSIZE, LastBlock(off + n, m));
    } else {
      PathsNone((off + n) / BSIZE);
    }
  }

  /** A finished run has found a block for every empty slot. */
  lemma ChainRoom(sb: Super, k: nat, fs0: Fs, off: nat, data: seq<Byte>, txs: seq<Tx>, p: nat)
    requires Writable(sb, fs0, k, off) && Chain(sb, k, fs0, off, data, txs) && p <= |txs|
    ensures off + Taken(|data|, p) <= MAXBYTES
    ensures Room(sb, fs0, k, Paths(off / BSIZE, LastBlock(off, Taken(|data|, p))))
  {
    hide FsOk, Content, Overwrite, AllHoleFree, TxOk, Chain, Holds, Paths, LastBlock, Marks, Grows;
    ChainGrows(sb, k, fs0, off, data, txs, p);
    ChainHolds(sb, k, fs0, off, data, txs, p);
    RangeThere(After(fs0, txs, p), k, off, Taken(|data|, p));
    FilledRoom(sb, fs0, After(fs0, txs, p), k, Paths(off / BSIZE, LastBlock(off, Taken(|data|, p))));
  }

  /** A run that got stuck in its next chunk would have needed more blocks than there were. */
  lemma ChainShort(sb: Super, k: nat, fs0: Fs, off: nat, data: seq<Byte>, txs: seq<Tx>, fs: Fs, m: nat, n: nat)
    requires Writable(sb, fs0, k, off) && Chain(sb, k, fs0, off, data, txs)
    requires Taken(|data|, |txs|) + m <= n && off + n <= MAXBYTES
    requires var at := off + Taken(|data|, |txs|);
             Stuck(sb, After(fs0, txs, |txs|), fs, k, Paths(at / BSIZE, LastBlock(at, m)))
    ensures !Room(sb, fs0, k, Paths(off / BSIZE, LastBlock(off, n)))
    ensures LogOpen(sb, After(fs0, txs, |txs|).blocks) == LogOpen(sb, fs0.blocks)
  {
    hide FsOk, AllHoleFree, Chain, Paths, LastBlock, Marks, Grows, LogOpen, Room, FreeBlocks, At, IsSlot;
    var i, mid := Taken(|data|, |txs|), After(fs0, txs, |txs|);
    ChainGrows(sb, k, fs0, off, data, txs, |txs|);
    var a, b, c := Paths(off / BSIZE, LastBlock(off, i)), Paths((off + i) / BSIZE, LastBlock(off + i, m)),
        Paths(off / BSIZE, LastBlock(off, i + m));
    ChunkSlots(off, i, m);
    ChunkSlots(off, i + m, n - i - m);
    GrowsLog(sb, fs0, mid, k, a);
    GrowsTwice(sb, fs0, mid, fs, k, a, b, c);
    GrowsSized(sb, mid, fs, k, b);
    assert EmptySlots(fs, k, b) <= EmptySlots(fs, k, c);
    StuckNoRoom(sb, fs0, fs, k, c, Paths(off / BSIZE, LastBlock(off, n)));
  }

  /** The bytes filewrite gets to before writei refuses a chunk: all of them, or the whole chunks that end
      within MAXFILE blocks. */
  function Fitting(off: nat, n: nat): (m: nat)
    requires off <= MAXBYTES
    ensures off + m <= MAXBYTES && m <= n
  {
    if off + n <= MAXBYTES then n else (MAXBYTES - off) / CHUNK * CHUNK
  }

  /** The next chunk after p of them, of n bytes in all. */
  lemma NextChunk(off: nat, n: nat, p: nat, m: nat)
    requires off <= MAXBYTES && Taken(n, p) < n && Taken(n, p) <= Fitting(off, n)
    requires m == if n - Taken(n, p) > CHUNK then CHUNK else n - Taken(n, p)
    ensures Taken(n, p) == p * CHUNK && Taken(n, p + 1) == Taken(n, p) + m
    ensures off + Taken(n, p) + m < WORD_LIMIT
    ensures off + Taken(n, p) + m <= MAXBYTES ==> Taken(n, p + 1) <= Fitting(off, n)
    ensures off + Taken(n, p) + m > MAXBYTES ==> Taken(n, p) == Fitting(off, n) && off + n > MAXBYTES
  {
  }

  /** Filewrite comes to an end, of either kind, exactly when there is a free block for every empty slot on
      the way to the bytes that fit. The file then holds those bytes and the offset is past them; it reports
      failure exactly when they are not all. Every chunk is a transaction of its own. */
  method Filewrite(fs: FileSystem, k: nat, data: seq<Byte>, off: nat)
    returns (r: Result, off': nat, ghost txs: seq<Tx>)
    requires fs.Valid() && fs.Tracked() && Writable(fs.sb, fs.State(), k, off)
    modifies fs
    ensures Chain(fs.sb, k, old(fs.State()), off, data, txs)
    ensures r.Ok? || r.Failed? <==>
            Room(fs.sb, old(fs.State()), k, Paths(off / BSIZE, LastBlock(off, Fitting(off, |data|))))
    ensures r.Ok? || r.Failed? ==>
              && fs.State() == After(old(fs.State()), txs, |txs|) && fs.logged == old(fs.logged) + Logs(txs, |txs|)
              && Taken(|data|, |txs|) == Fitting(off, |data|) && off' == off + Fitting(off, |data|)
              && Holds(fs.sb, old(fs.State()), fs.State(), k,
                       Overwrite(old(Content(fs.State(), k)), off, data[..Fitting(off, |data|)]))
              && (r.Ok? <==> off + |data| <= MAXBYTES)
    ensures r.DiskFull? || r.LogSpoiled? ==>
              && old(fs.logged) + Logs(txs, |txs|) <= fs.logged && off' == off + Taken(|data|, |txs|)
              && (r.LogSpoiled? <==> LogOpen(fs.sb, old(fs.blocks)))
  {
    hide FsOk, AllHoleFree, Content, Overwrite, Wrote, WriteLogs, Chain, Holds, Paths, LastBlock, Room, Stuck,
        LogOpen, Traced, AllSynced, Taken, Fitting, TxOk, Link, After, Logs;
    TakenStart(|data|);
    ghost var fs0 := fs.State();
    var i := 0;
    off' := off;
    txs := [];
    ChainStart(fs.sb, k, fs0, off, data);
    while i < |data|
      invariant i == Taken(|data|, |txs|) <= Fitting(off, |data|) && off' == off + i
      invariant Chain(fs.sb, k, fs0, off, data, txs) && fs.State() == After(fs0, txs, |txs|)
      invariant fs.Tracked() && fs.logged == old(fs.logged) + Logs(txs, |txs|)
    {
      var n1 := |data| - i;
      if n1 > CHUNK {
        n1 := CHUNK;
      }
      ghost var before, logged, updates := fs.State(), fs.logged, fs.updates;
      ChainHolds(fs.sb, k, fs0, off, data, txs, |txs|);
      NextChunk(off, |data|, |txs|, n1);
      var w := fs.Writei(k, data[i..i + n1], off');
      match w {
        case Refused =>
          ChainRoom(fs.sb, k, fs0, off, data, txs, |txs|);
          return Failed, off', txs;
        case Panicked =>
          ChainShort(fs.sb, k, fs0, off, data, txs, fs.State(), n1, Fitting(off, |data|));
          return DiskFull, off', txs;
        case LogTaken =>
          ChainShort(fs.sb, k, fs0, off, data, txs, fs.State(), n1, Fitting(off, |data|));
          return LogSpoiled, off', txs;
        case Count(n) =>
          ghost var t := Tx(before, fs.State(), off', data[i..i + n1], fs.logged[|logged|..], fs.updates[|updates|..]);
          LinkDone(fs.sb, k, before, off, data, |txs|, t);
          ChainNext(fs.sb, k, fs0, off, data, txs, t);
          AfterNext(fs0, txs, t, |txs|);
          LogsNext(txs, t);
          txs := txs + [t];
          off', i := off' + n, i + n;
      }
    }
    ChainHolds(fs.sb, k, fs0, off, data, txs, |txs|);
    ChainRoom(fs.sb, k, fs0, off, data, txs, |txs|);
    return Ok, off', txs;
  }

  lemma ChainStart(sb: Super, k: nat, fs: Fs, off: nat, data: seq<Byte>)
    ensures Chain(sb, k, fs, off, data, []) && After(fs, [], 0) == fs && Logs([], 0) == []
  {
  }
}
