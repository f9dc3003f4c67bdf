/** Block allocation and inode content: balloc, bmap, readi and writei of fs.c.

    `blocks` is what bread shows of each sector; log_write replaces a sector and is recorded.
    Inodes are locked and in memory, numbered by their inum; none is a device. */
module FileSys {
  import opened Blocks
  import opened Bitmap
  import opened FsIndex
  import opened FsState
  import opened FsLog
  import opened FsWrite
  import opened FsSpace
  import opened FsSync
  import opened FsTrunc
  import opened Dinode
  import opened FsLayout
  import LogSpec

  /** LogTaken: a block was needed, and balloc handed out a sector of the log. */
  datatype Written = Count(n: nat) | Refused | Panicked | LogTaken

  datatype Read = Bytes(data: seq<Byte>) | NotRead

  class FileSystem {
    const sb: Super
    var blocks: seq<Block>
    var inodes: seq<Inode>
    ghost var owner: map<nat, Owner>
    ghost var logged: seq<nat>
    ghost var updates: seq<LogSpec.Update>
    ghost const origin: seq<Block>

    ghost function State(): Fs
      reads this
    {
      Fs(blocks, inodes, owner)
    }

    ghost predicate Valid()
      reads this
    {
      FsOk(sb, State())
    }

    /** `logged` and `updates` are the log_write calls so far, and replaying them gives the sectors. They name
        neither the boot sector nor the superblock nor a sector of the log. */
    ghost predicate Tracked()
      reads this
    {
      Traced(origin, updates, logged, blocks) && Apart(sb, logged)
    }

    /** Along every run of the operations below, sectors 0 and 1 and the log stay what they were. */
    lemma SuperKept(x: nat)
      requires Tracked() && x < |origin| && (x < 2 || x >= LogStart(sb))
      ensures |blocks| == |origin| && blocks[x] == origin[x]
    {
      BootKept(sb, origin, updates, logged, blocks, x);
    }

    constructor (sb: Super, blocks: seq<Block>, inodes: seq<Inode>, ghost owner: map<nat, Owner>)
      requires FsOk(sb, Fs(blocks, inodes, owner))
      ensures Valid() && Tracked() && this.sb == sb && State() == Fs(blocks, inodes, owner) && logged == []
    {
      this.sb, this.blocks, this.inodes, this.owner, logged := sb, blocks, inodes, owner, [];
      origin, updates := blocks, [];
    }

    /** log_write of a modified buffer. */
    method LogWrite(sector: nat, data: Block)
      requires sector < |blocks| && 2 <= sector < LogStart(sb)
      requires Tracked()
      modifies `blocks, `logged, `updates
      ensures Tracked() && old(updates) <= updates
      ensures blocks == old(blocks)[sector := data] && logged == old(logged) + [sector]
      ensures updates == old(updates) + [LogSpec.Update(sector, data)]
    {
      TracedNext(origin, updates, logged, blocks, sector, data);
      updates := updates + [LogSpec.Update(sector, data)];
      blocks := blocks[sector := data];
      logged := logged + [sector];
    }

    /** The scan of balloc (fs.c:61-65): the lowest clear bit, or sb.size if there is none. */
    method FindFree() returns (f: nat)
      requires |blocks| == sb.size && MetaEnd(sb) <= sb.size
      ensures f <= sb.size && forall c :: 0 <= c < f ==> Marked(sb, blocks, c)
      ensures f < sb.size ==> !Marked(sb, blocks, f)
    {
      hide IsSet, MetaEnd;
      var b := 0;
      while b < sb.size
        invariant b % BPB == 0 && forall c :: 0 <= c < b && c < sb.size ==> Marked(sb, blocks, c)
      {
        var bi := 0;
        while bi < BPB && b + bi < sb.size
          invariant bi <= BPB && forall c :: 0 <= c < b + bi && c < sb.size ==> Marked(sb, blocks, c)
        {
          assert (b + bi) % BPB == bi && BBlock(sb, b + bi) == BBlock(sb, b);
          BBlockMeta(sb, b + bi);
          if !IsSet(blocks[BBlock(sb, b)], bi) {
            return b + bi;
          }
          bi := bi + 1;
        }
        b := b + BPB;
      }
      return sb.size;
    }

    /** balloc (fs.c:53-76): the lowest free block, marked and zeroed; it panics exactly when the
        bitmap is full. When only bits of the log are clear it returns the lowest of those sectors, and
        the run is not followed further. */
    method Balloc() returns (r: Alloc)
      requires Valid()
      requires Tracked()
      modifies `blocks, `logged, `updates
      ensures Tracked() && old(updates) <= updates
      ensures r.Got? <==> FreeBlocks(sb, old(blocks)) != {}
      ensures !r.Got? ==> (r.OutOfBlocks? <==> !LogOpen(sb, old(blocks)))
      ensures !r.Got? ==> blocks == old(blocks) && logged == old(logged)
      ensures r.LogSector? ==>
                && LogStart(sb) <= r.b < sb.size && r.b !in Marks(sb, blocks)
                && forall c :: 0 <= c < r.b ==> c in Marks(sb, blocks)
      ensures r.Got? ==>
                && MetaEnd(sb) <= r.b < LogStart(sb) && r.b !in Marks(sb, old(blocks))
                && (forall c :: 0 <= c < r.b ==> c in Marks(sb, old(blocks)))
                && BBlock(sb, r.b) < |old(blocks)| == sb.size
                && blocks == Allocated(sb, old(blocks), r.b)
                && logged == old(logged) + [BBlock(sb, r.b), r.b]
    {
      hide Owned, Exact, Marked, Put;
      var f := FindFree();
      if f == sb.size {
        return OutOfBlocks;
      }
      BBlockMeta(sb, f);
      assert f !in Marks(sb, blocks);
      if f >= LogStart(sb) {
        return LogSector(f);
      }
      assert f in FreeBlocks(sb, blocks);
      LogWrite(BBlock(sb, f), Put(blocks[BBlock(sb, f)], f % BPB, true));
      LogWrite(f, ZeroBlock());
      return Got(f);
    }

    /** A slot of the inode itself: its block, allocated if it has none (fs.c:363-364, 371-372, 386-389). */
    method FillRoot(k: nat, i: nat) returns (r: Alloc)
      requires Valid() && k < |inodes| && i < NADDRS == |inodes[k].addrs|
      requires Tracked()
      modifies this
      ensures Tracked() && old(updates) <= updates
      ensures old(logged) <= logged
      ensures old(inodes)[k].addrs[i] != 0 ==> r.Got?
      ensures r.Got? ==>
                Valid() && |inodes| == |old(inodes)|
                  && Provides(sb, old(State()), State(), k, Root(i), r.b, Path(Root(i)), logged[|old(logged)|..])
      ensures !r.Got? ==> Valid() && |inodes| == |old(inodes)| && Short(sb, r, old(State()), State(), k, Path(Root(i)))
    {
      hide Owned, Exact, Marks, Allocated, Traced, Short, FreeBlocks, LogOpen;
      Sized(sb, State(), k);
      var addr := inodes[k].addrs[i];
      if addr != 0 {
        ProvidesOld(sb, State(), k, Root(i));
        return Got(addr);
      }
      r := Balloc();
      if r.Got? {
        ProvidesNew(sb, old(State()), k, Root(i), r.b);
        inodes := inodes[k := inodes[k].(addrs := inodes[k].addrs[i := r.b])];
        owner := owner[r.b := Owner(k, Root(i))];
        assert State() == Filled(sb, old(State()), k, Root(i), r.b);
        assert logged[|old(logged)|..] == FillLog(sb, old(State()), k, Root(i), r.b);
      } else {
        ShortHere(sb, r, State(), k, Root(i));
      }
    }

    /** The same for word j of index block p, which slot Parent(s) names (fs.c:373-378, 390-397, 398-405). */
    method FillWord(k: nat, s: Slot, p: nat) returns (r: Alloc)
      requires Valid() && k < |inodes| && IsSlot(s) && !s.Root?
      requires |inodes[k].addrs| == NADDRS && p == At(blocks, inodes[k], Parent(s)) != 0
      requires Tracked()
      modifies this
      ensures Tracked() && old(updates) <= updates
      ensures old(logged) <= logged
      ensures old(At(blocks, inodes[k], s)) != 0 ==> r.Got?
      ensures r.Got? ==>
                Valid() && |inodes| == |old(inodes)|
                  && Provides(sb, old(State()), State(), k, s, r.b, Path(s), logged[|old(logged)|..])
      ensures !r.Got? ==> Valid() && |inodes| == |old(inodes)| && Short(sb, r, old(State()), State(), k, Path(s))
    {
      hide FsOk, At, Word, SetWord, Provides, Allocated, Filled, Marks, Traced, Short, FreeBlocks, LogOpen;
      AtWord(sb, State(), k, s, p);
      var addr := Word(blocks[p], s.j);
      if addr != 0 {
        ProvidesOld(sb, State(), k, s);
        assert logged[|old(logged)|..] == [];
        return Got(addr);
      }
      r := Balloc();
      if r.Got? {
        ProvidesNew(sb, old(State()), k, s, r.b);
        FilledWord(sb, old(State()), k, s, r.b, p);
        LogWrite(p, SetWord(blocks[p], s.j, r.b));
        owner := owner[r.b := Owner(k, s)];
        assert State() == Filled(sb, old(State()), k, s, r.b);
        assert logged[|old(logged)|..] == FillLog(sb, old(State()), k, s, r.b);
        ProvidesOk(sb, old(State()), State(), k, s, r.b, Path(s), logged[|old(logged)|..]);
      } else {
        ShortHere(sb, r, State(), k, s);
      }
    }

    /** bmap (fs.c:356-411): the block of content block bn, allocated with its index blocks if need
        be; an allocated block is returned without any change. */
    method Bmap(k: nat, bn: nat) returns (r: Alloc)
      requires Valid() && k < |inodes| && |inodes[k].addrs| == NADDRS && bn < MAXFILE
      requires Tracked()
      modifies this
      ensures Tracked() && old(updates) <= updates
      ensures old(logged) <= logged
      ensures old(BlockAt(State(), k, bn)) != 0 ==> r.Got?
      ensures r.Got? ==>
                Valid() && |inodes| == |old(inodes)|
                  && Provides(sb, old(State()), State(), k, SlotOf(bn), r.b, Path(SlotOf(bn)), logged[|old(logged)|..])
      ensures !r.Got? ==>
                Valid() && |inodes| == |old(inodes)| && Short(sb, r, old(State()), State(), k, Path(SlotOf(bn)))
    {
      hide FsOk, Provides, Path, At;
      if bn < NDIRECT {
        RootAt(State(), k, bn);
        r := FillRoot(k, bn);
        return;
      }
      if bn < NDIRECT + NINDIRECT {
        r := BmapBelow(k, Ind(bn - NDIRECT));
        return;
      }
      var n := bn - NDIRECT - NINDIRECT;
      r := BmapDouble(k, Dbl(n / NINDIRECT, n % NINDIRECT));
    }

    /** The indirect block, then its slot s (fs.c:371-378); or the first two levels of fs.c:386-397. */
    method BmapBelow(k: nat, s: Slot) returns (r: Alloc)
      requires Valid() && k < |inodes| && |inodes[k].addrs| == NADDRS && IsSlot(s) && (s.Ind? || s.DblInd?)
      requires Tracked()
      modifies this
      ensures Tracked() && old(updates) <= updates
      ensures old(logged) <= logged
      ensures old(At(blocks, inodes[k], s)) != 0 ==> r.Got?
      ensures r.Got? ==>
                Valid() && |inodes| == |old(inodes)|
                  && Provides(sb, old(State()), State(), k, s, r.b, Path(s), logged[|old(logged)|..])
      ensures !r.Got? ==> Valid() && |inodes| == |old(inodes)| && Short(sb, r, old(State()), State(), k, Path(s))
    {
      hide FsOk, Provides, Path, At;
      ghost var fs0 := State();
      RootAt(fs0, k, Parent(s).i);
      if At(blocks, inodes[k], s) != 0 { ParentThere(fs0, k, s); }
      r := FillRoot(k, Parent(s).i);
      if r.Got? {
        r := Below(k, s, r.b, fs0, |old(logged)|);
      } else {
        ParentPath(s);
        ShortMore(sb, r, fs0, State(), k, Path(Parent(s)), Path(s));
      }
    }

    /** Both index levels, then the slot (fs.c:386-405). */
    method BmapDouble(k: nat, s: Slot) returns (r: Alloc)
      requires Valid() && k < |inodes| && |inodes[k].addrs| == NADDRS && IsSlot(s) && s.Dbl?
      requires Tracked()
      modifies this
      ensures Tracked() && old(updates) <= updates
      ensures old(logged) <= logged
      ensures old(At(blocks, inodes[k], s)) != 0 ==> r.Got?
      ensures r.Got? ==>
                Valid() && |inodes| == |old(inodes)|
                  && Provides(sb, old(State()), State(), k, s, r.b, Path(s), logged[|old(logged)|..])
      ensures !r.Got? ==> Valid() && |inodes| == |old(inodes)| && Short(sb, r, old(State()), State(), k, Path(s))
    {
      hide FsOk, Provides, Path, At;
      ghost var fs0 := State();
      if At(blocks, inodes[k], s) != 0 { ParentThere(fs0, k, s); }
      r := BmapBelow(k, DblInd(s.i));
      if r.Got? {
        r := Below(k, s, r.b, fs0, |old(logged)|);
      } else {
        ParentPath(s);
        ShortMore(sb, r, fs0, State(), k, Path(Parent(s)), Path(s));
      }
    }

    /** One level down: the slot's index block has just been provided. */
    method Below(k: nat, s: Slot, p: nat, ghost fs0: Fs, ghost from: nat) returns (r: Alloc)
      requires Valid() && k < |inodes| && IsSlot(s) && !s.Root? && from <= |logged|
      requires k < |fs0.inodes| && |fs0.inodes[k].addrs| == NADDRS
      requires Provides(sb, fs0, State(), k, Parent(s), p, Path(Parent(s)), logged[from..])
      requires Tracked()
      modifies this
      ensures Tracked() && old(updates) <= updates
      ensures old(logged) <= logged
      ensures At(fs0.blocks, fs0.inodes[k], s) != 0 ==> r.Got?
      ensures r.Got? ==>
                Valid() && |inodes| == |old(inodes)| && Provides(sb, fs0, State(), k, s, r.b, Path(s), logged[from..])
      ensures !r.Got? ==> Valid() && |inodes| == |old(inodes)| && Short(sb, r, fs0, State(), k, Path(s))
    {
      hide FsOk, At, Footprint;
      if At(fs0.blocks, fs0.inodes[k], s) != 0 { ParentThere(fs0, k, s); }
      ghost var fs1, logged1 := State(), logged;
      r := FillWord(k, s, p);
      if r.Got? {
        ProvidesBoth(sb, fs0, fs1, State(), k, s, p, r.b, logged1[from..], logged[|logged1|..]);
        assert logged[from..] == logged1[from..] + logged[|logged1|..];
      } else {
        ParentPath(s);
        ShortLater(sb, r, fs0, fs1, State(), k, Path(Parent(s)), Path(s), Path(s));
      }
    }

    /** iupdate (fs.c:201-217). */
    method Iupdate(k: nat)
      requires Valid() && k < |inodes|
      requires Tracked()
      modifies `blocks, `logged, `updates
      ensures Tracked() && old(updates) <= updates
      ensures Storable(inodes[k]) && IBlock(k) < |old(blocks)|
      ensures blocks == old(blocks)[IBlock(k) := PutDinode(old(blocks)[IBlock(k)], k % IPB, inodes[k])]
      ensures logged == old(logged) + [IBlock(k)]
      ensures Laid(old(blocks), blocks, k, inodes[k])
    {
      hide Exact, Marks, At, PutDinode, Owned, Laid;
      InodeStorable(sb, State(), k);
      InodeBlock(sb, State(), k);
      InodeLaid(blocks, k, inodes[k]);
      LogWrite(IBlock(k), PutDinode(blocks[IBlock(k)], k % IPB, inodes[k]));
    }

    /** The loop of writei (fs.c:506-512). It ends early exactly when there are fewer free blocks than
        empty slots on the way. */
    method WriteLoop(k: nat, src: seq<Byte>, off: nat) returns (ok: bool, inLog: bool)
      requires Valid() && k < |inodes| && off + |src| <= MAXBYTES
      requires Tracked()
      modifies this
      ensures Tracked() && old(updates) <= updates
      ensures |old(inodes)[k].addrs| == NADDRS
      ensures ok <==> Room(sb, old(State()), k, Paths(off / BSIZE, LastBlock(off, |src|)))
      ensures !ok ==>
                && Stuck(sb, old(State()), State(), k, Paths(off / BSIZE, LastBlock(off, |src|)))
                && (inLog <==> LogOpen(sb, old(blocks)))
      ensures old(logged) <= logged
      ensures ok ==>
                && Valid() && Writing(sb, old(State()), State(), k, off, src, |src|, LastBlock(off, |src|))
                && LoggedSoFar(sb, old(State()), State(), k, off / BSIZE, LastBlock(off, |src|),
                     logged[|old(logged)|..])
    {
      hide FsOk, At, Writing, Gains, Provides, Marks, LoggedSoFar, Path, SlotOf, Splice, Stuck, Room, LogOpen, Traced,
          Short, LastBlock;
      LastBlockIs(off, |src|);
      var tot, o := 0, off;
      ghost var fs0, hi, last := State(), off / BSIZE, LastBlock(off, |src|);
      WritingStart(sb, fs0, k, off, src);
      LoggedStart(sb, fs0, k, hi);
      assert logged[|old(logged)|..] == [];
      Sized(sb, fs0, k);
      while tot < |src|
        invariant tot <= |src| && o == off + tot && 0 <= hi <= MAXFILE
        invariant tot < |src| ==> hi == o / BSIZE
        invariant tot > 0 ==> o <= hi * BSIZE < o + BSIZE
        invariant tot == 0 ==> hi == off / BSIZE
        invariant Writing(sb, fs0, State(), k, off, src, tot, hi)
        invariant old(logged) <= logged && k < |inodes| && |inodes[k].addrs| == NADDRS
        invariant Tracked() && old(updates) <= updates
        invariant LoggedSoFar(sb, fs0, State(), k, off / BSIZE, hi, logged[|old(logged)|..])
      {
        WritingOk(sb, fs0, State(), k, off, src, tot, hi);
        ghost var fs, logged1 := State(), logged;
        var a := Bmap(k, o / BSIZE);
        if !a.Got? {
          WriteShort(sb, a, fs0, fs, State(), k, off, src, tot, hi);
          return false, a.LogSector?;
        }
        var m := if |src| - tot < BSIZE - o % BSIZE then |src| - tot else BSIZE - o % BSIZE;
        ghost var fs1, delta := State(), logged[|logged1|..];
        WriteStep(sb, fs0, fs, fs1, k, off, src, tot, hi, m, a.b, delta);
        WriteStepLog(sb, fs0, fs, fs1, k, off, src, tot, hi, o % BSIZE, src[tot..tot + m], a.b,
                     logged1[|old(logged)|..], delta);
        ProvidesRange(sb, fs, fs1, k, SlotOf(o / BSIZE), a.b, Path(SlotOf(o / BSIZE)), delta);
        LaterThan(old(logged), logged1, logged, a.b);
        LogWrite(a.b, Splice(blocks[a.b], o % BSIZE, src[tot..tot + m]));
        tot, o, hi := tot + m, o + m, hi + 1;
        WritingOk(sb, fs0, State(), k, off, src, tot, hi);
      }
      WritingOk(sb, fs0, State(), k, off, src, tot, hi);
      assert hi == last;
      WriteRoom(sb, fs0, State(), k, off, src, hi);
      return true, false;
    }

    /** writei (fs.c:490-519) of an inode that is not a device: it refuses exactly an offset past the
        end, a 32-bit overflow or a file beyond MAXFILE blocks. Otherwise it succeeds exactly when there
        is a free block for every empty slot on the way to the bytes: the file becomes the overwritten
        byte sequence and no other file changes. It logs content and index blocks of this file and the
        bitmap sectors of its new blocks, and the inode last. */
    method Writei(k: nat, src: seq<Byte>, off: nat) returns (r: Written)
      requires Valid() && AllHoleFree(State()) && k < |inodes| && off < WORD_LIMIT && |src| < WORD_LIMIT
      requires Tracked()
      modifies this
      ensures Tracked() && old(updates) <= updates
      ensures r.Refused? <==> off > old(inodes)[k].size || off + |src| >= WORD_LIMIT || off + |src| > MAXBYTES
      ensures r.Refused? ==> State() == old(State()) && logged == old(logged)
      ensures |old(inodes)[k].addrs| == NADDRS
      ensures !r.Refused? ==>
                (r.Count? <==> Room(sb, old(State()), k, Paths(off / BSIZE, LastBlock(off, |src|))))
      ensures r.Panicked? || r.LogTaken? ==>
                && Stuck(sb, old(State()), State(), k, Paths(off / BSIZE, LastBlock(off, |src|)))
                && (r.LogTaken? <==> LogOpen(sb, old(blocks)))
      ensures old(logged) <= logged
      ensures r.Count? ==>
                && r.n == |src| && Wrote(sb, old(State()), State(), k, off, src)
                && WriteLogs(sb, old(State()), State(), k, off, |src|, logged[|old(logged)|..])
                && Traced(old(blocks), updates[|old(updates)|..], logged[|old(logged)|..], blocks)
                && (AllSynced(old(State())) ==> AllSynced(State()))
    {
      hide Traced, AllSynced, Storable, FsOk, At, Writing, Gains, Resized, Marks, AllHoleFree, Wrote, LoggedSoFar,
          PutDinode, Room, Stuck, LogOpen;
      Sized(sb, State(), k);
      if off > inodes[k].size || (off + |src|) % WORD_LIMIT < off {
        return Refused;
      }
      if off + |src| > MAXBYTES {
        return Refused;
      }
      var ok, inLog := WriteLoop(k, src, off);
      if !ok {
        return if inLog then LogTaken else Panicked;
      }
      ghost var fs, logged1, updates1, hi := State(), logged, updates, LastBlock(off, |src|);
      WritingOk(sb, old(State()), fs, k, off, src, |src|, hi);
      Sized(sb, fs, k);
      if |src| > 0 && off + |src| > inodes[k].size {
        SetSize(k, off + |src|);
      } else {
        ResizeOnly(sb, fs, k, fs.inodes[k].size);
        assert fs.inodes[k := fs.inodes[k].(size := fs.inodes[k].size)] == fs.inodes;
      }
      WriteDone(sb, old(State()), fs, State(), k, off, src, hi);
      WriteLogsDone(sb, old(State()), fs, State(), k, off, src, hi, logged1[|old(logged)|..], logged[|old(logged)|..]);
      TracedRest(origin, old(updates), old(logged), old(blocks), updates, logged, blocks);
      TracedRest(origin, old(updates), old(logged), old(blocks), updates1, logged1, fs.blocks);
      if AllSynced(old(State())) {
        WriteSynced(sb, old(State()), fs, State(), k, off, src, logged1[|old(logged)|..], updates1[|old(updates)|..]);
      }
      return Count(|src|);
    }

    /** fs.c:515-516 */
    method SetSize(k: nat, size: nat)
      requires Valid() && k < |inodes| && size <= MAXBYTES
      requires Tracked()
      modifies `inodes, `blocks, `logged, `updates
      ensures Tracked() && old(updates) <= updates
      ensures Resized(sb, old(State()), State(), k, size)
      ensures logged == old(logged) + [IBlock(k)]
      ensures inodes == old(inodes)[k := old(inodes)[k].(size := size)]
      ensures IBlock(k) < |old(blocks)| && Storable(inodes[k])
      ensures blocks == old(blocks)[IBlock(k) := PutDinode(old(blocks)[IBlock(k)], k % IPB, inodes[k])]
      ensures |blocks| == |old(blocks)| && forall b :: 0 <= b < |blocks| && b != IBlock(k) ==>
                blocks[b] == old(blocks)[b]
    {
      hide FsOk, At, Resized, PutDinode;
      ghost var fs := State();
      ResizeOnly(sb, fs, k, size);
      inodes := inodes[k := inodes[k].(size := size)];
      ResizedOk(sb, fs, State(), k, size);
      InodeBlock(sb, fs, k);
      Iupdate(k);
      ResizeOk(sb, fs, k, size, IBlock(k), blocks[IBlock(k)]);
      assert blocks == fs.blocks[IBlock(k) := blocks[IBlock(k)]];
    }

    /** readi (fs.c:461-485) of an inode that is not a device: it refuses exactly an offset past the end
        or a 32-bit overflow; otherwise it returns that slice of the file, and allocates nothing. */
    method Readi(k: nat, off: nat, n: nat) returns (r: Read)
      requires Valid() && AllHoleFree(State()) && k < |inodes| && off < WORD_LIMIT && n < WORD_LIMIT
      requires Tracked()
      modifies this
      ensures Tracked() && old(updates) <= updates
      ensures State() == old(State()) && logged == old(logged)
      ensures r.NotRead? <==> off > inodes[k].size || off + n >= WORD_LIMIT
      ensures r.Bytes? ==> |inodes[k].addrs| == NADDRS && inodes[k].size <= MAXBYTES
                           && r.data == Content(State(), k)[off..if off + n > inodes[k].size then inodes[k].size
                             else off + n]
    {
      hide FsOk, At, Extends, Footprint, Marks, ByteAt, Short, Traced, Apart;
      if off > inodes[k].size || (off + n) % WORD_LIMIT < off {
        return NotRead;
      }
      Sized(sb, State(), k);
      TracedLength(origin, updates, logged, blocks);
      var len := if off + n > inodes[k].size then inodes[k].size - off else n;
      var tot, o, data := 0, off, [];
      ghost var fs, c := State(), Content(State(), k);
      while tot < len
        invariant tot <= len && o == off + tot && data == c[off..o]
        invariant State() == fs && logged == old(logged) && Tracked() && updates == old(updates)
      {
        assert BlockAt(fs, k, o / BSIZE) != 0;
        var a := Bmap(k, o / BSIZE);
        var m := if len - tot < BSIZE - o % BSIZE then len - tot else BSIZE - o % BSIZE;
        ReadPiece(sb, fs, k, o, m);
        TracedLength(origin, updates, logged, blocks);
        data := data + blocks[a.b][o % BSIZE..o % BSIZE + m];
        tot, o := tot + m, o + m;
      }
      return Bytes(data);
    }

    /** bfree (fs.c:79-95): it fails, with "freeing free block", exactly when the bit is clear. */
    method Bfree(b: nat) returns (ok: bool)
      requires |blocks| == sb.size && MetaEnd(sb) <= LogStart(sb) && b < sb.size
      requires Tracked()
      modifies `blocks, `logged, `updates
      ensures Tracked() && old(updates) <= updates
      ensures BBlock(sb, b) < |old(blocks)|
      ensures ok <==> b in Marks(sb, old(blocks))
      ensures ok ==> blocks == PutMark(sb, old(blocks), b, false) && logged == old(logged) + [BBlock(sb, b)]
      ensures !ok ==> blocks == old(blocks) && logged == old(logged)
    {
      hide IsSet, Put;
      BBlockMeta(sb, b);
      if !IsSet(blocks[BBlock(sb, b)], b % BPB) {
        return false;
      }
      LogWrite(BBlock(sb, b), Put(blocks[BBlock(sb, b)], b % BPB, false));
      return true;
    }

    /** fs.c:426-429 for one direct slot: bfree cannot fail. */
    method TruncDirect(k: nat, i: nat, ghost fs0: Fs)
      requires Truncating(sb, fs0, State(), k, i) && i < NDIRECT
      requires Tracked()
      modifies this
      ensures Tracked() && old(updates) <= updates
      ensures Truncating(sb, fs0, State(), k, i + 1)
    {
      hide FsOk, At, Marks, PutMark, Freed;
      ghost var fs := State();
      if inodes[k].addrs[i] != 0 {
        FreeDirect(sb, fs, k, i);
        FsSizes(sb, fs);
        var ok := Bfree(inodes[k].addrs[i]);
        TruncStep(sb, fs0, fs, blocks, k, i);
        inodes := inodes[k := inodes[k].(addrs := inodes[k].addrs[i := 0])];
        owner := owner - BlocksUnder(fs, k, i);
      } else {
        TruncSkip(sb, fs0, fs, k, i);
      }
    }

    /** fs.c:432-442 */
    method TruncIndirect(k: nat, ghost fs0: Fs)
      requires Truncating(sb, fs0, State(), k, NDIRECT)
      requires Tracked()
      modifies this
      ensures Tracked() && old(updates) <= updates
      ensures Truncating(sb, fs0, State(), k, NDIRECT + 1)
    {
      hide FsOk, At, Marks, PutMark, Freed, FreeingInd;
      ghost var fs := State();
      if inodes[k].addrs[NDIRECT] != 0 {
        FreeWords(k);
        FreeingDone(sb, fs, blocks, k, inodes[k].addrs[NDIRECT]);
        FsSizes(sb, fs);
        var ok := Bfree(inodes[k].addrs[NDIRECT]);
        TruncStep(sb, fs0, fs, blocks, k, NDIRECT);
        inodes := inodes[k := inodes[k].(addrs := inodes[k].addrs[NDIRECT := 0])];
        owner := owner - BlocksUnder(fs, k, NDIRECT);
      } else {
        TruncSkip(sb, fs0, fs, k, NDIRECT);
      }
    }

    /** fs.c:433-438: free every block the indirect block names. */
    method FreeWords(k: nat)
      requires Valid() && k < |inodes| && |inodes[k].addrs| == NADDRS && inodes[k].addrs[NDIRECT] != 0
      requires Tracked()
      modifies `blocks, `logged, `updates
      ensures Tracked() && old(updates) <= updates
      ensures FreeingInd(sb, old(State()), blocks, k, NINDIRECT)
    {
      ghost var fs := State();
      RootInRange(sb, fs, k, NDIRECT);
      var a := blocks[inodes[k].addrs[NDIRECT]];
      assert forall j :: 0 <= j < NINDIRECT ==> At(fs.blocks, fs.inodes[k], Ind(j)) == Word(a, j) by {
        RootAt(fs, k, NDIRECT);
        hide Word;
      }
      FreeingStart(sb, fs, k);
      hide FsOk, At, Marks, PutMark, FreeingInd, Traced, Apart;
      FsSizes(sb, fs);
      for j := 0 to NINDIRECT
        invariant FreeingInd(sb, fs, blocks, k, j) && Tracked() && old(updates) <= updates
      {
        if Word(a, j) != 0 {
          FreeingNext(sb, fs, blocks, k, j, Word(a, j));
          var ok := Bfree(Word(a, j));
        } else {
          FreeingSkip(sb, fs, blocks, k, j);
        }
      }
    }

    /** itrunc (fs.c:419-446): never "freeing free block"; it frees exactly the blocks reached through
        the direct and indirect slots. */
    method Itrunc(k: nat)
      requires Valid() && k < |inodes|
      requires Tracked()
      modifies this
      ensures Tracked() && old(updates) <= updates
      ensures Truncated(sb, old(State()), State(), k)
    {
      hide FsOk, At, Marks, Truncating, Truncated, Resized;
      ghost var fs0 := State();
      TruncStart(sb, fs0, k);
      for i := 0 to NDIRECT
        invariant Truncating(sb, fs0, State(), k, i) && Tracked() && old(updates) <= updates
      {
        TruncDirect(k, i, fs0);
      }
      TruncIndirect(k, fs0);
      ghost var fs := State();
      TruncatingOk(sb, fs0, fs, k, NDIRECT + 1);
      InodeBlock(sb, fs, k);
      SetSize(k, 0);
      TruncDone(sb, fs0, fs, State(), k);
    }
  }
}
