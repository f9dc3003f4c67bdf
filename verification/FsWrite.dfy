/** What a partly done writei has achieved, and that it refines overwriting a byte sequence. */
module FsWrite {
  import opened Blocks
  import opened FsIndex
  import opened FsState
  import opened FsLog

  /** The slots visited for content blocks b0..b1-1. */
  function Paths(b0: nat, b1: nat): set<Slot>
    requires b1 <= MAXFILE
    decreases b1
  {
    if b1 <= b0 then {} else Paths(b0, b1 - 1) + Path(SlotOf(b1 - 1))
  }

  /** The slots of content blocks lo..hi-1. */
  function ContentSlots(lo: nat, hi: nat): set<Slot>
    requires hi <= MAXFILE
  {
    set bn | lo <= bn < hi :: SlotOf(bn)
  }

  /** Every byte of every file is as in fs0, but for src[..tot] written at off in file k. */
  ghost predicate Overwritten(fs0: Fs, fs: Fs, k: nat, off: nat, src: seq<Byte>, tot: nat)
    requires tot <= |src|
  {
    && |fs.inodes| == |fs0.inodes|
    && (forall i :: 0 <= i < |fs.inodes| ==> |fs0.inodes[i].addrs| == |fs.inodes[i].addrs| == NADDRS)
    && forall i, pos :: 0 <= i < |fs.inodes| && 0 <= pos < MAXBYTES ==>
         ByteAt(fs, i, pos) == if i == k && off <= pos < off + tot then src[pos - off] else ByteAt(fs0, i, pos)
  }

  /** writei after tot bytes, having visited content blocks up to hi. */
  ghost predicate Writing(sb: Super, fs0: Fs, fs: Fs, k: nat, off: nat, src: seq<Byte>, tot: nat, hi: nat) {
    && off + |src| <= MAXBYTES && tot <= |src| && off / BSIZE <= hi <= MAXFILE
    && Gains(sb, fs0, fs, k, Paths(off / BSIZE, hi))
    && Overwritten(fs0, fs, k, off, src, tot)
    && forall bn :: off / BSIZE <= bn < hi ==> BlockAt(fs, k, bn) != 0
  }

  lemma WritingStart(sb: Super, fs: Fs, k: nat, off: nat, src: seq<Byte>)
    requires FsOk(sb, fs) && k < |fs.inodes| && off + |src| <= MAXBYTES
    ensures Writing(sb, fs, fs, k, off, src, 0, off / BSIZE)
  {
    hide At, Marks, SlotOf;
    ExtendsSelf(sb, fs, k);
  }

  lemma StoredGains(sb: Super, fs0: Fs, fs: Fs, k: nat, slots: set<Slot>, bn: nat, o: nat, piece: seq<Byte>)
    requires Gains(sb, fs0, fs, k, slots) && bn < MAXFILE && o + |piece| <= BSIZE
    requires |fs.inodes[k].addrs| == NADDRS && BlockAt(fs, k, bn) != 0
    ensures BlockAt(fs, k, bn) < |fs.blocks| && Gains(sb, fs0, Stored(fs, k, bn, o, piece), k, slots)
  {
    StoredOk(sb, fs, k, bn, o, piece);
    hide At, Marks, SlotOf, FsOk, Splice;
  }

  /** One round of the loop (fs.c:506-512). */
  lemma WriteStep(sb: Super, fs0: Fs, fs: Fs, fs1: Fs, k: nat, off: nat, src: seq<Byte>, tot: nat, hi: nat,
                  m: nat, b: nat, delta: seq<nat>)
    requires Writing(sb, fs0, fs, k, off, src, tot, hi) && 0 < m && tot + m <= |src|
    requires hi == (off + tot) / BSIZE < MAXFILE && (off + tot) % BSIZE + m <= BSIZE
    requires Provides(sb, fs, fs1, k, SlotOf(hi), b, Path(SlotOf(hi)), delta)
    ensures |fs1.inodes[k].addrs| == NADDRS && b == BlockAt(fs1, k, hi) < |fs1.blocks|
    ensures var fs2 := Stored(fs1, k, hi, (off + tot) % BSIZE, src[tot..tot + m]);
            Writing(sb, fs0, fs2, k, off, src, tot + m, hi + 1)
  {
    hide FsOk, At, Marks, SlotOf, Path, Footprint;
    var o, piece := (off + tot) % BSIZE, src[tot..tot + m];
    ProvidesOk(sb, fs, fs1, k, SlotOf(hi), b, Path(SlotOf(hi)), delta);
    GainsTwice(sb, fs0, fs, fs1, k, Paths(off / BSIZE, hi), Path(SlotOf(hi)));
    StoredGains(sb, fs0, fs1, k, Paths(off / BSIZE, hi + 1), hi, o, piece);
    var fs2 := Stored(fs1, k, hi, o, piece);
    WriteStepBytes(sb, fs0, fs, fs1, k, off, src, tot, hi, m);
    WriteStepBlocks(sb, fs0, fs, fs1, k, off, src, tot, hi, m);
  }

  lemma WriteStepBytes(sb: Super, fs0: Fs, fs: Fs, fs1: Fs, k: nat, off: nat, src: seq<Byte>, tot: nat, hi: nat, m: nat)
    requires Writing(sb, fs0, fs, k, off, src, tot, hi) && tot + m <= |src|
    requires hi == (off + tot) / BSIZE < MAXFILE && (off + tot) % BSIZE + m <= BSIZE
    requires Extends(sb, fs, fs1, k, Path(SlotOf(hi)))
    requires |fs1.inodes[k].addrs| == NADDRS && 0 != BlockAt(fs1, k, hi) < |fs1.blocks|
    ensures Overwritten(fs0, Stored(fs1, k, hi, (off + tot) % BSIZE, src[tot..tot + m]), k, off, src, tot + m)
  {
    hide FsOk, At, Marks, SlotOf, Path, ByteAt, Quiet;
    var o, piece := (off + tot) % BSIZE, src[tot..tot + m];
    var fs2 := Stored(fs1, k, hi, o, piece);
    assert hi * BSIZE + o == off + tot;
    forall i | 0 <= i < |fs1.inodes| ensures |fs1.inodes[i].addrs| == NADDRS { Sized(sb, fs1, i); }
    forall i, pos | 0 <= i < |fs.inodes| && 0 <= pos < MAXBYTES
      ensures ByteAt(fs2, i, pos) == if i == k && off <= pos < off + tot + m then src[pos - off]
              else ByteAt(fs0, i, pos)
    {
      ExtendsBytes(sb, fs, fs1, k, Path(SlotOf(hi)), i, pos);
      StoredBytes(sb, fs1, k, hi, o, piece, i, pos);
    }
  }

  lemma WriteStepBlocks(sb: Super, fs0: Fs, fs: Fs, fs1: Fs, k: nat, off: nat, src: seq<Byte>, tot: nat, hi: nat,
                        m: nat)
    requires Writing(sb, fs0, fs, k, off, src, tot, hi) && tot + m <= |src|
    requires hi == (off + tot) / BSIZE < MAXFILE && (off + tot) % BSIZE + m <= BSIZE
    requires Extends(sb, fs, fs1, k, Path(SlotOf(hi)))
    requires |fs1.inodes[k].addrs| == NADDRS && 0 != BlockAt(fs1, k, hi) < |fs1.blocks|
    ensures var fs2 := Stored(fs1, k, hi, (off + tot) % BSIZE, src[tot..tot + m]);
            forall bn :: off / BSIZE <= bn < hi + 1 ==> BlockAt(fs2, k, bn) != 0
  {
    hide FsOk, At, Marks, SlotOf, Path, ByteAt, Quiet;
    var o, piece := (off + tot) % BSIZE, src[tot..tot + m];
    StoredOk(sb, fs1, k, hi, o, piece);
    var fs2 := Stored(fs1, k, hi, o, piece);
    forall bn | off / BSIZE <= bn < hi + 1 ensures BlockAt(fs2, k, bn) != 0 {
      assert At(fs2.blocks, fs2.inodes[k], SlotOf(bn)) == At(fs1.blocks, fs1.inodes[k], SlotOf(bn));
      if bn < hi {
        assert BlockAt(fs, k, bn) != 0;
        GainsAt(sb, fs, fs1, k, Path(SlotOf(hi)), k, SlotOf(bn));
      }
    }
  }

  // -------- The finished write --------

  /** No file has a hole: readi will find every block. */
  ghost predicate AllHoleFree(fs: Fs) {
    forall i :: 0 <= i < |fs.inodes| ==>
      |fs.inodes[i].addrs| == NADDRS && fs.inodes[i].size <= MAXBYTES && HoleFree(fs, i, fs.inodes[i].size)
  }

  /** Overwriting or extending a byte sequence at an offset inside it or at its end. */
  function Overwrite(c: seq<Byte>, off: nat, src: seq<Byte>): (r: seq<Byte>)
    requires off <= |c|
    ensures |r| == if off + |src| > |c| then off + |src| else |c|
  {
    c[..off] + src + if off + |src| < |c| then c[off + |src|..] else []
  }

  function NewSize(size: nat, off: nat, n: nat): nat {
    if n > 0 && off + n > size then off + n else size
  }

  /** What writei promises: file k holds the overwritten sequence, all other files and inodes are
      as before, every block keeps its owner, new blocks go to file k and were free, and the bitmap
      gains exactly those. */
  ghost predicate Wrote(sb: Super, fs0: Fs, fs: Fs, k: nat, off: nat, src: seq<Byte>) {
    && FsOk(sb, fs0) && FsOk(sb, fs) && AllHoleFree(fs0) && AllHoleFree(fs)
    && k < |fs0.inodes| == |fs.inodes| && off <= fs0.inodes[k].size
    && fs.inodes[k] == fs0.inodes[k].(size := NewSize(fs0.inodes[k].size, off, |src|), addrs := fs.inodes[k].addrs)
    && Content(fs, k) == Overwrite(Content(fs0, k), off, src)
    && (forall i :: 0 <= i < |fs.inodes| && i != k ==>
       fs.inodes[i] == fs0.inodes[i] && Content(fs, i) == Content(fs0, i))
    && off + |src| <= MAXBYTES && Grows(sb, fs0, fs, k, Paths(off / BSIZE, LastBlock(off, |src|)))
  }

  /** fs' is fs with another size for inode k and, perhaps, its inode block rewritten. */
  ghost predicate Resized(sb: Super, fs: Fs, fs': Fs, k: nat, size: nat) {
    && FsOk(sb, fs) && FsOk(sb, fs') && k < |fs.inodes| && size <= MAXBYTES
    && fs'.inodes == fs.inodes[k := fs.inodes[k].(size := size)] && fs'.owner == fs.owner
    && Marks(sb, fs'.blocks) == Marks(sb, fs.blocks)
    && SameSlots(fs.blocks, fs.inodes, fs'.blocks, fs'.inodes)
    && |fs'.blocks| == |fs.blocks| == sb.size
    && forall b :: b in fs.owner ==> b < |fs.blocks| && fs'.blocks[b] == fs.blocks[b]
  }

  lemma ResizedBytes(sb: Super, fs0: Fs, fs: Fs, fs': Fs, k: nat, size: nat, off: nat, src: seq<Byte>)
    requires Resized(sb, fs, fs', k, size) && Overwritten(fs0, fs, k, off, src, |src|)
    ensures Overwritten(fs0, fs', k, off, src, |src|)
  {
    hide FsOk, At, Marks, ByteAt;
    forall i, pos | 0 <= i < |fs.inodes| && 0 <= pos < MAXBYTES ensures ByteAt(fs', i, pos) == ByteAt(fs, i, pos) {
      SameBytes(sb, fs, fs', i, pos);
    }
  }

  lemma OverwrittenContent(fs0: Fs, fs: Fs, k: nat, off: nat, src: seq<Byte>, i: nat)
    requires Overwritten(fs0, fs, k, off, src, |src|) && i < |fs.inodes| && k < |fs.inodes|
    requires fs0.inodes[i].size <= MAXBYTES && off <= fs0.inodes[k].size && off + |src| <= MAXBYTES
    requires fs.inodes[i].size == if i == k then NewSize(fs0.inodes[k].size, off, |src|) else fs0.inodes[i].size
    ensures Content(fs, i) == if i == k then Overwrite(Content(fs0, k), off, src) else Content(fs0, i)
  {
    hide ByteAt;
    if i == k {
      forall pos | 0 <= pos < fs.inodes[k].size
        ensures Content(fs, k)[pos] == Overwrite(Content(fs0, k), off, src)[pos] {
        OverwriteAt(Content(fs0, k), off, src, pos);
        assert Content(fs, k)[pos] == ByteAt(fs, k, pos);
      }
    } else {
      forall pos | 0 <= pos < fs.inodes[i].size ensures Content(fs, i)[pos] == Content(fs0, i)[pos] {
        assert Content(fs, i)[pos] == ByteAt(fs, i, pos);
      }
    }
  }

  lemma OverwriteAt(c: seq<Byte>, off: nat, src: seq<Byte>, pos: nat)
    requires off <= |c| && pos < |Overwrite(c, off, src)|
    ensures off <= pos < off + |src| ==> Overwrite(c, off, src)[pos] == src[pos - off]
    ensures !(off <= pos < off + |src|) ==> pos < |c| && Overwrite(c, off, src)[pos] == c[pos]
  {
  }

  /** No hole below the new end. */
  lemma StillHoleFree(sb: Super, fs0: Fs, fs: Fs, fs': Fs, k: nat, off: nat, src: seq<Byte>, hi: nat, i: nat)
    requires Writing(sb, fs0, fs, k, off, src, |src|, hi) && AllHoleFree(fs0) && off <= fs0.inodes[k].size
    requires Resized(sb, fs, fs', k, NewSize(fs0.inodes[k].size, off, |src|))
    requires |src| > 0 ==> off + |src| <= hi * BSIZE
    requires i < |fs'.inodes|
    ensures |fs'.inodes[i].addrs| == NADDRS && fs'.inodes[i].size <= MAXBYTES && HoleFree(fs', i, fs'.inodes[i].size)
  {
    hide FsOk, At, Marks, ByteAt, SlotOf, Paths, Overwritten;
    Sized(sb, fs', i);
    forall bn | 0 <= bn < MAXFILE && bn * BSIZE < fs'.inodes[i].size ensures BlockAt(fs', i, bn) != 0 {
      assert At(fs'.blocks, fs'.inodes[i], SlotOf(bn)) == At(fs.blocks, fs.inodes[i], SlotOf(bn));
      GainsAt(sb, fs0, fs, k, Paths(off / BSIZE, hi), i, SlotOf(bn));
      if bn * BSIZE < fs0.inodes[i].size {
        assert HoleFree(fs0, i, fs0.inodes[i].size);
        assert BlockAt(fs0, i, bn) != 0;
      } else {
        assert i == k && off / BSIZE <= bn < hi;
        assert BlockAt(fs, k, bn) != 0;
      }
    }
  }

  lemma WriteDone(sb: Super, fs0: Fs, fs: Fs, fs': Fs, k: nat, off: nat, src: seq<Byte>, hi: nat)
    requires Writing(sb, fs0, fs, k, off, src, |src|, hi) && AllHoleFree(fs0) && off <= fs0.inodes[k].size
    requires Resized(sb, fs, fs', k, NewSize(fs0.inodes[k].size, off, |src|))
    requires off + |src| <= MAXBYTES && hi == LastBlock(off, |src|)
    ensures Wrote(sb, fs0, fs', k, off, src)
  {
    hide FsOk, At, Marks, ByteAt, SlotOf, Paths, Overwritten, Content, Overwrite, HoleFree, SameSlots;
    forall i | 0 <= i < |fs'.inodes|
      ensures |fs'.inodes[i].addrs| == NADDRS && fs'.inodes[i].size <= MAXBYTES && HoleFree(fs', i, fs'.inodes[i].size)
    {
      StillHoleFree(sb, fs0, fs, fs', k, off, src, hi, i);
    }
    ResizedBytes(sb, fs0, fs, fs', k, NewSize(fs0.inodes[k].size, off, |src|), off, src);
    forall i | 0 <= i < |fs'.inodes|
      ensures Content(fs', i) == if i == k then Overwrite(Content(fs0, k), off, src) else Content(fs0, i)
    {
      OverwrittenContent(fs0, fs', k, off, src, i);
    }
  }

  /** Setting the size and writing any inode block back. */
  lemma ResizeOk(sb: Super, fs: Fs, k: nat, size: nat, m: nat, data: Block)
    requires FsOk(sb, fs) && k < |fs.inodes| && size <= MAXBYTES && m < sb.ninodes / IPB + 3
    ensures m < |fs.blocks|
    ensures Resized(sb, fs, Fs(fs.blocks[m := data], fs.inodes[k := fs.inodes[k].(size := size)], fs.owner), k, size)
  {
    InodeWriteOk(sb, fs, m, data);
    InRange(sb, fs);
    var blocks', inodes' := fs.blocks[m := data], fs.inodes[k := fs.inodes[k].(size := size)];
    SizeIrrelevant(fs, blocks', k, size);
    hide At, Marks, IsSlot;
    SameOwned(fs.blocks, fs.inodes, blocks', inodes', fs.owner);
    SameExact(fs.blocks, fs.inodes, blocks', inodes', fs.owner);
  }

  lemma SizeIrrelevant(fs: Fs, blocks': seq<Block>, k: nat, size: nat)
    requires k < |fs.inodes| && SameSlots(fs.blocks, fs.inodes, blocks', fs.inodes)
    ensures SameSlots(fs.blocks, fs.inodes, blocks', fs.inodes[k := fs.inodes[k].(size := size)])
  {
    var ip := fs.inodes[k].(size := size);
    forall s | IsSlot(s) ensures At(blocks', ip, s) == At(blocks', fs.inodes[k], s) {
      if s.Dbl? { assert At(blocks', ip, DblInd(s.i)) == At(blocks', fs.inodes[k], DblInd(s.i)); }
    }
    hide At, IsSlot;
  }

  lemma ResizeOnly(sb: Super, fs: Fs, k: nat, size: nat)
    requires FsOk(sb, fs) && k < |fs.inodes| && size <= MAXBYTES
    ensures Resized(sb, fs, fs.(inodes := fs.inodes[k := fs.inodes[k].(size := size)]), k, size)
  {
    InRange(sb, fs);
    ResizeOk(sb, fs, k, size, 0, fs.blocks[0]);
    assert fs.blocks[0 := fs.blocks[0]] == fs.blocks;
  }

  lemma ResizedOk(sb: Super, fs: Fs, fs': Fs, k: nat, size: nat)
    requires Resized(sb, fs, fs', k, size)
    ensures FsOk(sb, fs')
  {
  }

  /** What writei has logged on its way from content block lo to hi: exactly the content blocks visited, all
      new blocks, their bitmap sectors and the index blocks naming them. */
  ghost predicate LoggedSoFar(sb: Super, fs0: Fs, fs: Fs, k: nat, lo: nat, hi: nat, xs: seq<nat>) {
    && k < |fs.inodes| && |fs.inodes[k].addrs| == NADDRS && hi <= MAXFILE
    && Footprint(sb, fs0, fs, k, ContentSlots(lo, hi), xs)
    && LogsGains(sb, fs0, fs, k, xs)
    && forall bn :: lo <= bn < hi ==> BlockAt(fs, k, bn) in xs
  }

  lemma LoggedStart(sb: Super, fs: Fs, k: nat, lo: nat)
    requires FsOk(sb, fs) && k < |fs.inodes| && lo <= MAXFILE
    ensures LoggedSoFar(sb, fs, fs, k, lo, lo, [])
  {
    hide At;
    Sized(sb, fs, k);
  }

  lemma WriteStepLog(sb: Super, fs0: Fs, fs: Fs, fs1: Fs, k: nat, off: nat, src: seq<Byte>, tot: nat, hi: nat,
                     o: nat, piece: seq<Byte>, b: nat, xs: seq<nat>, delta: seq<nat>)
    requires Writing(sb, fs0, fs, k, off, src, tot, hi) && hi < MAXFILE && o + |piece| <= BSIZE
    requires Provides(sb, fs, fs1, k, SlotOf(hi), b, Path(SlotOf(hi)), delta)
    requires LoggedSoFar(sb, fs0, fs, k, off / BSIZE, hi, xs)
    requires b == BlockAt(fs1, k, hi) < |fs1.blocks|
    ensures |fs1.inodes[k].addrs| == NADDRS
    ensures LoggedSoFar(sb, fs0, Stored(fs1, k, hi, o, piece), k, off / BSIZE, hi + 1, xs + delta + [b])
  {
    hide FsOk, At, Marks, SlotOf, Path, InFootprint, IsSlot, Splice, LogsGains;
    var slots := ContentSlots(off / BSIZE, hi + 1);
    assert slots == ContentSlots(off / BSIZE, hi) + {SlotOf(hi)};
    hide ContentSlots;
    ProvidesOk(sb, fs, fs1, k, SlotOf(hi), b, Path(SlotOf(hi)), delta);
    FootprintJoin(sb, fs0, fs, fs1, k, Paths(off / BSIZE, hi), Path(SlotOf(hi)), ContentSlots(off / BSIZE, hi), {},
        xs, delta);
    LogsGainsJoin(sb, fs0, fs, fs1, k, Paths(off / BSIZE, hi), Path(SlotOf(hi)), xs, delta);
    StoredOk(sb, fs1, k, hi, o, piece);
    var fs2 := Stored(fs1, k, hi, o, piece);
    LogsGainsSame(sb, fs0, fs1, fs2, k, xs + delta, xs + delta + [b]);
    assert At(fs2.blocks, fs2.inodes[k], SlotOf(hi)) == b;
    InFootprintAt(sb, fs0, fs2, k, slots, SlotOf(hi));
    forall i | 0 <= i < |xs + delta| ensures InFootprint(sb, fs0, fs2, k, slots, (xs + delta)[i]) {
      FootprintMore(sb, fs0, fs1, k, ContentSlots(off / BSIZE, hi) + {}, slots, (xs + delta)[i]);
      FootprintSame(sb, fs0, fs1, fs2, k, slots, (xs + delta)[i]);
    }
    forall bn | off / BSIZE <= bn < hi ensures BlockAt(fs2, k, bn) in xs {
      assert BlockAt(fs, k, bn) != 0 && BlockAt(fs, k, bn) in xs;
      GainsAt(sb, fs, fs1, k, Path(SlotOf(hi)), k, SlotOf(bn));
      assert At(fs2.blocks, fs2.inodes[k], SlotOf(bn)) == At(fs1.blocks, fs1.inodes[k], SlotOf(bn));
    }
  }

  lemma {:induction false} InFootprintAt(sb: Super, fs: Fs, fs': Fs, k: nat, slots: set<Slot>, s: Slot)
    requires k < |fs'.inodes| && |fs'.inodes[k].addrs| == NADDRS && s in slots && IsSlot(s)
    requires At(fs'.blocks, fs'.inodes[k], s) != 0
    ensures InFootprint(sb, fs, fs', k, slots, At(fs'.blocks, fs'.inodes[k], s))
  {
    hide At, IsSlot;
  }

  lemma FootprintSame(sb: Super, fs0: Fs, fs1: Fs, fs2: Fs, k: nat, slots: set<Slot>, x: nat)
    requires SameSlots(fs1.blocks, fs1.inodes, fs2.blocks, fs2.inodes) && fs1.owner == fs2.owner && k < |fs1.inodes|
    requires InFootprint(sb, fs0, fs1, k, slots, x)
    ensures InFootprint(sb, fs0, fs2, k, slots, x)
  {
    hide At, IsSlot;
    if !(exists s :: s in slots && IsSlot(s) && At(fs1.blocks, fs1.inodes[k], s) == x != 0) {
      var f :| f in fs1.owner && f !in fs0.owner && OfGain(sb, fs1, k, f, x);
      assert OfGain(sb, fs2, k, f, x);
    }
  }

  lemma WritingOk(sb: Super, fs0: Fs, fs: Fs, k: nat, off: nat, src: seq<Byte>, tot: nat, hi: nat)
    requires Writing(sb, fs0, fs, k, off, src, tot, hi)
    ensures FsOk(sb, fs) && k < |fs.inodes| == |fs0.inodes| && |fs.inodes[k].addrs| == NADDRS
    ensures fs.inodes[k].size == fs0.inodes[k].size && off + |src| <= MAXBYTES
  {
    hide At, Marks;
  }

  /** What a finished writei of n bytes has logged: the above and, last and only if the file grew,
      the inode. */
  ghost predicate WriteLogs(sb: Super, fs0: Fs, fs: Fs, k: nat, off: nat, n: nat, xs: seq<nat>) {
    && k < |fs.inodes| == |fs0.inodes| && off + n <= MAXBYTES
    && if NewSize(fs0.inodes[k].size, off, n) > fs0.inodes[k].size
       then |xs| > 0 && xs[|xs| - 1] == IBlock(k)
            && LoggedSoFar(sb, fs0, fs, k, off / BSIZE, LastBlock(off, n), xs[..|xs| - 1])
       else LoggedSoFar(sb, fs0, fs, k, off / BSIZE, LastBlock(off, n), xs)
  }

  function LastBlock(off: nat, n: nat): (hi: nat)
    requires off + n <= MAXBYTES
    ensures hi <= MAXFILE
  {
    if n == 0 then off / BSIZE else (off + n + BSIZE - 1) / BSIZE
  }

  lemma LastBlockIs(off: nat, n: nat)
    requires off + n <= MAXBYTES
    ensures n == 0 ==> LastBlock(off, n) == off / BSIZE
    ensures n > 0 ==> off + n <= LastBlock(off, n) * BSIZE < off + n + BSIZE
  {
  }

  lemma WriteLogsDone(sb: Super, fs0: Fs, fs: Fs, fs': Fs, k: nat, off: nat, src: seq<Byte>, hi: nat, xs: seq<nat>,
                      ys: seq<nat>)
    requires Writing(sb, fs0, fs, k, off, src, |src|, hi)
    requires Resized(sb, fs, fs', k, NewSize(fs0.inodes[k].size, off, |src|))
    requires |src| > 0 ==> off + |src| <= hi * BSIZE < off + |src| + BSIZE
    requires |src| == 0 ==> hi == off / BSIZE
    requires LoggedSoFar(sb, fs0, fs, k, off / BSIZE, hi, xs)
    requires ys == if NewSize(fs0.inodes[k].size, off, |src|) > fs0.inodes[k].size then xs + [IBlock(k)] else xs
    ensures WriteLogs(sb, fs0, fs', k, off, |src|, ys)
  {
    hide FsOk, At, Marks, Gains, InFootprint, Paths, Overwritten, LogsGains, SlotOf;
    WritingOk(sb, fs0, fs, k, off, src, |src|, hi);
    assert hi == LastBlock(off, |src|);
    Sized(sb, fs', k);
    forall i | 0 <= i < |xs| ensures InFootprint(sb, fs0, fs', k, ContentSlots(off / BSIZE, hi), xs[i]) {
      FootprintSame(sb, fs0, fs, fs', k, ContentSlots(off / BSIZE, hi), xs[i]);
    }
    LogsGainsSame(sb, fs0, fs, fs', k, xs, xs);
    forall bn | off / BSIZE <= bn < hi ensures BlockAt(fs', k, bn) in xs {
      assert At(fs'.blocks, fs'.inodes[k], SlotOf(bn)) == At(fs.blocks, fs.inodes[k], SlotOf(bn));
      assert BlockAt(fs, k, bn) in xs;
    }
    assert (xs + [IBlock(k)])[..|xs|] == xs;
  }

  /** Bytes o..o+m of a file, within one block. */
  lemma ReadPiece(sb: Super, fs: Fs, k: nat, o: nat, m: nat)
    requires FsOk(sb, fs) && k < |fs.inodes| && o + m <= fs.inodes[k].size && o % BSIZE + m <= BSIZE && 0 < m
    requires |fs.inodes[k].addrs| == NADDRS && fs.inodes[k].size <= MAXBYTES && BlockAt(fs, k, o / BSIZE) != 0
    ensures BlockAt(fs, k, o / BSIZE) < |fs.blocks|
    ensures Content(fs, k)[o..o + m] == fs.blocks[BlockAt(fs, k, o / BSIZE)][o % BSIZE..o % BSIZE + m]
  {
    hide At, SlotOf, Owned, Exact, Marks;
    SlotInRange(sb, fs, k, SlotOf(o / BSIZE));
    var b := BlockAt(fs, k, o / BSIZE);
    forall p | o <= p < o + m ensures Content(fs, k)[p] == fs.blocks[b][p - o + o % BSIZE] {
      assert p / BSIZE == o / BSIZE && p % BSIZE == p - o + o % BSIZE;
      assert Content(fs, k)[p] == ByteAt(fs, k, p);
    }
  }
}
