/** log.c above the buffer cache: every call issues the sector writes LogSpec describes,
    and readers see the last transaction's updates before they are durable. */
module Log {
  import opened Blocks
  import opened LogSpec
  import opened LogHeader
  import opened BufferCache

  lemma NotAllDirty(buf: seq<Buf>, disk: seq<Block>, logical: seq<Block>)
    requires CacheOk(buf, disk, logical) && |Pins(buf)| < NBUF
    ensures exists i :: 0 <= i < NBUF && !buf[i].dirty
  {
    if forall i :: 0 <= i < NBUF ==> buf[i].dirty {
      assert forall i :: 0 <= i < |buf| ==> Coherent(buf[i], logical);
      PinsCount(buf);
    }
  }

  /** What is left to install, once sector lh[tail] is done. */
  lemma PinsLeft(lh: seq<nat>, tail: nat, pins: set<nat>, start: nat)
    requires tail < |lh| < NBUF && Below(lh, start)
    requires pins == {} || (pins == Sectors(lh[tail..]) && Distinct(lh))
    ensures pins == {} || (lh[tail] in pins && |pins| < NBUF && pins - {lh[tail]} == Sectors(lh[tail + 1..]))
    ensures forall p :: p in pins ==> p < start
  {
    SectorsCount(lh[tail..]);
    assert lh[tail..][0] == lh[tail];
    if pins != {} {
      forall p | p in Sectors(lh[tail + 1..]) ensures p in pins && p != lh[tail] {
        var i :| 0 <= i < |lh[tail + 1..]| && lh[tail + 1..][i] == p;
        assert lh[tail..][i + 1] == p;
      }
      forall p | p in pins && p != lh[tail] ensures p in Sectors(lh[tail + 1..]) {
        var i :| 0 <= i < |lh[tail..]| && lh[tail..][i] == p;
        assert lh[tail + 1..][i - 1] == p;
      }
    }
  }

  lemma AllDurable(buf: seq<Buf>, disk: seq<Block>, logical: seq<Block>)
    requires CacheOk(buf, disk, logical) && Pins(buf) == {}
    ensures logical == disk
  {
    forall s | 0 <= s < |disk| ensures logical[s] == disk[s] { UnpinnedDurable(buf, disk, logical, s); }
  }

  /** The first `tail` updates are installed, by the writes since `mark`. */
  ghost predicate Installing(v: Disk, lh: seq<nat>, us: seq<Update>, disk: seq<Block>, trace: seq<SectorWrite>,
                             start: nat, mark: nat, tail: nat) {
    && start < |disk| && mark <= |trace| && tail <= |lh| <= |v.area| && us == Described(lh, v.area)
    && Below(lh, start) && |v.home| == start
    && View(disk, start) == v.(home := Redo(v.home, us, tail))
    && Seen(trace, start, mark) == Installs(us)[..tail]
  }

  lemma NothingListed(buf: seq<Buf>, lh: seq<nat>)
    ensures SameHeld(buf, buf) && (Sectors(lh) == {} <==> lh == []) && Sectors(lh[|lh|..]) == {}
  {
    assert lh != [] ==> lh[0] in Sectors(lh);
  }

  lemma InstallStart(lh: seq<nat>, disk: seq<Block>, trace: seq<SectorWrite>, start: nat)
    requires start < |disk| && |lh| < |disk| - start && Below(lh, start)
    ensures var v := View(disk, start); Installing(v, lh, Described(lh, v.area), disk, trace, start, |trace|, 0)
  {
  }

  lemma Installed(v: Disk, lh: seq<nat>, us: seq<Update>, disk: seq<Block>, trace: seq<SectorWrite>, start: nat,
                  mark: nat)
    requires Installing(v, lh, us, disk, trace, start, mark, |lh|)
    ensures View(disk, start) == v.(home := RedoAll(v.home, us)) && Seen(trace, start, mark) == Installs(us)
  {
  }

  lemma InstallStep(v: Disk, lh: seq<nat>, us: seq<Update>, disk: seq<Block>, trace: seq<SectorWrite>,
                    start: nat, mark: nat, tail: nat)
    requires Installing(v, lh, us, disk, trace, start, mark, tail) && tail < |lh|
    ensures start + 1 + tail < |disk|
    ensures var w := SectorWrite(lh[tail], disk[start + 1 + tail]);
            Installing(v, lh, us, disk[w.sector := w.data], trace + [w], start, mark, tail + 1)
  {
    var w := SectorWrite(lh[tail], disk[start + 1 + tail]);
    assert disk[start + 1 + tail] == View(disk, start).area[tail];
    ViewWrite(disk, start, w);
    SeenAppend(trace, w, start, mark);
  }

  /** With one more buffer held, a sector that is pinned, or any sector if there are two to spare, can be had. */
  lemma CanTake(buf: seq<Buf>, disk: seq<Block>, logical: seq<Block>, held: nat, s: nat)
    requires CacheOk(buf, disk, logical) && held < NBUF && buf[held].sector != s
    requires forall i :: 0 <= i < NBUF && i != held && buf[i].busy ==> buf[i].sector != s
    requires s in Pins(buf) || exists i :: 0 <= i < NBUF && buf[i].Eligible()
    ensures forall i :: 0 <= i < NBUF && buf[i].Holds(ROOTDEV, s) ==> !buf[i].busy
    ensures exists i :: 0 <= i < NBUF && (buf[i].Holds(ROOTDEV, s) || buf[i].Eligible())
  {
    if s in Pins(buf) {
      var i :| 0 <= i < |buf| && buf[i].dirty && buf[i].sector == s;
      assert Coherent(buf[i], logical);
      assert buf[i].Holds(ROOTDEV, s);
    }
  }

  /** Another one is left when one of two is taken. */
  lemma AnotherSpare(buf: seq<Buf>, b: nat, nb: Buf)
    requires |Spares(buf)| >= 2 && b < |buf|
    ensures var r := buf[b := nb]; exists i :: 0 <= i < |r| && r[i].Eligible()
  {
    assert |Spares(buf) - {b}| >= |Spares(buf)| - 1;
    var i :| i in Spares(buf) - {b};
    var r := buf[b := nb];
    assert r[i].Eligible();
  }

  /** The buffers left to a commit: those neither pinned by the transaction nor held by anybody. */
  lemma SparesLeft(buf: seq<Buf>, disk: seq<Block>, logical: seq<Block>, lh: seq<nat>, start: nat)
    requires CacheOk(buf, disk, logical) && Readers(buf, lh, start) && Pins(buf) == Sectors(lh) && Distinct(lh)
    ensures |Spares(buf)| + |lh| + |Busy(buf)| == NBUF
  {
    forall i | 0 <= i < |buf| && buf[i].dirty ensures buf[i].dev == ROOTDEV && !buf[i].busy {
      DirtyIsPinned(buf, i);
      assert Coherent(buf[i], logical) && buf[i].sector in Sectors(lh);
    }
    SpareCount(buf);
    DistinctCount(lh);
  }

  /** Nine sectors and a tenth buffer in the hands of a reader: none is left. */
  lemma ReaderInTheWay(disk: seq<Block>)
    requires |disk| > NBUF
    ensures var buf, lh := Crowded(disk), seq(NBUF - 1, i => i);
      && CacheOk(buf, disk, disk) && Readers(buf, lh, NBUF) && Pins(buf) == Sectors(lh) && Distinct(lh)
      && |Busy(buf)| == 1 && Spares(buf) == {}
  {
    var buf, lh := Crowded(disk), seq(NBUF - 1, i => i);
    assert Busy(buf) == {NBUF - 1};
    forall s | s in Sectors(lh) ensures s in Pins(buf) { assert buf[s].dirty; }
    forall s | s in Pins(buf) ensures s in Sectors(lh) { assert lh[s] == s; }
  }

  function Crowded(disk: seq<Block>): seq<Buf>
    requires |disk| > NBUF
  {
    seq(NBUF, i requires 0 <= i < NBUF => Buf(ROOTDEV, i, i == NBUF - 1, true, i < NBUF - 1, disk[i]))
  }

  class Log {
    const bc: Bcache
    const start: nat
    const size: nat

    /** lh.sector[0..n) and log.busy */
    var lh: seq<nat>
    var busy: bool

    /** The disk when the running transaction began, the updates it has logged, and where its
        sector writes start in the trace. */
    ghost var base: Disk
    ghost var updates: seq<Update>
    ghost var mark: nat

    /** The cache is consistent, and the log sits at the end of the disk (log.c:62). */
    ghost predicate Mounted()
      reads this, bc
    {
      && bc.Valid()
      && 2 <= size && size - 1 < NBUF <= LOGSIZE && start + size == |bc.disk| < WORD_LIMIT
    }

    /** Nobody else holds log sectors; the pinned buffers are exactly the logged sectors;
        the disk and the log header are those of the running transaction. */
    ghost predicate Valid()
      reads this, bc
    {
      && Mounted()
      && (!busy ==> updates == [])
      && (forall i :: 0 <= i < NBUF && bc.buf[i].busy ==> bc.buf[i].sector < start)
      && Pins(bc.buf) == Sectors(lh)
      && |base.area| == size - 1
      && TxOk(base, updates, lh, mark, bc.disk, bc.logical, bc.trace, start)
      && Rooted(bc.origin, bc.trace, mark, base, start)
    }

    /** initlog and recover_from_log (log.c:53-66, 115-122): whatever transaction the header
        names is installed, and the log starts out empty. */
    constructor (bc: Bcache, start: nat, size: nat)
      requires bc.Valid() && NoneBusy(bc.buf) && Pins(bc.buf) == {}
      requires 2 <= size && size - 1 < NBUF && start + size == |bc.disk| < WORD_LIMIT
      requires WellFormed(View(bc.disk, start))
      modifies bc
      ensures this.bc == bc && this.start == start && this.size == size
      ensures Valid() && !busy && base == Recovered(old(View(bc.disk, start))) == View(bc.disk, start)
      ensures old(bc.trace) <= bc.trace
      ensures Seen(bc.trace, start, |old(bc.trace)|) == RecoverWrites(old(View(bc.disk, start)))
    {
      hide CacheOk, ListOk, TraceOk, Pins;
      this.bc, this.start, this.size := bc, start, size;
      lh, busy, base, updates, mark := [], false, View(bc.disk, start), [], 0;
      new;
      Recover();
      EndTrans();
    }

    /** log.c:144-148 */
    method EndTrans()
      requires Mounted() && Readers(bc.buf, [], start) && Pins(bc.buf) == {} && lh == [] && Clean(View(bc.disk, start))
      modifies `busy, `base, `updates, `mark
      ensures Valid() && !busy && base == View(bc.disk, start) && updates == [] && mark == |bc.trace|
      ensures bc.disk == bc.logical
    {
      hide CacheOk, ListOk, TraceOk, TxOk, Rooted, Pins;
      AllDurable(bc.buf, bc.disk, bc.logical);
      FreshTx(bc.disk, bc.trace, start);
      RootedNow(bc.origin, bc.trace, bc.disk, start);
      BufOk(bc.buf, bc.disk, bc.logical, 0);
      assert Sectors([]) == {};
      busy, base, updates, mark := false, View(bc.disk, start), [], |bc.trace|;
    }

    /** recover_from_log (log.c:115-122). */
    method Recover()
      requires Mounted() && NoneBusy(bc.buf) && Pins(bc.buf) == {} && WellFormed(View(bc.disk, start))
      modifies `lh, bc
      ensures Mounted() && NoneBusy(bc.buf) && Pins(bc.buf) == {} && lh == []
      ensures View(bc.disk, start) == Recovered(old(View(bc.disk, start))) && old(bc.trace) <= bc.trace
      ensures Seen(bc.trace, start, |old(bc.trace)|) == RecoverWrites(old(View(bc.disk, start)))
    {
      hide CacheOk, ListOk, TraceOk, Spares, Pins;
      ReadHead();
      NoneBusySpares(bc.buf, bc.disk, bc.logical);
      InstallTrans();
      ghost var disk1, trace1 := bc.disk, bc.trace;
      lh := [];
      var o; ghost var hb; o, hb := WriteHead();
      ViewWrite(disk1, start, SectorWrite(start, hb));
      SeenAppend(trace1, SectorWrite(start, hb), start, |old(bc.trace)|);
    }

    /** read_head (log.c:85-96). */
    method ReadHead()
      requires Mounted() && NoneBusy(bc.buf) && |Pins(bc.buf)| < NBUF && start !in Pins(bc.buf)
      modifies `lh, bc
      ensures Mounted() && NoneBusy(bc.buf) && Pins(bc.buf) == old(Pins(bc.buf))
      ensures bc.disk == old(bc.disk) && bc.logical == old(bc.logical) && bc.trace == old(bc.trace)
      ensures lh == Header(bc.disk[start])
    {
      NotAllDirty(bc.buf, bc.disk, bc.logical);
      UnpinnedDurable(bc.buf, bc.disk, bc.logical, start);
      var o, b := bc.Bread(ROOTDEV, start);
      lh := ScanHeader(bc.buf[b].data);
      o := bc.Brelse(b);
      PinsSame(old(bc.buf), b, bc.buf[b]);
      assert bc.buf == old(bc.buf)[b := bc.buf[b]];
    }

    /** log.c:91-94 */
    static method ScanHeader(data: Block) returns (lh: seq<nat>)
      ensures lh == Header(data)
    {
      lh := [];
      for i := 0 to Count(data)
        invariant lh == Header(data)[..i]
      {
        lh := lh + [Word(data, i + 1)];
      }
    }

    /** install_trans (log.c:69-82). */
    method InstallTrans()
      requires Mounted() && Readers(bc.buf, lh, start) && Spares(bc.buf) != {}
      requires |lh| <= size - 1 && Below(lh, start)
      requires (Pins(bc.buf) == {} && |Spares(bc.buf)| >= 2) || (Pins(bc.buf) == Sectors(lh) && Distinct(lh))
      modifies bc
      ensures Mounted() && SameHeld(old(bc.buf), bc.buf) && Spares(bc.buf) != {} && Pins(bc.buf) == {}
      ensures var v := old(View(bc.disk, start));
              && View(bc.disk, start) == v.(home := RedoAll(v.home, Described(lh, v.area)))
              && old(bc.trace) <= bc.trace
              && Seen(bc.trace, start, |old(bc.trace)|) == Installs(Described(lh, v.area))
    {
      hide CacheOk, ListOk, TraceOk, Unique, Installing, Spares, SameHeld, Readers, Pins, Sectors;
      NothingListed(bc.buf, lh);
      ghost var v := View(bc.disk, start);
      ghost var us := Described(lh, v.area);
      ghost var mark := |bc.trace|;
      assert lh[0..] == lh;
      InstallStart(lh, bc.disk, bc.trace, start);
      for tail := 0 to |lh|
        invariant Mounted() && Readers(bc.buf, lh, start) && SameHeld(old(bc.buf), bc.buf) && Spares(bc.buf) != {}
        invariant Pins(bc.buf) == {} || (Pins(bc.buf) == Sectors(lh[tail..]) && Distinct(lh))
        invariant Pins(bc.buf) == {} && tail < |lh| ==> |Spares(bc.buf)| >= 2
        invariant old(bc.trace) <= bc.trace && Installing(v, lh, us, bc.disk, bc.trace, start, mark, tail)
      {
        PinsLeft(lh, tail, Pins(bc.buf), start);
        InstallStep(v, lh, us, bc.disk, bc.trace, start, mark, tail);
        ghost var was := bc.buf;
        InstallOne(tail);
        HeldTrans(old(bc.buf), was, bc.buf);
        HeldReaders(was, bc.buf, lh, start);
      }
      Installed(v, lh, us, bc.disk, bc.trace, start, mark);
    }

    /** write_head (log.c:101-113): one write of the header sector; it panics in bget exactly when no buffer can
        be recycled, for the header itself is never held or pinned. */
    method WriteHead() returns (o: Outcome, ghost hb: Block)
      requires Mounted() && Readers(bc.buf, [], start)
      requires |lh| <= size - 1 && Below(lh, start) && start !in Pins(bc.buf)
      modifies bc
      ensures o != Sleeps && (o == Panic <==> Spares(old(bc.buf)) == {})
      ensures o == Panic ==> bc.disk == old(bc.disk) && bc.trace == old(bc.trace)
      ensures o == Done ==>
                && Mounted() && SameHeld(old(bc.buf), bc.buf) && Spares(bc.buf) == Spares(old(bc.buf))
                && Pins(bc.buf) == old(Pins(bc.buf)) && Header(hb) == lh
                && bc.trace == old(bc.trace) + [SectorWrite(start, hb)]
                && bc.disk == old(bc.disk)[start := hb] && bc.logical == old(bc.logical)[start := hb]
    {
      hide ListOk, TraceOk;
      SpareFor(bc.buf, start);
      var b;
      o, b := bc.Bread(ROOTDEV, start);
      hb := ZeroBlock();
      if o == Panic { return; }
      var data := FillHeader(bc.buf[b].data);
      bc.WriteOut(b, data);
      PinsSame(old(bc.buf), b, bc.buf[b]);
      assert bc.buf == old(bc.buf)[b := bc.buf[b]];
      hb := data;
    }

    /** log.c:107-110 */
    method FillHeader(hdr: Block) returns (data: Block)
      requires |lh| < WORDS && Below(lh, WORD_LIMIT)
      ensures Header(data) == lh
      ensures Word(data, 0) == |lh| && forall i :: 0 <= i < |lh| ==> Word(data, i + 1) == lh[i]
    {
      data := SetWord(hdr, 0, |lh|);
      for i := 0 to |lh|
        invariant data == PutSectors(SetWord(hdr, 0, |lh|), lh[..i])
      {
        assert lh[..i + 1][..i] == lh[..i];
        data := SetWord(data, i + 1, lh[i]);
      }
      assert lh[..|lh|] == lh;
      HeaderRoundTrip(hdr, lh);
    }

    /** One round of install_trans (log.c:75-80): copy a log block to its home sector. */
    method InstallOne(tail: nat)
      requires Mounted() && Readers(bc.buf, lh, start) && Spares(bc.buf) != {}
      requires tail < |lh| <= size - 1 && Below(lh, start)
      requires lh[tail] in Pins(bc.buf) || |Spares(bc.buf)| >= 2
      requires start + 1 + tail !in Pins(bc.buf)
      modifies bc
      ensures Mounted() && Pins(bc.buf) == old(Pins(bc.buf)) - {lh[tail]}
      ensures SameHeld(old(bc.buf), bc.buf) && Spares(old(bc.buf)) <= Spares(bc.buf) && |Spares(bc.buf)| >= 2
      ensures var data := old(bc.disk)[start + 1 + tail];
              && bc.trace == old(bc.trace) + [SectorWrite(lh[tail], data)]
              && bc.disk == old(bc.disk)[lh[tail] := data] && bc.logical == old(bc.logical)[lh[tail] := data]
    {
      hide CacheOk, ListOk, TraceOk, Pins;
      UnpinnedDurable(bc.buf, bc.disk, bc.logical, start + 1 + tail);
      BufOk(bc.buf, bc.disk, bc.logical, 0);
      var lbuf, dbuf := TakeBoth(start + tail + 1, lh[tail]);
      CopyHome(lbuf, dbuf);
      TwoSpares(bc.buf, lbuf, dbuf);
    }

    /** Hold a log block and its home sector (log.c:75-76). */
    method TakeBoth(from: nat, to: nat) returns (lbuf: nat, dbuf: nat)
      requires Mounted() && from < |bc.disk| && to < |bc.disk| && from != to && from !in Pins(bc.buf)
      requires forall i :: 0 <= i < NBUF && bc.buf[i].busy ==> bc.buf[i].sector != from && bc.buf[i].sector != to
      requires Spares(bc.buf) != {} && (to in Pins(bc.buf) || |Spares(bc.buf)| >= 2)
      modifies bc
      ensures Mounted() && lbuf < NBUF && dbuf < NBUF && lbuf != dbuf && Pins(bc.buf) == old(Pins(bc.buf))
      ensures var was := old(bc.buf); var logical := bc.logical;
              && was[lbuf].Eligible() && !was[dbuf].busy
              && (was[dbuf].dirty ==> was[dbuf].Holds(ROOTDEV, to))
              && bc.buf == was[lbuf := Buf(ROOTDEV, from, true, true, false, logical[from])]
                              [dbuf := Buf(ROOTDEV, to, true, true, was[dbuf].dirty, logical[to])]
      ensures bc.disk == old(bc.disk) && bc.logical == old(bc.logical) && bc.trace == old(bc.trace)
    {
      SpareFor(bc.buf, from);
      hide Spares, ListOk;
      var o;
      o, lbuf := bc.Bread(ROOTDEV, from);
      assert bc.buf == old(bc.buf)[lbuf := bc.buf[lbuf]];
      if |Spares(old(bc.buf))| >= 2 { AnotherSpare(old(bc.buf), lbuf, bc.buf[lbuf]); }
      PinsSame(old(bc.buf), lbuf, bc.buf[lbuf]);
      ghost var one := bc.buf;
      CanTake(one, bc.disk, bc.logical, lbuf, to);
      o, dbuf := bc.Bread(ROOTDEV, to);
      PinsSame(one, dbuf, bc.buf[dbuf]);
    }

    /** log.c:77-80 */
    method CopyHome(lbuf: nat, dbuf: nat)
      requires Mounted() && lbuf < NBUF && dbuf < NBUF && lbuf != dbuf
      requires bc.buf[lbuf].busy && bc.buf[dbuf].busy && bc.buf[lbuf].sector != bc.buf[dbuf].sector
      requires bc.buf[lbuf].valid && bc.buf[lbuf].data == bc.logical[bc.buf[lbuf].sector]
      modifies bc
      ensures Mounted()
      ensures var l, d := old(bc.buf)[lbuf], old(bc.buf)[dbuf];
              && bc.buf == old(bc.buf)[lbuf := l.(busy := false)]
                                      [dbuf := Buf(ROOTDEV, d.sector, false, true, false, l.data)]
              && bc.disk == old(bc.disk)[d.sector := l.data] && bc.logical == old(bc.logical)[d.sector := l.data]
              && bc.trace == old(bc.trace) + [SectorWrite(d.sector, l.data)]
              && Pins(bc.buf) == old(Pins(bc.buf)) - {d.sector}
    {
      hide ListOk;
      bc.Modify(dbuf, bc.buf[lbuf].data);
      var o := bc.Bwrite(dbuf);
      PinsChange(old(bc.buf), old(bc.disk), old(bc.logical), dbuf, bc.buf[dbuf]);
      assert bc.buf == old(bc.buf)[dbuf := bc.buf[dbuf]];
      PinsSame(bc.buf, lbuf, bc.buf[lbuf].(busy := false));
      o := bc.Brelse(lbuf);
      PinsSame(bc.buf, dbuf, bc.buf[dbuf].(busy := false));
      o := bc.Brelse(dbuf);
    }

    /** log_write (log.c:159-182): one write of a log block; the caller's buffer is pinned, and
        readers see its data from now on. It panics exactly when the log is full, outside a transaction,
        or when no buffer is left for the log block. */
    method LogWrite(b: nat) returns (o: Outcome)
      requires Valid() && b < NBUF && bc.buf[b].busy && bc.buf[b].valid
      modifies this, bc
      ensures o != Sleeps
      ensures o == Panic <==> LogFull(size - 1, |old(lh)|) || !old(busy) || Spares(old(bc.buf)) == {}
      ensures o == Panic ==> bc.disk == old(bc.disk) && bc.trace == old(bc.trace)
      ensures o == Done ==>
                && Valid() && busy && base == old(base) && mark == old(mark)
                && updates == old(updates) + [Update(old(bc.buf)[b].sector, old(bc.buf)[b].data)]
                && bc.buf[b] == old(bc.buf)[b].(dirty := true)
                && (forall i :: 0 <= i < NBUF && old(bc.buf)[i].busy && i != b ==> bc.buf[i] == old(bc.buf)[i])
    {
      hide ListOk, CacheOk, Running, Rooted, TraceOk, Spares;
      if |lh| >= LOGSIZE || |lh| >= size - 1 {
        return Panic;
      }
      if !busy {
        return Panic;
      }
      BufOk(bc.buf, bc.disk, bc.logical, b);
      var i := FindSlot(bc.buf[b].sector);
      ghost var u := Update(bc.buf[b].sector, bc.buf[b].data);
      ghost var w := SectorWrite(start + 1 + i, u.data);
      TxStep(base, updates, lh, mark, bc.disk, bc.logical, bc.trace, start, u, w,
             bc.logical[w.sector := u.data][u.sector := u.data]);
      PinsBelow(lh, start);
      o := AppendBlock(b, i);
      if o == Done {
        BufOk(bc.buf, bc.disk, bc.logical, b);
        RootedGrows(bc.origin, old(bc.trace), bc.trace, bc.disk, mark, base, start);
        Record(b, i);
      }
    }

    /** Note the sector in the header and pin the caller's buffer (log.c:174, 179-181). */
    method Record(b: nat, i: nat)
      requires Mounted() && b < NBUF && bc.buf[b].busy && |base.area| == size - 1 && busy
      requires forall k :: 0 <= k < NBUF && bc.buf[k].busy ==> bc.buf[k].sector < start
      requires Pins(bc.buf) == Sectors(lh) && i == Slot(lh, bc.buf[b].sector)
      requires var p := bc.buf[b];
               TxOk(base, updates + [Update(p.sector, p.data)], NextHeader(lh, p.sector), mark,
                    bc.disk, bc.logical[p.sector := p.data], bc.trace, start)
      requires Rooted(bc.origin, bc.trace, mark, base, start)
      modifies `lh, `updates, bc
      ensures Valid()
      ensures updates == old(updates) + [Update(old(bc.buf)[b].sector, old(bc.buf)[b].data)]
      ensures bc.buf == old(bc.buf)[b := old(bc.buf)[b].(dirty := true)]
    {
      hide ListOk, CacheOk, Running, Rooted, TraceOk;
      BufOk(bc.buf, bc.disk, bc.logical, b);
      PinsChange(bc.buf, bc.disk, bc.logical, b, bc.buf[b].(dirty := true));
      SectorsAppend(lh, bc.buf[b].sector);
      if i == |lh| {
        lh := lh + [bc.buf[b].sector];
      }
      updates := updates + [Update(bc.buf[b].sector, bc.buf[b].data)];
      bc.Pin(b);
    }

    /** log.c:170-173 */
    method FindSlot(s: nat) returns (i: nat)
      ensures i == Slot(lh, s)
    {
      i := 0;
      while i < |lh|
        invariant i <= |lh| && forall k :: 0 <= k < i ==> lh[k] != s
      {
        if lh[i] == s {
          break;
        }
        i := i + 1;
      }
      SlotFirst(lh, s, i);
    }

    /** Copy the data of buffer b to log block i (log.c:175-178). */
    method AppendBlock(b: nat, i: nat) returns (o: Outcome)
      requires Mounted() && b < NBUF && bc.buf[b].busy && i < size - 1
      requires start + 1 + i !in Pins(bc.buf)
      requires forall k :: 0 <= k < NBUF && bc.buf[k].busy ==> bc.buf[k].sector < start
      modifies bc
      ensures o != Sleeps && (o == Panic <==> Spares(old(bc.buf)) == {})
      ensures o == Panic ==> bc.disk == old(bc.disk) && bc.trace == old(bc.trace)
      ensures o == Done ==>
                && Mounted() && Pins(bc.buf) == old(Pins(bc.buf))
                && (forall k :: 0 <= k < NBUF ==> bc.buf[k].busy == old(bc.buf)[k].busy)
                && (forall k :: 0 <= k < NBUF && bc.buf[k].busy ==> bc.buf[k] == old(bc.buf)[k])
                && var data := old(bc.buf)[b].data;
                   && bc.trace == old(bc.trace) + [SectorWrite(start + 1 + i, data)]
                   && bc.disk == old(bc.disk)[start + 1 + i := data]
                   && bc.logical == old(bc.logical)[start + 1 + i := data]
    {
      SpareFor(bc.buf, start + i + 1);
      hide Spares, ListOk, TraceOk;
      var lbuf;
      o, lbuf := bc.Bread(ROOTDEV, start + i + 1);
      if o == Done {
        bc.WriteOut(lbuf, bc.buf[b].data);
        PinsSame(old(bc.buf), lbuf, bc.buf[lbuf]);
        assert bc.buf == old(bc.buf)[lbuf := bc.buf[lbuf]];
      }
    }

    /** Header, installs, header again (log.c:139-142). One buffer to spare is enough for all of it, and with none
        the first write_head panics before anything is written. */
    method CommitLog() returns (o: Outcome)
      requires Mounted() && Readers(bc.buf, lh, start)
      requires 0 < |lh| <= size - 1 && Below(lh, start) && Distinct(lh) && Pins(bc.buf) == Sectors(lh)
      modifies `lh, bc
      ensures o != Sleeps && (o == Panic <==> Spares(old(bc.buf)) == {})
      ensures o == Panic ==> bc.disk == old(bc.disk) && bc.trace == old(bc.trace)
      ensures o == Done ==>
                var v := old(View(bc.disk, start));
                && Mounted() && SameHeld(old(bc.buf), bc.buf) && Pins(bc.buf) == {} && lh == []
                && View(bc.disk, start) == Disk(RedoAll(v.home, Described(old(lh), v.area)), [], v.area)
                && old(bc.trace) <= bc.trace
                && Seen(bc.trace, start, |old(bc.trace)|) == CommitWrites(old(lh), v.area)
    {
      hide CacheOk, ListOk, TraceOk, Spares, SameHeld, Readers, Pins;
      ghost var v := View(bc.disk, start);
      PinsBelow(lh, start);
      NothingListed(bc.buf, lh);
      HeldReaders(bc.buf, bc.buf, lh, start);
      ghost var hb, hb';
      o, hb := WriteHead();
      if o == Panic { return; }
      ViewWrite(old(bc.disk), start, SectorWrite(start, hb));
      ghost var buf1 := bc.buf;
      HeldReaders(old(bc.buf), buf1, lh, start);
      InstallTrans();
      ghost var buf2, disk2, trace2 := bc.buf, bc.disk, bc.trace;
      HeldReaders(buf1, buf2, lh, start);
      HeldTrans(old(bc.buf), buf1, buf2);
      lh := [];
      o, hb' := WriteHead();
      ViewWrite(disk2, start, SectorWrite(start, hb'));
      HeldTrans(old(bc.buf), buf2, bc.buf);
      CommitSeen(old(bc.trace), hb, trace2, hb', start, old(lh), v.area);
    }

    /** commit_trans (log.c:135-149), while others hold any home sectors but those of the transaction: its sector
        writes are exactly those of the specified transaction, no buffer stays pinned, and readers see no change.
        It panics exactly when it has something to write and the others hold every buffer that is not pinned. */
    method CommitTrans() returns (o: Outcome)
      requires Valid() && Readers(bc.buf, lh, start)
      modifies this, bc
      ensures o != Sleeps
      ensures o == Panic <==> 0 < |old(lh)| && |old(lh)| + |Busy(old(bc.buf))| == NBUF
      ensures o == Panic ==> bc.disk == old(bc.disk) && bc.trace == old(bc.trace)
      ensures o == Done ==>
                && Valid() && !busy && SameHeld(old(bc.buf), bc.buf) && Pins(bc.buf) == {}
                && bc.disk[..start] == bc.logical[..start] == old(bc.logical[..start])
                && View(bc.disk, start) == base && base.home == RedoAll(old(base.home), old(updates))
                && updates == [] && mark == |bc.trace|
                && !LogAll(|old(base).area|, old(updates)).panicked
                && old(mark) <= |bc.trace| && Seen(bc.trace, start, old(mark)) == TxWrites(old(base), old(updates))
                && Rooted(bc.origin, bc.trace, old(mark), old(base), start)
    {
      hide CacheOk, ListOk, TraceOk, Running, Rooted, Spares, Busy, SameHeld, Readers, Pins, Sectors;
      TxReady(base, updates, lh, View(bc.disk, start));
      SparesLeft(bc.buf, bc.disk, bc.logical, lh, start);
      NothingListed(bc.buf, lh);
      o := Done;
      if |lh| > 0 {
        o := CommitLog();
        if o == Panic { return; }
        SeenExtends(old(bc.trace), bc.trace, start, mark);
        RootedGrows(bc.origin, old(bc.trace), bc.trace, bc.disk, mark, base, start);
      }
      HeldReaders(old(bc.buf), bc.buf, old(lh), start);
      EndTrans();
    }

    /** bread of a home sector by anybody, inside or outside the transaction: the durable disk
        overlaid with the running transaction's updates. */
    method Read(sector: nat) returns (o: Outcome, b: nat)
      requires Valid() && sector < start
      modifies bc
      ensures o != Panic ==> Valid()
      ensures o == Done ==> b < NBUF && bc.buf[b].busy && bc.buf[b].Holds(ROOTDEV, sector)
                            && bc.buf[b].data == RedoAll(base.home, updates)[sector]
      ensures o == Sleeps <==>
                exists i :: 0 <= i < NBUF && old(bc.buf)[i].Holds(ROOTDEV, sector) && old(bc.buf)[i].busy
      ensures o == Panic <==>
                forall i :: 0 <= i < NBUF ==> !old(bc.buf)[i].Holds(ROOTDEV, sector) && !old(bc.buf)[i].Eligible()
      ensures o != Done ==> bc.buf == old(bc.buf)
      ensures bc.disk == old(bc.disk) && bc.trace == old(bc.trace)
    {
      hide CacheOk, ListOk, TraceOk, Running, Rooted;
      BufOk(bc.buf, bc.disk, bc.logical, 0);
      o, b := bc.Bread(ROOTDEV, sector);
      if o == Done {
        PinsSame(old(bc.buf), b, bc.buf[b]);
        assert bc.logical[..start][sector] == bc.logical[sector];
      }
    }

    /** brelse of a home sector whose holder has published its changes. */
    method Release(b: nat)
      requires Valid() && b < NBUF && bc.buf[b].busy && bc.buf[b].valid
      requires bc.buf[b].data == RedoAll(base.home, updates)[bc.buf[b].sector]
      modifies bc
      ensures Valid() && bc.buf == old(bc.buf)[b := old(bc.buf)[b].(busy := false)]
      ensures bc.disk == old(bc.disk) && bc.trace == old(bc.trace)
    {
      hide CacheOk, ListOk, TraceOk, Running, Rooted;
      BufOk(bc.buf, bc.disk, bc.logical, b);
      assert bc.logical[..start][bc.buf[b].sector] == bc.logical[bc.buf[b].sector];
      PinsSame(bc.buf, b, bc.buf[b].(busy := false));
      var o := bc.Brelse(b);
    }

    /** The holder of a home sector changes its copy; readers see that only once log_write publishes it. */
    method Change(b: nat, data: Block)
      requires Valid() && b < NBUF && bc.buf[b].busy && bc.buf[b].valid
      modifies bc
      ensures Valid() && bc.buf == old(bc.buf)[b := old(bc.buf)[b].(data := data)]
      ensures bc.disk == old(bc.disk) && bc.logical == old(bc.logical) && bc.trace == old(bc.trace)
    {
      hide CacheOk, ListOk, TraceOk, Running, Rooted;
      BufOk(bc.buf, bc.disk, bc.logical, b);
      PinsSame(bc.buf, b, bc.buf[b].(data := data));
      bc.Modify(b, data);
    }

    /** begin_trans (log.c:124-133). */
    method BeginTrans() returns (o: Outcome)
      requires Valid()
      modifies `busy, `mark
      ensures Valid() && busy
      ensures o == if old(busy) then Sleeps else Done
      ensures old(busy) ==> mark == old(mark)
      ensures !old(busy) ==> mark == |bc.trace|
    {
      if busy {
        return Sleeps;
      }
      assert base == View(bc.disk, start);
      RootedNow(bc.origin, bc.trace, bc.disk, start);
      busy := true;
      mark := |bc.trace|;
      return Done;
    }
  }

  /** The transaction's disk is the one the sector writes before `mark` made. */
  ghost predicate Rooted(origin: seq<Block>, trace: seq<SectorWrite>, mark: nat, base: Disk, start: nat) {
    mark <= |trace| && start < |origin| && InDisk(trace, |origin|) && View(Replay(origin, trace, mark), start) == base
  }

  lemma RootedNow(origin: seq<Block>, trace: seq<SectorWrite>, disk: seq<Block>, start: nat)
    requires TraceOk(origin, trace, disk) && start < |disk|
    ensures Rooted(origin, trace, |trace|, View(disk, start), start)
  {
  }

  lemma RootedGrows(origin: seq<Block>, trace: seq<SectorWrite>, trace': seq<SectorWrite>, disk: seq<Block>, mark: nat,
                    base: Disk, start: nat)
    requires Rooted(origin, trace, mark, base, start) && trace <= trace' && TraceOk(origin, trace', disk)
    ensures Rooted(origin, trace', mark, base, start)
  {
    ReplayPrefix(origin, trace, trace', mark);
  }

  /** The disk that power failing after write k leaves, seen along the log: the transaction's disk with its writes
      up to that point applied. */
  lemma {:induction false} CutView(origin: seq<Block>, trace: seq<SectorWrite>, mark: nat, base: Disk, start: nat,
                                   k: nat)
    requires Rooted(origin, trace, mark, base, start) && mark <= k <= |trace|
    requires WellFormed(base) && AllFit(base, Seen(trace, start, mark))
    ensures View(Replay(origin, trace, k), start) == Apply(base, Seen(trace, start, mark), k - mark)
  {
    if k > mark {
      CutView(origin, trace, mark, base, start, k - 1);
      var w, ws := trace[k - 1], Seen(trace, start, mark);
      assert ws[k - 1 - mark] == Seen1(w, start) && Fits(base, ws[k - 1 - mark]);
      ViewWrite(Replay(origin, trace, k - 1), start, w);
    }
  }

  /** The code's own crash theorem: power failing after any sector write that the cache has issued since begin_trans
      leaves a disk that recovers to the old home sectors up to the header write, and to all the updates from it on. */
  lemma {:induction false} CrashInTransaction(origin: seq<Block>, trace: seq<SectorWrite>, mark: nat, base: Disk,
                                              start: nat, us: seq<Update>, k: nat)
    requires Rooted(origin, trace, mark, base, start) && mark <= k <= |trace|
    requires Clean(base) && Within(us, |base.home|) && !LogAll(|base.area|, us).panicked
    requires Seen(trace, start, mark) == TxWrites(base, us)
    ensures var t := LogAll(|base.area|, us); var d := View(Replay(origin, trace, k), start);
      && WellFormed(d)
      && Recovered(d).home == if k - mark <= |t.out| then base.home else RedoAll(base.home, us)
  {
    hide Rooted, View, Seen;
    CutView(origin, trace, mark, base, start, k);
    TxAtomic(base, us, k - mark);
  }

  /** The writes of a whole commit, put together. */
  lemma CommitSeen(t0: seq<SectorWrite>, hb: Block, t2: seq<SectorWrite>, hb': Block, start: nat,
                   lh: seq<nat>, area: seq<Block>)
    requires 0 < |lh| <= |area| && Header(hb) == lh && Header(hb') == []
    requires t0 + [SectorWrite(start, hb)] <= t2
    requires Seen(t2, start, |t0| + 1) == Installs(Described(lh, area))
    ensures Seen(t2 + [SectorWrite(start, hb')], start, |t0|) == CommitWrites(lh, area)
  {
    hide Installs, Described;
    SeenAppend(t2, SectorWrite(start, hb'), start, |t0|);
    SeenExtends(t0 + [SectorWrite(start, hb)], t2, start, |t0|);
    SeenAppend(t0, SectorWrite(start, hb), start, |t0|);
  }

  /** The in-memory header and the disk after some log_write calls on a clean disk. */
  ghost predicate Running(base: Disk, updates: seq<Update>, lh: seq<nat>, now: Disk)
    requires Clean(base) && Within(updates, |base.home|)
  {
    var t := LogAll(|base.area|, updates);
    && !t.panicked && t.lh == lh
    && AllFit(base, t.out) && now == Apply(base, t.out, |t.out|)
  }

  /** Disk, trace and in-memory header are those of a transaction that has logged `updates`,
      and what readers see of the home sectors is the durable disk with the updates laid over it. */
  ghost predicate TxOk(base: Disk, updates: seq<Update>, lh: seq<nat>, mark: nat,
                       disk: seq<Block>, logical: seq<Block>, trace: seq<SectorWrite>, start: nat)
  {
    && start < |disk| == |logical| && mark <= |trace|
    && Clean(base) && |base.home| == start && Within(updates, start)
    && Below(lh, start)
    && Running(base, updates, lh, View(disk, start))
    && logical[..start] == RedoAll(base.home, updates)
    && Seen(trace, start, mark) == LogAll(|base.area|, updates).out
  }

  /** One more log_write keeps the bookkeeping exact. */
  lemma {:induction false} RunningStep(base: Disk, updates: seq<Update>, lh: seq<nat>, now: Disk, u: Update)
    requires Clean(base) && Within(updates, |base.home|) && u.sector < |base.home|
    requires Running(base, updates, lh, now) && !LogFull(|base.area|, |lh|)
    ensures var i := Slot(lh, u.sector);
            && LogAll(|base.area|, updates + [u]).out == LogAll(|base.area|, updates).out + [ToArea(i, u.data)]
            && Running(base, updates + [u], NextHeader(lh, u.sector), Apply1(now, ToArea(i, u.data)))
    ensures RedoAll(base.home, updates + [u]) == RedoAll(base.home, updates)[u.sector := u.data]
  {
    LogOneMore(|base.area|, updates, u);
    RedoPrefix(base.home, updates, updates + [u], |updates|);
    var t := LogAll(|base.area|, updates);
    var w := ToArea(Slot(lh, u.sector), u.data);
    hide LogFirst, LogAll, NextHeader, Slot;
    assert AllFit(base, t.out + [w]);
    ApplyLeft(base, t.out, [w], |t.out|);
  }

  lemma LogOneMore(room: nat, us: seq<Update>, u: Update)
    ensures LogAll(room, us + [u]) == LogWrite(room, LogAll(room, us), u)
  {
    LogPrefix(room, us, u, |us|);
  }

  lemma {:induction false} LogPrefix(room: nat, us: seq<Update>, u: Update, k: nat)
    requires k <= |us|
    ensures LogFirst(room, us + [u], k) == LogFirst(room, us, k)
  {
    if k > 0 { LogPrefix(room, us, u, k - 1); }
  }

  lemma {:induction false} TxStep(base: Disk, updates: seq<Update>, lh: seq<nat>, mark: nat, disk: seq<Block>,
                                  logical: seq<Block>,
               trace: seq<SectorWrite>, start: nat, u: Update, w: SectorWrite, logical': seq<Block>)
    requires TxOk(base, updates, lh, mark, disk, logical, trace, start)
    requires u.sector < start && !LogFull(|base.area|, |lh|)
    requires w == SectorWrite(start + 1 + Slot(lh, u.sector), u.data) && w.sector < |disk|
    requires logical' == logical[w.sector := u.data][u.sector := u.data]
    ensures TxOk(base, updates + [u], NextHeader(lh, u.sector), mark, disk[w.sector := w.data],
                 logical', trace + [w], start)
  {
    hide Running, RedoAll, Apply, LogAll, Header;
    RunningStep(base, updates, lh, View(disk, start), u);
    ViewWrite(disk, start, w);
    SeenAppend(trace, w, start, mark);
    assert logical'[..start] == logical[..start][u.sector := u.data];
  }

  /** What commit_trans needs to know of the transaction it ends. */
  lemma TxReady(base: Disk, updates: seq<Update>, lh: seq<nat>, now: Disk)
    requires Clean(base) && Within(updates, |base.home|) && Running(base, updates, lh, now)
    ensures |lh| <= |now.area| && Distinct(lh) && Below(lh, |base.home|) && (lh == [] ==> updates == [])
    ensures now.home == base.home && now.head == [] && !LogAll(|base.area|, updates).panicked
    ensures RedoAll(now.home, Described(lh, now.area)) == RedoAll(base.home, updates)
    ensures TxWrites(base, updates) == LogAll(|base.area|, updates).out + CommitWrites(lh, now.area)
  {
    LogFaithful(base, updates, |updates|);
    var t := LogAll(|base.area|, updates);
    AreaOnly(base, t.out, |t.out|);
  }

  lemma FreshTx(disk: seq<Block>, trace: seq<SectorWrite>, start: nat)
    requires start < |disk| && Clean(View(disk, start))
    ensures TxOk(View(disk, start), [], [], |trace|, disk, disk, trace, start)
  {
  }

  lemma PinsBelow(lh: seq<nat>, start: nat)
    requires Below(lh, start)
    ensures forall p :: p in Sectors(lh) ==> p < start
  {
  }

  lemma SectorsAppend(lh: seq<nat>, s: nat)
    ensures Sectors(NextHeader(lh, s)) == Sectors(lh) + {s}
  {
    var more := lh + [s];
    if Slot(lh, s) == |lh| {
      assert more[|lh|] == s;
      forall p | p in Sectors(lh) ensures p in Sectors(more) {
        var i :| 0 <= i < |lh| && lh[i] == p;
        assert more[i] == p;
      }
    }
  }
}
