/** The log header sector (log.c:36-39, 85-113) and the view of a disk it gives. */
module LogHeader {
  import opened Blocks
  import opened LogSpec
  import opened BufferCache

  function Count(b: Block): (n: nat)
    ensures n < WORDS
  {
    if Word(b, 0) < WORDS then Word(b, 0) else 0
  }

  /** lh.sector[0..n) as read_head finds it in the header sector. */
  function Header(b: Block): (lh: seq<nat>)
    ensures |lh| == Count(b)
  {
    seq(Count(b), i requires 0 <= i < Count(b) => Word(b, i + 1))
  }

  function PutSectors(b: Block, lh: seq<nat>): Block
    requires |lh| < WORDS && Below(lh, WORD_LIMIT)
  {
    if |lh| == 0 then b
    else SetWord(PutSectors(b, lh[..|lh| - 1]), |lh|, lh[|lh| - 1])
  }

  /** The header sector write_head makes out of the old one. */
  function HeaderBlock(b: Block, lh: seq<nat>): Block
    requires |lh| < WORDS && Below(lh, WORD_LIMIT)
  {
    PutSectors(SetWord(b, 0, |lh|), lh)
  }

  lemma {:induction false} PutSectorsWord(b: Block, lh: seq<nat>, k: nat)
    requires |lh| < WORDS && k < WORDS && Below(lh, WORD_LIMIT)
    ensures Word(PutSectors(b, lh), k) == if 1 <= k <= |lh| then lh[k - 1] else Word(b, k)
  {
    if |lh| > 0 {
      PutSectorsWord(b, lh[..|lh| - 1], k);
      SetWordGet(PutSectors(b, lh[..|lh| - 1]), |lh|, lh[|lh| - 1], k);
    }
  }

  /** read_head finds exactly what write_head stored: the count, then the sector numbers (log.c:36-39). */
  lemma HeaderRoundTrip(b: Block, lh: seq<nat>)
    requires |lh| < WORDS && Below(lh, WORD_LIMIT)
    ensures Header(HeaderBlock(b, lh)) == lh
    ensures Word(HeaderBlock(b, lh), 0) == |lh|
    ensures forall i :: 0 <= i < |lh| ==> Word(HeaderBlock(b, lh), i + 1) == lh[i]
  {
    var b0 := SetWord(b, 0, |lh|);
    PutSectorsWord(b0, lh, 0);
    SetWordGet(b, 0, |lh|, 0);
    forall i | 0 <= i < |lh| ensures Word(HeaderBlock(b, lh), i + 1) == lh[i] {
      PutSectorsWord(b0, lh, i + 1);
    }
  }

  /** A raw disk cut along the log that starts at sector `start`. */
  function View(disk: seq<Block>, start: nat): Disk
    requires start < |disk|
  {
    Disk(disk[..start], Header(disk[start]), disk[start + 1..])
  }

  function Seen1(w: SectorWrite, start: nat): Write {
    if w.sector < start then ToHome(w.sector, w.data)
    else if w.sector == start then ToHead(Header(w.data))
    else ToArea(w.sector - start - 1, w.data)
  }

  /** The sector writes from position `from` on, as the log sees them. */
  function Seen(ws: seq<SectorWrite>, start: nat, from: nat): (r: seq<Write>)
    requires from <= |ws|
    ensures |r| == |ws| - from
  {
    seq(|ws| - from, i requires 0 <= i < |ws| - from => Seen1(ws[from + i], start))
  }

  lemma SeenAppend(ws: seq<SectorWrite>, w: SectorWrite, start: nat, from: nat)
    requires from <= |ws|
    ensures Seen(ws + [w], start, from) == Seen(ws, start, from) + [Seen1(w, start)]
  {
  }

  lemma SeenExtends(a: seq<SectorWrite>, ws: seq<SectorWrite>, start: nat, from: nat)
    requires from <= |a| && a <= ws
    ensures Seen(ws, start, from) == Seen(a, start, from) + Seen(ws, start, |a|)
  {
  }

  /** A raw sector write is the write it is seen as. */
  lemma ViewWrite(disk: seq<Block>, start: nat, w: SectorWrite)
    requires start < |disk| && w.sector < |disk|
    requires w.sector == start ==> |Header(w.data)| <= |disk| - start - 1 && Below(Header(w.data), start)
    ensures Fits(View(disk, start), Seen1(w, start))
    ensures View(disk[w.sector := w.data], start) == Apply1(View(disk, start), Seen1(w, start))
  {
    var d', v := disk[w.sector := w.data], View(disk, start);
    if w.sector < start {
      assert d'[..start] == v.home[w.sector := w.data] && d'[start + 1..] == v.area;
    } else if w.sector == start {
      assert d'[..start] == v.home && d'[start + 1..] == v.area;
    } else {
      assert d'[..start] == v.home && d'[start + 1..] == v.area[w.sector - start - 1 := w.data];
    }
  }

  // -------- Pinned sectors --------

  /** The sectors with a dirty buffer. */
  ghost function Pins(buf: seq<Buf>): set<nat> {
    set i | 0 <= i < |buf| && buf[i].dirty :: buf[i].sector
  }

  ghost function Sectors(lh: seq<nat>): set<nat> {
    set i | 0 <= i < |lh| :: lh[i]
  }

  lemma DirtyIsPinned(buf: seq<Buf>, i: nat)
    requires i < |buf| && buf[i].dirty
    ensures buf[i].sector in Pins(buf)
  {
  }

  lemma UnpinnedDurable(buf: seq<Buf>, disk: seq<Block>, logical: seq<Block>, s: nat)
    requires CacheOk(buf, disk, logical) && s < |disk| && s !in Pins(buf)
    ensures logical[s] == disk[s]
  {
    assert forall i :: 0 <= i < |buf| && buf[i].dirty ==> buf[i].sector in Pins(buf);
  }

  predicate NoneBusy(buf: seq<Buf>) {
    forall i :: 0 <= i < |buf| ==> !buf[i].busy
  }

  /** The buffers that bget may recycle. */
  function Spares(buf: seq<Buf>): set<nat> {
    set i | 0 <= i < |buf| && buf[i].Eligible()
  }

  function Busy(buf: seq<Buf>): set<nat> {
    set i | 0 <= i < |buf| && buf[i].busy
  }

  /** Whoever holds a buffer holds a home sector, and none of those listed. */
  predicate Readers(buf: seq<Buf>, lh: seq<nat>, start: nat) {
    forall i :: 0 <= i < |buf| && buf[i].busy ==> buf[i].sector < start && buf[i].sector !in lh
  }

  /** Buffers held stay so, unchanged, and no others are. */
  predicate SameHeld(buf: seq<Buf>, buf': seq<Buf>) {
    && |buf| == |buf'|
    && forall i :: 0 <= i < |buf| ==> (buf'[i].busy <==> buf[i].busy) && (buf[i].busy ==> buf'[i] == buf[i])
  }

  lemma HeldReaders(buf: seq<Buf>, buf': seq<Buf>, lh: seq<nat>, start: nat)
    requires Readers(buf, lh, start) && SameHeld(buf, buf')
    ensures Readers(buf', lh, start) && Readers(buf', [], start)
  {
  }

  lemma HeldTrans(a: seq<Buf>, b: seq<Buf>, c: seq<Buf>)
    requires SameHeld(a, b) && SameHeld(b, c)
    ensures SameHeld(a, c)
  {
  }

  lemma TwoSpares(buf: seq<Buf>, i: nat, j: nat)
    requires i < |buf| && j < |buf| && i != j && buf[i].Eligible() && buf[j].Eligible()
    ensures |Spares(buf)| >= 2
  {
    var two := {i, j};
    assert two <= Spares(buf) && |two| == 2;
    assert Spares(buf) == two + (Spares(buf) - two);
  }

  /** A sector nobody holds or has pinned can be had exactly if some buffer can be recycled. */
  lemma SpareFor(buf: seq<Buf>, s: nat)
    requires s !in Pins(buf) && forall i :: 0 <= i < |buf| && buf[i].busy ==> buf[i].sector != s
    ensures forall i :: 0 <= i < |buf| && buf[i].Holds(ROOTDEV, s) ==> buf[i].Eligible()
    ensures Spares(buf) == {} <==>
            forall i :: 0 <= i < |buf| ==> !buf[i].Holds(ROOTDEV, s) && !buf[i].Eligible()
  {
    assert forall i :: 0 <= i < |buf| && buf[i].dirty ==> buf[i].sector in Pins(buf);
    if i :| i in Spares(buf) { assert buf[i].Eligible(); }
    else { assert forall i :: 0 <= i < |buf| && buf[i].Eligible() ==> i in Spares(buf); }
  }

  lemma NoneBusySpares(buf: seq<Buf>, disk: seq<Block>, logical: seq<Block>)
    requires NoneBusy(buf) && Pins(buf) == {} && CacheOk(buf, disk, logical)
    ensures |Spares(buf)| >= 2
  {
    assert forall i :: 0 <= i < |buf| && buf[i].dirty ==> buf[i].sector in Pins(buf);
    TwoSpares(buf, 0, 1);
  }

  lemma PinsOneMore(buf: seq<Buf>, b: Buf)
    ensures Pins(buf + [b]) == Pins(buf) + if b.dirty then {b.sector} else {}
  {
    forall s | s in Pins(buf) ensures s in Pins(buf + [b]) {
      var i :| 0 <= i < |buf| && buf[i].dirty && buf[i].sector == s;
      assert (buf + [b])[i] == buf[i];
    }
    assert (buf + [b])[|buf|] == b;
  }

  lemma SparesOneMore(buf: seq<Buf>, b: Buf)
    ensures |Spares(buf + [b])| == |Spares(buf)| + if b.Eligible() then 1 else 0
  {
    var n := |buf|;
    assert (buf + [b])[n] == b;
    assert Spares(buf + [b]) == Spares(buf) + if b.Eligible() then {n} else {};
  }

  lemma BusyOneMore(buf: seq<Buf>, b: Buf)
    ensures |Busy(buf + [b])| == |Busy(buf)| + if b.busy then 1 else 0
  {
    var n := |buf|;
    assert (buf + [b])[n] == b;
    assert Busy(buf + [b]) == Busy(buf) + if b.busy then {n} else {};
  }

  /** Every buffer can be recycled, is pinned, or is held. */
  lemma {:induction false} SpareCount(buf: seq<Buf>)
    requires Unique(buf) && forall i :: 0 <= i < |buf| && buf[i].dirty ==> buf[i].dev == ROOTDEV && !buf[i].busy
    ensures |Spares(buf)| + |Pins(buf)| + |Busy(buf)| == |buf|
  {
    if |buf| > 0 {
      var n := |buf| - 1;
      var a, b := buf[..n], buf[n];
      assert buf == a + [b];
      assert b.dirty ==> b.sector !in Pins(a);
      hide Spares, Busy, Pins;
      SpareCount(a);
      PinsOneMore(a, b);
      SparesOneMore(a, b);
      BusyOneMore(a, b);
    }
  }

  /** A buffer keeps its dirty flag and, if dirty, its sector. */
  lemma PinsSame(buf: seq<Buf>, b: nat, nb: Buf)
    requires b < |buf| && nb.dirty == buf[b].dirty && (nb.dirty ==> nb.sector == buf[b].sector)
    ensures Pins(buf[b := nb]) == Pins(buf)
  {
    var r := buf[b := nb];
    forall s | s in Pins(buf) ensures s in Pins(r) {
      var i :| 0 <= i < |buf| && buf[i].dirty && buf[i].sector == s;
      assert r[i].dirty && r[i].sector == s;
    }
  }

  /** A dirty buffer is written, or a held buffer is pinned. */
  lemma PinsChange(buf: seq<Buf>, disk: seq<Block>, logical: seq<Block>, b: nat, nb: Buf)
    requires CacheOk(buf, disk, logical) && b < NBUF && buf[b].dev == ROOTDEV && nb.sector == buf[b].sector
    ensures Pins(buf[b := nb]) == Pins(buf) - {nb.sector} + if nb.dirty then {nb.sector} else {}
  {
    var r := buf[b := nb];
    forall s | s in Pins(buf) && s != nb.sector ensures s in Pins(r) {
      var i :| 0 <= i < |buf| && buf[i].dirty && buf[i].sector == s;
      assert r[i].dirty && r[i].sector == s;
    }
    forall i | 0 <= i < NBUF && i != b && buf[i].dirty ensures buf[i].sector != nb.sector {
      assert Coherent(buf[i], logical);
    }
    if nb.dirty { assert r[b].dirty; }
  }

  lemma {:induction false} SectorsCount(lh: seq<nat>)
    ensures |Sectors(lh)| <= |lh|
  {
    if |lh| > 0 {
      var n := |lh| - 1;
      SectorsCount(lh[..n]);
      assert Sectors(lh) == Sectors(lh[..n]) + {lh[n]};
    }
  }

  lemma {:induction false} DistinctCount(lh: seq<nat>)
    requires Distinct(lh)
    ensures |Sectors(lh)| == |lh|
  {
    if |lh| > 0 {
      var n := |lh| - 1;
      DistinctCount(lh[..n]);
      assert Sectors(lh) == Sectors(lh[..n]) + {lh[n]};
      assert lh[n] !in Sectors(lh[..n]);
    }
  }

  lemma {:induction false} PinsCount(buf: seq<Buf>)
    requires forall i :: 0 <= i < |buf| ==> buf[i].dirty && buf[i].dev == ROOTDEV
    requires Unique(buf)
    ensures |Pins(buf)| == |buf|
  {
    if |buf| > 0 {
      var n := |buf| - 1;
      PinsCount(buf[..n]);
      assert Pins(buf) == Pins(buf[..n]) + {buf[n].sector};
      assert buf[n].sector !in Pins(buf[..n]);
    }
  }
}
