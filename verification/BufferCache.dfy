/** The buffer cache of bio.c above a disk that does what memide.c does.

    One call is one step. Where the C code sleeps until another process releases a buffer,
    the step reports `Sleeps` and changes nothing; the C code then starts over. */
module BufferCache {
  import opened Blocks
  import opened LruList

  const NBUF := 10
  const ROOTDEV := 1
  const NODEV := -1

  datatype Buf = Buf(dev: int, sector: nat, busy: bool, valid: bool, dirty: bool, data: Block) {
    predicate Holds(d: int, s: nat) {
      dev == d && sector == s
    }

    /** bget may recycle it (bio.c:84). */
    predicate Eligible() {
      !busy && !dirty
    }
  }

  datatype SectorWrite = SectorWrite(sector: nat, data: Block)

  datatype Outcome = Done | Sleeps | Panic

  // -------- The disk and its history --------

  predicate InDisk(ws: seq<SectorWrite>, n: nat) {
    forall i :: 0 <= i < |ws| ==> ws[i].sector < n
  }

  /** The disk after the first k of some sector writes: what power failing then leaves. */
  function Replay(d: seq<Block>, ws: seq<SectorWrite>, k: nat): (r: seq<Block>)
    requires k <= |ws| && InDisk(ws, |d|)
    ensures |r| == |d|
  {
    if k == 0 then d else Replay(d, ws, k - 1)[ws[k - 1].sector := ws[k - 1].data]
  }

  /** The disk is the first one with every write so far replayed. */
  predicate TraceOk(origin: seq<Block>, ws: seq<SectorWrite>, disk: seq<Block>) {
    InDisk(ws, |origin|) && disk == Replay(origin, ws, |ws|)
  }

  lemma {:induction false} ReplayPrefix(d: seq<Block>, ws: seq<SectorWrite>, vs: seq<SectorWrite>, k: nat)
    requires ws <= vs && k <= |ws| && InDisk(vs, |d|)
    ensures InDisk(ws, |d|) && Replay(d, ws, k) == Replay(d, vs, k)
  {
    if k > 0 { ReplayPrefix(d, ws, vs, k - 1); }
  }

  lemma {:induction false} TraceStep(origin: seq<Block>, ws: seq<SectorWrite>, disk: seq<Block>, w: SectorWrite)
    requires TraceOk(origin, ws, disk) && w.sector < |disk|
    ensures TraceOk(origin, ws + [w], disk[w.sector := w.data])
  {
    ReplayPrefix(origin, ws, ws + [w], |ws|);
  }

  // -------- The list --------

  /** Every buffer is in the list, which is sorted by when buffers were last released. */
  ghost predicate ListOk(link: seq<Link>, order: seq<nat>, stamp: seq<nat>, clock: nat) {
    && |link| == NBUF + 1 && |order| == NBUF && |stamp| == NBUF
    && Linked(link, order, NBUF)
    && (forall b :: 0 <= b < NBUF ==> b in order)
    && (forall b :: 0 <= b < NBUF ==> stamp[b] <= clock)
    && ByRelease(order, stamp)
  }

  /** Releasing b moves it to the front and makes its stamp the newest. */
  lemma MoveToFront(link: seq<Link>, order: seq<nat>, stamp: seq<nat>, clock: nat, b: nat)
    returns (order': seq<nat>, stamp': seq<nat>, clock': nat)
    requires ListOk(link, order, stamp, clock) && b < NBUF
    ensures link[b].next < |link| && link[b].prev < |link| && Unlink(link, b)[NBUF].next < |link|
    ensures clock' == clock + 1 && stamp' == stamp[b := clock']
    ensures ListOk(PushFront(Unlink(link, b), b, NBUF), order', stamp', clock') && order'[0] == b
  {
    hide Linked, Unlink, PushFront, ByRelease;
    assert b in order;
    var k :| 0 <= k < NBUF && order[k] == b;
    UnlinkRemoves(link, order, NBUF, k);
    var rest := Remove(order, k);
    PushFrontInserts(Unlink(link, b), rest, NBUF, b);
    clock' := clock + 1;
    stamp' := stamp[b := clock'];
    order' := [b] + rest;
    RemoveByRelease(order, stamp, k);
    PushByRelease(rest, stamp, b, clock);
    forall c | 0 <= c < NBUF ensures c in order' { MoveMembers(order, k, c); }
  }

  // -------- What the cache keeps true, as a property of its values --------

  /** No two buffers hold the same sector of a real device. */
  ghost predicate Unique(buf: seq<Buf>) {
    forall i, j :: 0 <= i < j < |buf| && buf[i].Holds(buf[j].dev, buf[j].sector) ==> buf[i].dev == NODEV
  }

  /** A buffer nobody holds shows the logical sector. */
  ghost predicate Coherent(b: Buf, logical: seq<Block>) {
    && (b.dev == NODEV || b.dev == ROOTDEV)
    && (b.dev == NODEV ==> !b.busy && !b.valid && !b.dirty)
    && (b.dev == ROOTDEV ==> b.sector < |logical|)
    && (b.dev == ROOTDEV && !b.busy ==> b.valid && b.data == logical[b.sector])
  }

  /** A dirty buffer keeps the sector from being recycled. */
  ghost predicate Pinned(buf: seq<Buf>, s: nat) {
    exists i :: 0 <= i < |buf| && buf[i].Holds(ROOTDEV, s) && buf[i].dirty
  }

  /** Only a pinned sector may differ from the disk. */
  ghost predicate CacheOk(buf: seq<Buf>, disk: seq<Block>, logical: seq<Block>) {
    && |buf| == NBUF && |logical| == |disk| && Unique(buf)
    && (forall i :: 0 <= i < NBUF ==> Coherent(buf[i], logical))
    && forall s :: 0 <= s < |disk| ==> logical[s] == disk[s] || Pinned(buf, s)
  }

  lemma BufOk(buf: seq<Buf>, disk: seq<Block>, logical: seq<Block>, b: nat)
    requires CacheOk(buf, disk, logical) && b < NBUF
    ensures |buf| == NBUF && |logical| == |disk| && Coherent(buf[b], logical)
  {
  }

  /** Changing one buffer unpins no sector but its own. */
  lemma PinnedElsewhere(buf: seq<Buf>, b: nat, nb: Buf, s: nat)
    requires b < |buf| && Pinned(buf, s)
    requires buf[b].Holds(ROOTDEV, s) && buf[b].dirty ==> nb.Holds(ROOTDEV, s) && nb.dirty
    ensures Pinned(buf[b := nb], s)
  {
    var i :| 0 <= i < |buf| && buf[i].Holds(ROOTDEV, s) && buf[i].dirty;
    assert buf[b := nb][i].Holds(ROOTDEV, s) && buf[b := nb][i].dirty;
  }

  /** Holding, releasing or modifying a buffer. */
  lemma FlagsKeep(buf: seq<Buf>, disk: seq<Block>, logical: seq<Block>, b: nat, nb: Buf)
    requires CacheOk(buf, disk, logical) && b < NBUF && buf[b].dev == ROOTDEV
    requires nb.Holds(ROOTDEV, buf[b].sector) && nb.dirty == buf[b].dirty && Coherent(nb, logical)
    ensures CacheOk(buf[b := nb], disk, logical)
  {
    forall s | 0 <= s < |disk| && Pinned(buf, s) ensures Pinned(buf[b := nb], s) {
      PinnedElsewhere(buf, b, nb, s);
    }
  }

  /** Reusing an eligible buffer for a sector that is not cached. */
  lemma RecycleKeeps(buf: seq<Buf>, disk: seq<Block>, logical: seq<Block>, b: nat, s: nat)
    requires CacheOk(buf, disk, logical) && b < NBUF && buf[b].Eligible() && s < |disk|
    requires forall i :: 0 <= i < NBUF ==> !buf[i].Holds(ROOTDEV, s)
    ensures disk[s] == logical[s]
    ensures CacheOk(buf[b := Buf(ROOTDEV, s, true, true, false, logical[s])], disk, logical)
  {
    var nb := Buf(ROOTDEV, s, true, true, false, logical[s]);
    forall x | 0 <= x < |disk| && Pinned(buf, x) ensures Pinned(buf[b := nb], x) {
      PinnedElsewhere(buf, b, nb, x);
    }
  }

  /** Making a sector's content official: on disk (bwrite) or by pinning it (log_write). */
  lemma PublishKeeps(buf: seq<Buf>, disk: seq<Block>, logical: seq<Block>, b: nat, nb: Buf, disk': seq<Block>)
    requires CacheOk(buf, disk, logical) && b < NBUF && buf[b].dev == ROOTDEV
    requires nb.Holds(ROOTDEV, buf[b].sector) && nb.busy
    requires nb.sector < |disk| && disk' == if nb.dirty then disk else disk[nb.sector := nb.data]
    ensures CacheOk(buf[b := nb], disk', logical[nb.sector := nb.data])
  {
    var s := nb.sector;
    forall x | 0 <= x < |disk| && x != s && Pinned(buf, x) ensures Pinned(buf[b := nb], x) {
      PinnedElsewhere(buf, b, nb, x);
    }
    if nb.dirty { assert buf[b := nb][b].Holds(ROOTDEV, s); }
  }

  class Bcache {
    /** struct buf, apart from prev and next, which `link` holds; node NBUF is bcache.head. */
    var buf: seq<Buf>
    var link: seq<Link>
    var disk: seq<Block>

    /** The buffers from most to least recently released, and when each was last released. */
    ghost var order: seq<nat>
    ghost var stamp: seq<nat>
    ghost var clock: nat

    /** What readers of each sector must see. */
    ghost var logical: seq<Block>

    /** The disk at the start, and every sector write since. */
    ghost const origin: seq<Block>
    ghost var trace: seq<SectorWrite>

    ghost predicate Valid()
      reads this
    {
      ListOk(link, order, stamp, clock) && CacheOk(buf, disk, logical) && TraceOk(origin, trace, disk)
    }

    /** binit (bio.c:38-56). */
    constructor (d: seq<Block>)
      ensures Valid() && disk == logical == origin == d && trace == []
      ensures forall i :: 0 <= i < NBUF ==> buf[i].dev == NODEV
    {
      buf := seq(NBUF, _ => Buf(NODEV, 0, false, false, false, ZeroBlock()));
      link := seq(NBUF + 1, _ => Link(NBUF, NBUF));
      disk, logical, origin, trace := d, d, d, [];
      order, stamp, clock := [], seq(NBUF, _ => 0), 0;
      new;
      for b := 0 to NBUF
        invariant |link| == NBUF + 1 && Linked(link, order, NBUF) && |order| == b
        invariant forall x :: x in order <==> 0 <= x < b
        invariant |buf| == NBUF && forall i :: 0 <= i < NBUF ==>
                    buf[i] == Buf(NODEV, 0, false, false, false, ZeroBlock())
        invariant disk == logical == d && trace == [] && clock == 0
        invariant |stamp| == NBUF && forall i :: 0 <= i < NBUF ==> stamp[i] == 0
      {
        PushFrontInserts(link, order, NBUF, b);
        link := PushFront(link, b, NBUF);
        order := [b] + order;
      }
    }

    /** Is the sector already cached? (bio.c:70-80) Answers NBUF, the sentinel, if not. */
    method FindCached(dev: int, sector: nat) returns (b: nat)
      requires Valid()
      ensures b <= NBUF
      ensures b < NBUF ==> buf[b].Holds(dev, sector)
      ensures b == NBUF ==> forall i :: 0 <= i < NBUF ==> !buf[i].Holds(dev, sector)
    {
      assert link[At(order, NBUF, -1)].next == At(order, NBUF, -1 + 1);
      b := link[NBUF].next;
      ghost var k := 0;
      while b != NBUF
        invariant 0 <= k <= NBUF && b == At(order, NBUF, k)
        invariant forall i :: 0 <= i < k ==> !buf[order[i]].Holds(dev, sector)
        decreases NBUF - k
      {
        if buf[b].dev == dev && buf[b].sector == sector {
          return;
        }
        b := link[b].next;
        k := k + 1;
      }
      forall i | 0 <= i < NBUF ensures !buf[i].Holds(dev, sector) { assert i in order; }
    }

    /** The least recently released buffer that is neither busy nor dirty (bio.c:83-91). */
    method FindVictim() returns (b: nat)
      requires Valid()
      ensures b <= NBUF
      ensures b < NBUF ==> buf[b].Eligible()
      ensures b < NBUF ==> forall c :: 0 <= c < NBUF && buf[c].Eligible() ==> stamp[b] <= stamp[c]
      ensures b == NBUF ==> forall i :: 0 <= i < NBUF ==> !buf[i].Eligible()
    {
      var k := NBUF - 1;
      assert link[At(order, NBUF, k + 1)].prev == At(order, NBUF, k);
      b := link[NBUF].prev;
      while b != NBUF
        invariant -1 <= k < NBUF && b == At(order, NBUF, k)
        invariant forall i :: k < i < NBUF ==> !buf[order[i]].Eligible()
        decreases k
      {
        if !buf[b].busy && !buf[b].dirty {
          forall c | 0 <= c < NBUF && buf[c].Eligible() ensures stamp[b] <= stamp[c] { assert c in order; }
          return;
        }
        assert link[At(order, NBUF, k - 1 + 1)].prev == At(order, NBUF, k - 1);
        b := link[b].prev;
        k := k - 1;
      }
      forall i | 0 <= i < NBUF ensures !buf[i].Eligible() { assert i in order; }
    }

    /** bget (bio.c:61-93). It panics exactly when the sector is not cached and every buffer
        is busy or dirty. */
    method Bget(dev: int, sector: nat) returns (o: Outcome, b: nat)
      requires Valid()
      modifies `buf
      ensures o == Sleeps <==> exists i :: 0 <= i < NBUF && old(buf)[i].Holds(dev, sector) && old(buf)[i].busy
      ensures o == Panic <==> forall i :: 0 <= i < NBUF ==> !old(buf)[i].Holds(dev, sector) && !old(buf)[i].Eligible()
      ensures o != Done ==> buf == old(buf)
      ensures o == Done ==> b < NBUF && !old(buf)[b].busy
      ensures o == Done && old(buf)[b].Holds(dev, sector) ==> buf == old(buf)[b := old(buf)[b].(busy := true)]
      ensures o == Done && !old(buf)[b].Holds(dev, sector) ==>
                && (forall i :: 0 <= i < NBUF ==> !old(buf)[i].Holds(dev, sector))
                && old(buf)[b].Eligible()
                && (forall c :: 0 <= c < NBUF && old(buf)[c].Eligible() ==> stamp[b] <= stamp[c])
                && buf == old(buf)[b := Buf(dev, sector, true, false, false, old(buf)[b].data)]
    {
      b := FindCached(dev, sector);
      if b != NBUF {
        if !buf[b].busy {
          assert forall i :: 0 <= i < NBUF && i != b && buf[i].Holds(dev, sector) ==> buf[i].dev == NODEV;
          buf := buf[b := buf[b].(busy := true)];
          return Done, b;
        }
        return Sleeps, b;
      }
      b := FindVictim();
      if b != NBUF {
        buf := buf[b := Buf(dev, sector, true, false, false, buf[b].data)];
        return Done, b;
      }
      return Panic, b;
    }

    /** memide.c:36-58, for a buffer that needs reading or writing. */
    method Iderw(b: nat) returns (o: Outcome)
      requires b < |buf| && |logical| == |disk| && TraceOk(origin, trace, disk)
      modifies `buf, `disk, `logical, `trace
      ensures TraceOk(origin, trace, disk)
      ensures o == Panic <==> (!old(buf)[b].busy || (old(buf)[b].valid && !old(buf)[b].dirty)
                               || old(buf)[b].dev != ROOTDEV || old(buf)[b].sector >= |old(disk)|)
      ensures o != Sleeps
      ensures o == Panic ==> buf == old(buf) && disk == old(disk) && logical == old(logical) && trace == old(trace)
      ensures o == Done && old(buf)[b].dirty ==>
                && buf == old(buf)[b := old(buf)[b].(valid := true, dirty := false)]
                && disk == old(disk)[buf[b].sector := buf[b].data]
                && logical == old(logical)[buf[b].sector := buf[b].data]
                && trace == old(trace) + [SectorWrite(buf[b].sector, buf[b].data)]
      ensures o == Done && !old(buf)[b].dirty ==>
                && buf == old(buf)[b := old(buf)[b].(valid := true, data := old(disk)[old(buf)[b].sector])]
                && disk == old(disk) && logical == old(logical) && trace == old(trace)
    {
      var p := buf[b];
      if !p.busy || (p.valid && !p.dirty) || p.dev != ROOTDEV || p.sector >= |disk| {
        return Panic;
      }
      if p.dirty {
        buf := buf[b := p.(dirty := false, valid := true)];
        TraceStep(origin, trace, disk, SectorWrite(p.sector, p.data));
        disk, logical := disk[p.sector := p.data], logical[p.sector := p.data];
        trace := trace + [SectorWrite(p.sector, p.data)];
      } else {
        buf := buf[b := p.(data := disk[p.sector], valid := true)];
      }
      return Done;
    }

    /** bread (bio.c:96-105): a buffer showing the logical sector, now held by the caller. */
    method Bread(dev: int, sector: nat) returns (o: Outcome, b: nat)
      requires Valid()
      modifies `buf, `disk, `logical, `trace
      ensures disk == old(disk) && logical == old(logical) && trace == old(trace)
      ensures o == Sleeps ==> buf == old(buf)
      ensures o == Sleeps <==> exists i :: 0 <= i < NBUF && old(buf)[i].Holds(dev, sector) && old(buf)[i].busy
      ensures o == Done ==>
                && Valid()
                && b < NBUF && dev == ROOTDEV && sector < |disk|
                && !old(buf)[b].busy && (old(buf)[b].dirty ==> old(buf)[b].Holds(dev, sector))
                && buf == old(buf)[b := Buf(ROOTDEV, sector, true, true, old(buf)[b].dirty, logical[sector])]
      ensures o == Panic ==> dev != ROOTDEV || sector >= |disk| ||
                             forall i :: 0 <= i < NBUF ==> !old(buf)[i].Holds(dev, sector) && !old(buf)[i].Eligible()
      ensures (forall i :: 0 <= i < NBUF ==> !old(buf)[i].Holds(dev, sector) && !old(buf)[i].Eligible()) ==>
                o == Panic && buf == old(buf)
    {
      hide CacheOk, ListOk, TraceOk;
      BufOk(buf, disk, logical, 0);
      o, b := Bget(dev, sector);
      if o == Done { BufOk(old(buf), disk, logical, b); }
      if o == Done && !buf[b].valid {
        o := Iderw(b);
        if o == Done {
          RecycleKeeps(old(buf), disk, logical, b, sector);
          assert buf == old(buf)[b := Buf(ROOTDEV, sector, true, true, false, logical[sector])];
        }
      } else if o == Done {
        FlagsKeep(old(buf), disk, logical, b, buf[b]);
        assert buf == old(buf)[b := buf[b]];
      }
    }

    /** The holder of a buffer changes its data. */
    method Modify(b: nat, data: Block)
      requires Valid() && b < NBUF && buf[b].busy
      modifies `buf
      ensures Valid() && buf == old(buf)[b := old(buf)[b].(data := data)]
    {
      hide ListOk, TraceOk;
      FlagsKeep(buf, disk, logical, b, buf[b].(data := data));
      buf := buf[b := buf[b].(data := data)];
    }

    /** bwrite (bio.c:108-115): one sector write, after which readers see it. */
    method Bwrite(b: nat) returns (o: Outcome)
      requires Valid() && b < NBUF
      modifies `buf, `disk, `logical, `trace
      ensures o == if old(buf)[b].busy then Done else Panic
      ensures o == Done ==>
                && Valid()
                && var p := old(buf)[b];
                   && buf == old(buf)[b := p.(valid := true, dirty := false)]
                   && disk == old(disk)[p.sector := p.data]
                   && logical == old(logical)[p.sector := p.data]
                   && trace == old(trace) + [SectorWrite(p.sector, p.data)]
    {
      hide ListOk, TraceOk;
      if !buf[b].busy {
        return Panic;
      }
      ghost var was := buf;
      buf := buf[b := buf[b].(dirty := true)];
      o := Iderw(b);
      PublishKeeps(was, old(disk), old(logical), b, buf[b], disk);
      assert buf == was[b := buf[b]];
    }

    /** log_write's last line, log.c:181: pin the buffer, making its data what readers see. */
    method Pin(b: nat)
      requires Valid() && b < NBUF && buf[b].busy
      modifies `buf, `logical
      ensures Valid() && buf == old(buf)[b := old(buf)[b].(dirty := true)]
      ensures logical == old(logical)[buf[b].sector := buf[b].data]
    {
      hide ListOk, TraceOk;
      PublishKeeps(buf, disk, logical, b, buf[b].(dirty := true), disk);
      buf := buf[b := buf[b].(dirty := true)];
      logical := logical[buf[b].sector := buf[b].data];
    }

    /** brelse (bio.c:119-138): the buffer becomes the most recently released one. Its holder
        must have published any change, with bwrite or log_write. */
    method Brelse(b: nat) returns (o: Outcome)
      requires Valid() && b < NBUF
      requires buf[b].busy ==> buf[b].valid && buf[b].data == logical[buf[b].sector]
      modifies `buf, `link, `order, `stamp, `clock
      ensures Valid()
      ensures o == if old(buf)[b].busy then Done else Panic
      ensures o == Panic ==> buf == old(buf) && order == old(order)
      ensures o == Done ==>
                && buf == old(buf)[b := old(buf)[b].(busy := false)]
                && order[0] == b && stamp[b] > old(clock)
                && (forall c :: 0 <= c < NBUF && c != b ==> stamp[c] == old(stamp[c]))
    {
      if !buf[b].busy {
        return Panic;
      }
      order, stamp, clock := MoveToFront(link, order, stamp, clock, b);
      link := PushFront(Unlink(link, b), b, NBUF);
      FlagsKeep(buf, disk, logical, b, buf[b].(busy := false));
      buf := buf[b := buf[b].(busy := false)];
      return Done;
    }

    /** The closing steps of log_write, write_head and install_trans for a held buffer:
        fill it, bwrite it, brelse it. */
    method WriteOut(b: nat, data: Block)
      requires Valid() && b < NBUF && buf[b].busy
      modifies this
      ensures Valid()
      ensures buf == old(buf)[b := Buf(ROOTDEV, old(buf)[b].sector, false, true, false, data)]
      ensures disk == old(disk)[old(buf)[b].sector := data]
      ensures logical == old(logical)[old(buf)[b].sector := data]
      ensures trace == old(trace) + [SectorWrite(old(buf)[b].sector, data)]
    {
      Modify(b, data);
      var o := Bwrite(b);
      o := Brelse(b);
    }
  }
}
