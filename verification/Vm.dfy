/** kalloc.c and vm.c at work on the frames of VmSpec. Frame 0 stands for the null pointer. */
module Vm {
  import opened Blocks
  import opened VmSpec

  const PGSIZE := 4096

  /** The first byte that is the kernel's (KERNBASE). */
  const KERNBASE := 0x8000_0000

  type Content = seq<Byte>

  function Filled(b: Byte): Content {
    seq(PGSIZE, _ => b)
  }

  /** The pages that hold sz bytes. */
  function Pages(sz: nat): (n: nat)
    ensures n * PGSIZE >= sz && (n > 0 ==> (n - 1) * PGSIZE < sz)
  {
    (sz + PGSIZE - 1) / PGSIZE
  }

  function Set(s: seq<Frame>): set<Frame> {
    set i | 0 <= i < |s| :: s[i]
  }

  function FramesOf(first: Frame, last: Frame): (r: set<Frame>)
    requires first <= last
    ensures forall f :: f in r <==> first <= f < last
    decreases last - first
  {
    if first == last then {} else {first} + FramesOf(first + 1, last)
  }

  lemma OneFewer(first: Frame, last: Frame)
    requires first < last
    ensures first in FramesOf(first, last) && FramesOf(first, last) - {first} == FramesOf(first + 1, last)
  {
    hide FramesOf;
  }

  class Memory {
    var freelist: seq<Frame>
    var tabs: map<Frame, seq<Pte>>
    var data: map<Frame, Content>
    ghost var owner: map<Frame, Owner>
    ghost const all: set<Frame>

    ghost function M(): Mem
      reads this
    {
      Mem(tabs, owner)
    }

    /** Each frame is on the free list once, or in use, and not both. */
    ghost predicate ListOk()
      reads this
    {
      && (forall i :: 0 <= i < |freelist| ==> freelist[i] != 0 && freelist[i] !in owner)
      && (forall i, j :: 0 <= i < j < |freelist| ==> freelist[i] != freelist[j])
      && 0 !in owner && all == owner.Keys + Set(freelist)
    }

    ghost predicate Valid()
      reads this
    {
      ListOk() && MemOk(M())
    }

    /** kinit1 and kinit2 free every frame (kalloc.c:30-52). */
    constructor (first: Frame, last: Frame)
      requires 0 < first <= last
      ensures Valid() && owner == map[] && Set(freelist) == all == FramesOf(first, last)
    {
      freelist, tabs, data := [], map[], map[];
      owner := map f | f in FramesOf(first, last) :: Other;
      all := FramesOf(first, last);
      new;
      hide FrameOk, FramesOf;
      var p := first;
      while p < last
        invariant first <= p <= last && ListOk()
        invariant owner.Keys == FramesOf(p, last)
      {
        OneFewer(p, last);
        Kfree(p);
        p := p + 1;
      }
      assert owner == map[];
      FreeIsRest();
    }

    /** kalloc (kalloc.c:82-95). The frame is in nobody's address space yet. */
    method Kalloc() returns (f: Frame)
      requires ListOk()
      modifies `freelist, `owner
      ensures ListOk()
      ensures f == 0 <==> old(freelist) == []
      ensures f == 0 ==> freelist == old(freelist) && owner == old(owner)
      ensures f != 0 ==> f !in old(owner) && [f] + freelist == old(freelist) && owner == old(owner)[f := Other]
    {
      if freelist == [] { return 0; }
      f := freelist[0];
      freelist := freelist[1..];
      owner := owner[f := Other];
      assert Set(old(freelist)) == Set(freelist) + {f} by {
        forall x | x in Set(old(freelist)) ensures x in Set(freelist) + {f} {
          var i :| 0 <= i < |old(freelist)| && old(freelist)[i] == x;
          if i > 0 { assert freelist[i - 1] == x; }
        }
        forall x | x in Set(freelist) + {f} ensures x in Set(old(freelist)) {
          if x != f {
            var i :| 0 <= i < |freelist| && freelist[i] == x;
            assert old(freelist)[i + 1] == x;
          } else { assert old(freelist)[0] == f; }
        }
      }
    }

    /** kfree (kalloc.c:59-77) of a frame in use. */
    method Kfree(f: Frame)
      requires ListOk() && f in owner
      modifies `freelist, `owner, `data
      ensures ListOk() && freelist == [f] + old(freelist) && owner == old(owner) - {f}
      ensures data == old(data)[f := Filled(1)]
    {
      data := data[f := Filled(1)];
      freelist := [f] + freelist;
      owner := owner - {f};
      assert Set(freelist) == Set(old(freelist)) + {f} by {
        forall x | x in Set(old(freelist)) + {f} ensures x in Set(freelist) {
          if x == f { assert freelist[0] == x; } else {
            var i :| 0 <= i < |old(freelist)| && old(freelist)[i] == x;
            assert freelist[i + 1] == x;
          }
        }
      }
    }

    /** walkpgdir (vm.c:45-65): the page table of page v, 0 if there is none. */
    method WalkPgdir(d: Frame, v: nat, alloc: bool) returns (t: Frame)
      requires Valid() && IsDir(M(), d) && v / NENT < NENT
      modifies `freelist, `owner, `tabs
      ensures Valid() && IsDir(M(), d)
      ensures HasTable(old(M()), d, v) || !alloc || old(freelist) == [] ==> M() == old(M()) && freelist == old(freelist)
      ensures SameBut(old(M()), M(), d, 0, 0) && Grown(old(M()), M(), d, 0)
      ensures t == 0 ==> !alloc || freelist == []
      ensures t != 0 <==> HasTable(M(), d, v)
      ensures t != 0 ==> t == TableOf(M(), d, v)
      ensures t != 0 <==> HasTable(old(M()), d, v) || (alloc && old(freelist) != [])
      ensures Tabled(old(M()), M(), d, if t != 0 then {v / NENT} else {})
      ensures |old(freelist)| == |freelist| + if t != 0 && !HasTable(old(M()), d, v) then 1 else 0
    {
      assert FrameOk(M(), d);
      var pde := tabs[d][v / NENT];
      if pde.Present? {
        t := pde.frame;
        assert FrameOk(M(), t);
        return;
      }
      if !alloc { return 0; }
      ghost var m := M();
      t := Kalloc();
      if t == 0 { return 0; }
      WithTableOk(m, d, v / NENT, t);
      WithTableSame(m, d, v / NENT, t);
      WithTableTabled(m, d, v / NENT, t);
      tabs := tabs[t := Blank()];
      tabs := tabs[d := tabs[d][v / NENT := Present(t, true, true)]];
      owner := owner[t := Tab(d, v / NENT)];
      assert M() == WithTable(m, d, v / NENT, t);
    }

    /** One turn of the loop of mappages (vm.c:79-83). */
    method MapOne(d: Frame, v: nat, f: Frame, w: bool, u: bool) returns (ok: bool)
      requires Valid() && IsDir(M(), d) && v < NENT * NENT && Entry(M(), d, v).Absent?
      requires v < USER ==> w && u && OwnedAs(M(), f, Other)
      modifies `freelist, `owner, `tabs
      ensures Valid() && IsDir(M(), d) && SameBut(old(M()), M(), d, v, v + 1)
      ensures Grown(old(M()), M(), d, if v < USER then f else 0)
      ensures ok ==> Entry(M(), d, v) == Present(f, w, u)
      ensures v < USER && ok ==> OwnedAs(M(), f, Page(d, v))
      ensures v < USER && !ok ==> OwnedAs(M(), f, Other)
      ensures !ok ==> freelist == [] && Entry(M(), d, v).Absent?
      ensures ok <==> HasTable(old(M()), d, v) || old(freelist) != []
      ensures Tabled(old(M()), M(), d, if ok then {v / NENT} else {})
      ensures |old(freelist)| == |freelist| + if ok && !HasTable(old(M()), d, v) then 1 else 0
    {
      hide MemOk, IsDir, Tabled;
      assert v / NENT < NENT;
      ghost var m0 := M();
      var t := WalkPgdir(d, v, true);
      ghost var m := M();
      assert Entry(m, d, v) == Entry(m0, d, v);
      hide Entry, HasTable, SameBut;
      if t == 0 {
        Shift(m0, m, d, v);
        return false;
      }
      tabs := tabs[t := tabs[t][v % NENT := Present(f, w, u)]];
      if v < USER {
        WithPageOk(m, d, v, f);
        owner := owner[f := Page(d, v)];
        assert M() == WithPage(m, d, v, f);
      } else {
        WithKernelOk(m, d, v, Present(f, w, u));
        assert M() == WithKernel(m, d, v, Present(f, w, u));
      }
      SetEntryTabled(m, M(), d, v, Present(f, w, u));
      TabledSame(m0, m, M(), d, {v / NENT});
      Shift(m0, m, d, v);
      SameButTrans(m0, m, M(), d, v, v, v, v + 1);
      ok := true;
    }

    /** mappages (vm.c:70-90): n pages from v on lead to n frames from pa on. Of user memory one page is
        mapped at a time, to a frame just allocated. False exactly when there are fewer free frames than
        missing page tables. */
    method MapPages(d: Frame, v: nat, n: nat, pa: Frame, w: bool, u: bool) returns (ok: bool)
      requires Valid() && IsDir(M(), d) && 1 <= n && v + n <= NENT * NENT
      requires forall i: nat :: v <= i < v + n ==> Entry(M(), d, i).Absent?
      requires v < USER ==> n == 1 && w && u && OwnedAs(M(), pa, Other)
      modifies `freelist, `owner, `tabs
      ensures Valid() && IsDir(M(), d) && SameBut(old(M()), M(), d, v, v + n)
      ensures Grown(old(M()), M(), d, if v < USER then pa else 0)
      ensures ok ==> forall i: nat :: v <= i < v + n ==> Entry(M(), d, i) == Present(pa + i - v, w, u)
      ensures v < USER && ok ==> OwnedAs(M(), pa, Page(d, v))
      ensures v < USER && !ok ==> OwnedAs(M(), pa, Other) && Entry(M(), d, v).Absent?
      ensures !ok ==> freelist == []
      ensures ok <==> |Missing(old(M()), d, v, v + n)| <= |old(freelist)|
      ensures ok ==> Tabled(old(M()), M(), d, Missing(old(M()), d, v, v + n))
      ensures ok ==> |old(freelist)| == |freelist| + |Missing(old(M()), d, v, v + n)|
    {
      hide MemOk, IsDir, Entry, HasTable, Tabled, Missing, OpensTable;
      MissingNone(M(), d, v);
      ghost var x := if v < USER then pa else 0;
      var a, f := v, pa;
      while true
        invariant v <= a < v + n && f == pa + (a - v) && Valid() && IsDir(M(), d)
        invariant SameBut(old(M()), M(), d, v, a) && Grown(old(M()), M(), d, x)
        invariant forall i: nat :: v <= i < a ==> Entry(M(), d, i) == Present(pa + i - v, w, u)
        invariant v < USER ==> OwnedAs(M(), pa, Other)
        invariant Tabled(old(M()), M(), d, Missing(old(M()), d, v, a))
        invariant |old(freelist)| == |freelist| + |Missing(old(M()), d, v, a)|
        decreases v + n - a
      {
        ghost var m := M();
        TabledAt(old(M()), m, d, v, a);
        CostStep(old(M()), d, v, a);
        CostGrows(old(M()), d, v, a + 1, v + n);
        ok := MapOne(d, a, f, w, u);
        SameButTrans(old(M()), m, M(), d, v, a, a, a + 1);
        if v >= USER { GrownTrans(old(M()), m, M(), d, x); }
        if !ok {
          Widen(old(M()), M(), d, v, a + 1, v + n);
          return;
        }
        TabledStep(old(M()), m, M(), d, v, a);
        if a == v + n - 1 { break; }
        a, f := a + 1, f + 1;
      }
    }

    /** One turn of the loop of deallocuvm where a page table exists (vm.c:263-270). */
    method FreePage(d: Frame, v: nat, t: Frame)
      requires Valid() && IsDir(M(), d) && v < USER && HasTable(M(), d, v) && t == TableOf(M(), d, v)
      modifies `freelist, `owner, `tabs, `data
      ensures Valid() && IsDir(M(), d) && SameBut(old(M()), M(), d, v, v + 1) && Entry(M(), d, v).Absent?
      ensures Shrunk(old(M()), M(), d) && SameData(old(data), data, M()) && Tabled(old(M()), M(), d, {})
    {
      hide FrameOk, Tabled;
      TabledSelf(M(), d);
      var pte := tabs[t][v % NENT];
      if pte.Present? {
        ghost var m := M();
        WithoutPageOk(m, d, v);
        Kfree(pte.frame);
        tabs := tabs[t := tabs[t][v % NENT := Absent]];
        assert M() == WithoutPage(m, d, v);
        SetEntryTabled(m, M(), d, v, Absent);
      }
    }

    /** deallocuvm (vm.c:249-273): the pages from newsz to oldsz are gone, except those that the step over a
        missing page table jumps over; oldsz may exceed the size of the process. */
    method DeallocUvm(d: Frame, oldsz: nat, newsz: nat) returns (r: nat)
      requires Valid() && IsDir(M(), d) && oldsz <= KERNBASE
      modifies `freelist, `owner, `tabs, `data
      ensures Valid() && IsDir(M(), d) && Less(old(M()), M(), d, Pages(newsz), old(data), data)
      ensures newsz >= oldsz ==> r == oldsz && M() == old(M())
      ensures newsz < oldsz ==> r == newsz && Unmapped(old(M()), M(), d, Pages(newsz), Pages(oldsz))
    {
      hide Entry, HasTable, Unmapped, Scanning, SameBut, Shrunk, SameData, Pages, ListOk, MemOk, IsDir, Tabled;
      LessSelf(M(), d, Pages(newsz), data);
      if newsz >= oldsz { return oldsz; }
      var lo := Pages(newsz);
      ghost var m0, hi := M(), Pages(oldsz);
      var a := lo;
      PagesMonotone(newsz, oldsz);
      ScanStart(m0, d, lo);
      TabledSelf(m0, d);
      while a * PGSIZE < oldsz
        invariant lo <= a && Valid() && IsDir(M(), d) && Scanning(m0, d, lo, a)
        invariant Unmapped(m0, M(), d, lo, Least(a, hi)) && Tabled(m0, M(), d, {})
        invariant Less(m0, M(), d, lo, old(data), data)
        decreases oldsz - a * PGSIZE
      {
        ghost var m, was := M(), data;
        TableIndex(a);
        AllocFits(oldsz, a);
        TabledHas(m0, m, d, a);
        var t := WalkPgdir(d, a, false);
        if t == 0 {
          ScanSkip(m0, m, d, lo, a, Least(a + NENT, hi));
          a := a + (NENT - 1);
        } else {
          FreePage(d, a, t);
          ScanFree(m0, m, M(), d, lo, a);
          TabledSame(m0, m, M(), d, {});
          LessStep(m0, m, M(), d, lo, a, old(data), was, data);
        }
        a := a + 1;
      }
      Covers(oldsz, a);
      return newsz;
    }

    /** freevm (vm.c:277-292) of any address space: all its frames are free again. */
    method FreeVm(d: Frame)
      requires Valid() && IsDir(M(), d)
      modifies `freelist, `owner, `tabs, `data
      ensures Valid() && owner == old(owner) - Frames(old(M()), d)
      ensures OthersSame(old(M()), M(), d) && SameData(old(data), data, M())
    {
      hide FrameOk, Entry, MemOk, IsDir, Spans, Less, ListOk, SameData, OthersSame, Unmapped;
      assert Pages(0) == 0 && Pages(KERNBASE) == USER;
      var r := DeallocUvm(d, KERNBASE, 0);
      ghost var m, now := M(), data;
      AlignedAll(old(M()), m, d, 0, USER);
      Bare(old(M()), m, d, old(data), now);
      FreeTables(d);
      ghost var now' := data;
      Kfree(d);
      assert M() == Dropped(m, d);
      BareData(m, M(), d, old(data), now, now', data);
    }

    /** vm.c:285-290 */
    method FreeTables(d: Frame)
      requires Valid() && IsDir(M(), d)
      modifies `freelist, `owner, `data
      ensures ListOk() && owner == old(owner) - TabsBelow(old(M()), d, NENT)
      ensures SameData(old(data), data, M())
    {
      ghost var m := M();
      var i := 0;
      assert TabsBelow(m, d, 0) == {};
      while i < NENT
        invariant 0 <= i <= NENT && ListOk() && owner == m.owner - TabsBelow(m, d, i) && SameData(old(data), data, M())
      {
        NextTab(m, d, i);
        if tabs[d][i].Present? { Kfree(tabs[d][i].frame); }
        i := i + 1;
      }
    }

    /** setupkvm (vm.c:128-144); 0 exactly when there are fewer free frames than it takes, and then all of them
        are lost. */
    method SetupKvm(ks: seq<Range>) returns (d: Frame, ghost lost: set<Frame>)
      requires Valid() && KmapOk(ks)
      modifies `freelist, `owner, `tabs
      ensures Valid() && lost <= owner.Keys - old(owner).Keys
      ensures d != 0 ==> lost == {} && IsDir(M(), d) && d !in old(owner) && Grown(old(M()), M(), d, 0)
      ensures d != 0 ==> Spans(M(), d, 0, 0) && KernelMapped(M(), d, ks, |ks|) && OthersSame(old(M()), M(), d)
      ensures d == 0 ==> freelist == [] && owner.Keys == old(owner).Keys + lost && OthersSame(old(M()), M(), 0)
      ensures Kept(old(M()), M())
      ensures d == 0 <==> |old(freelist)| < KernelCost(ks)
      ensures d == 0 ==> lost == Set(old(freelist))
      ensures d != 0 ==> |old(freelist)| == |freelist| + KernelCost(ks) && NoUserTable(M(), d)
    {
      hide Entry, IsDir, MemOk, KmapOk, KernelSoFar, Grown, OthersSame, ListOk, SameBut, HasOnly, Tabled, Missing,
          NoUserTable, KernelTables, Set, Kept, KernelMapped, Spans;
      lost := {};
      ghost var m := M();
      NullUnused();
      FreeIsRest();
      KernelNone(ks);
      d := NewDir();
      if d == 0 {
        Unchanged(m);
        assert Set(old(freelist)) == {} by { NoneFree(); }
        return;
      }
      KernelStart(m, M(), d, ks);
      var i := 0;
      while i < |ks|
        invariant 0 <= i <= |ks| && Valid() && IsDir(M(), d) && KernelSoFar(m, M(), d, ks, i)
        invariant HasOnly(M(), d, KernelTables(ks, i)) && |old(freelist)| == |freelist| + 1 + |KernelTables(ks, i)|
      {
        ghost var n := M();
        KernelRoom(m, n, d, ks, i);
        KernelCount(n, d, ks, i);
        KernelMore(ks, i + 1, |ks|);
        NullUnused();
        var ok := MapPages(d, ks[i].v, ks[i].n, ks[i].pa, ks[i].w, false);
        if !ok {
          GrownTrans(m, n, M(), d, 0);
          GrownKept(m, M(), d);
          KernelFailed(m, n, M(), d, ks, i);
          AllTaken(m, Set(old(freelist)));
          return 0, owner.Keys - m.owner.Keys;
        }
        KernelTabled(n, M(), d, ks, i);
        KernelStep(m, n, M(), d, ks, i);
        i := i + 1;
      }
      KernelDone(m, M(), d, ks);
      KernelNoUser(M(), d, ks);
      GrownKept(m, M(), d);
    }

    /** vm.c:134-136 */
    method NewDir() returns (d: Frame)
      requires Valid()
      modifies `freelist, `owner, `tabs
      ensures Valid()
      ensures d == 0 ==> M() == old(M()) && freelist == []
      ensures d != 0 ==> d !in old(owner) && M() == WithDir(old(M()), d) && IsDir(M(), d)
      ensures d != 0 ==> OthersSame(old(M()), M(), d) && Grown(old(M()), M(), d, 0)
      ensures d != 0 ==> forall v: nat :: Entry(M(), d, v).Absent?
      ensures d == 0 <==> old(freelist) == []
      ensures d != 0 ==> |old(freelist)| == |freelist| + 1 && HasOnly(M(), d, {})
    {
      hide Entry, IsDir, MemOk, OthersSame, HasOnly;
      ghost var m := M();
      d := Kalloc();
      if d == 0 { return; }
      WithDirOk(m, d);
      WithDirOnly(m, d);
      tabs := tabs[d := Blank()];
      owner := owner[d := Dir];
      assert M() == WithDir(m, d);
    }

    /** With nothing free, what was free in m has come into use. */
    lemma AllTaken(m: Mem, free: set<Frame>)
      requires ListOk() && freelist == [] && Kept(m, M()) && free == all - m.owner.Keys
      ensures owner.Keys - m.owner.Keys == free
    {
      NoneFree();
    }

    lemma NullUnused()
      requires ListOk()
      ensures 0 !in owner
    {
    }

    /** A page for d at v, holding c (vm.c:233-240, vm.c:325-328). */
    method AddPage(d: Frame, v: nat, c: Content) returns (r: Added)
      requires Valid() && IsDir(M(), d) && v < USER && Entry(M(), d, v).Absent?
      modifies `freelist, `owner, `tabs, `data
      ensures Valid() && IsDir(M(), d) && AddedOk(old(M()), M(), d, v, r)
      ensures r.NoMemory? <==> old(freelist) == []
      ensures r.NoMemory? ==> freelist == [] && data == old(data)
      ensures !r.NoMemory? ==> data == old(data)[r.f := c] && Kept(old(M()), M())
      ensures r.NoTable? ==> freelist == []
      ensures r.NoTable? <==> |old(freelist)| == 1 && !HasTable(old(M()), d, v)
      ensures r.Mapped? ==> |old(freelist)| == |freelist| + (if HasTable(old(M()), d, v) then 1 else 2)
      ensures r.Mapped? ==> Tabled(old(M()), M(), d, {v / NENT})
    {
      hide Entry, IsDir, MemOk, HasTable, Tabled, Missing;
      ghost var m := M();
      NullUnused();
      var f := Kalloc();
      if f == 0 { return NoMemory; }
      OtherOk(m, f);
      assert M() == m.(owner := m.owner[f := Other]);
      data := data[f := c];
      ghost var n := M();
      OneMissing(m, n, d, v);
      var ok := MapPages(d, v, 1, f, true, true);
      if ok { OneTabled(m, n, M(), d, v); }
      AddedFrom(m, n, M(), d, v, f, ok);
      return if ok then Mapped(f) else NoTable(f);
    }

    /** allocuvm (vm.c:220-243). It succeeds when there are as many free frames as the pages and their missing
        tables take. It also returns newsz, though the last page is missing and its frame lost, when exactly
        one more frame was needed and the last page was the only one to need its table; otherwise 0. */
    method AllocUvm(d: Frame, oldsz: nat, newsz: nat) returns (r: nat, ghost lost: set<Frame>)
      requires Valid() && IsDir(M(), d) && oldsz < KERNBASE && Spans(M(), d, Pages(oldsz), Pages(oldsz))
      modifies `freelist, `owner, `tabs, `data
      ensures Valid() && IsDir(M(), d) && Kept(old(M()), M()) && SameData(old(data), data, old(M()))
      ensures NewIn(old(M()), M(), d, lost)
      ensures newsz >= KERNBASE ==> r == 0 && M() == old(M())
      ensures newsz < oldsz && newsz < KERNBASE ==> r == oldsz && M() == old(M())
      ensures oldsz <= newsz ==> Pages(oldsz) <= Pages(newsz)
      ensures oldsz <= newsz < KERNBASE ==> SameBut(old(M()), M(), d, Pages(oldsz), USER)
      ensures oldsz <= newsz < KERNBASE ==>
        Outcome(old(M()), d, Pages(oldsz), Pages(newsz), |old(freelist)|, newsz, r, lost)
      ensures oldsz <= newsz < KERNBASE && r == newsz && lost == {} ==>
        && Spans(M(), d, Pages(oldsz), Pages(newsz)) && Zeroed(M(), data, d, Pages(oldsz), Pages(newsz))
        && |old(freelist)| == |freelist| + Cost(old(M()), d, Pages(oldsz), Pages(newsz))
      ensures oldsz <= newsz < KERNBASE && r == newsz && lost != {} ==>
        freelist == [] && Pages(oldsz) < Pages(newsz) && Spans(M(), d, Pages(oldsz), Pages(newsz) - 1)
      ensures oldsz <= newsz < KERNBASE && r != newsz ==> Spans(M(), d, Pages(oldsz), Pages(oldsz))
      ensures oldsz <= newsz < KERNBASE && r == newsz ==> Spans(M(), d, Pages(newsz), Pages(newsz))
    {
      lost := {};
      if newsz >= KERNBASE {
        if oldsz <= newsz { PagesMonotone(oldsz, newsz); }
        return 0, lost;
      }
      if newsz < oldsz { return oldsz, lost; }
      PagesMonotone(oldsz, newsz);
      hide Entry, IsDir, MemOk, Spans, Kept, SameBut, SameData, ListOk, Zeroed, NewIn, Pages, Outcome, Cost;
      r, lost := AllocPages(d, oldsz, newsz);
      if r == newsz {
        SpanEnd(M(), d, Pages(oldsz), if lost == {} then Pages(newsz) else Pages(newsz) - 1, Pages(newsz));
      }
    }

    /** vm.c:231-242 */
    method AllocPages(d: Frame, oldsz: nat, newsz: nat) returns (r: nat, ghost lost: set<Frame>)
      requires Valid() && IsDir(M(), d) && oldsz <= newsz < KERNBASE && Spans(M(), d, Pages(oldsz), Pages(oldsz))
               && Pages(oldsz) <= Pages(newsz)
      modifies `freelist, `owner, `tabs, `data
      ensures Valid() && IsDir(M(), d) && Kept(old(M()), M()) && SameData(old(data), data, old(M()))
      ensures NewIn(old(M()), M(), d, lost) && SameBut(old(M()), M(), d, Pages(oldsz), USER)
      ensures Outcome(old(M()), d, Pages(oldsz), Pages(newsz), |old(freelist)|, newsz, r, lost)
      ensures r == newsz && lost == {} ==>
        && Spans(M(), d, Pages(oldsz), Pages(newsz)) && Zeroed(M(), data, d, Pages(oldsz), Pages(newsz))
        && |old(freelist)| == |freelist| + Cost(old(M()), d, Pages(oldsz), Pages(newsz))
      ensures r == newsz && lost != {} ==>
                freelist == [] && Pages(oldsz) < Pages(newsz) && Spans(M(), d, Pages(oldsz), Pages(newsz) - 1)
      ensures r != newsz ==> Spans(M(), d, Pages(oldsz), Pages(oldsz))
    {
      lost := {};
      hide Entry, IsDir, MemOk, Spans, Kept, SameBut, SameData, AddedOk, ListOk, Zeroed, AllocSoFar, NewIn, Less,
        Counted, Outcome, Cost, HasTable, Tabled;
      PagesMonotone(oldsz, newsz);
      ghost var m, was, lo, hi, free := M(), data, Pages(oldsz), Pages(newsz), |freelist|;
      var a := Pages(oldsz);
      AllocStart(m, d, lo, was);
      CountStart(m, d, lo, free);
      while a * PGSIZE < newsz
        invariant lo <= a <= hi && Valid() && IsDir(M(), d) && AllocSoFar(m, M(), d, lo, a, lost, was, data)
        invariant Counted(m, M(), d, lo, a, lost, free, |freelist|)
        invariant lost != {} ==> freelist == []
        decreases newsz - a * PGSIZE
      {
        TableIndex(a);
        AllocFits(newsz, a);
        ghost var n, now, left := M(), data, |freelist|;
        AllocRoom(m, n, d, lo, a, lost, was, data);
        var added := AddPage(d, a, Filled(0));
        match added {
          case NoMemory =>
            assert M() == n by { NothingAdded(n, M(), d, a); }
            CountShort(m, n, d, lo, a, hi, lost, free, newsz);
            var back := DeallocUvm(d, newsz, oldsz);
            SpanUnmapped(n, M(), d, lo, if lost == {} then a else a - 1, hi);
            AllocBack(m, n, M(), d, lo, a, lost, was, now, data);
            return 0, lost;
          case Mapped(f) =>
            AllocNext(m, n, M(), d, lo, a, added, lost, was, now, data);
            CountMapped(m, n, M(), d, lo, a, free, left, |freelist|);
          case NoTable(f) =>
            AllocNext(m, n, M(), d, lo, a, added, lost, was, now, data);
            CountNoTable(m, n, M(), d, lo, a, f, free);
            lost := {f};
        }
        a := a + 1;
      }
      Covers(newsz, a);
      AllocDone(m, M(), d, lo, a, lost, was, data);
      CountDone(m, M(), d, lo, hi, lost, free, |freelist|, newsz);
      return newsz, lost;
    }

    /** copyuvm (vm.c:309-336) of a process that has the pages below k. When sz reaches further it panics at
        page k, unless memory runs out before; memory runs out exactly when there are fewer free frames than
        the kernel's tables and the pages up to there take. */
    method CopyUvm(p: Frame, sz: nat, ks: seq<Range>, ghost k: nat) returns (r: Copied, ghost lost: set<Frame>)
      requires Valid() && IsDir(M(), p) && FirstGap(M(), p, k, Pages(sz)) && sz < KERNBASE && KmapOk(ks)
      requires forall v: nat :: v < k ==> Entry(M(), p, v).frame in data
      modifies `freelist, `owner, `tabs, `data
      ensures Valid() && Kept(old(M()), M()) && OthersSame(old(M()), M(), 0) && SameData(old(data), data, old(M()))
      ensures r.NoSpace? <==> |old(freelist)| < KernelCost(ks) + FreshCost(k)
      ensures !r.NoSpace? ==> (r.NoPage? <==> k < Pages(sz))
      ensures r.Copy? ==> r.d != 0 && r.d !in old(owner) && IsDir(M(), r.d) && NewIn(old(M()), M(), r.d, {})
      ensures r.Copy? ==> Spans(M(), r.d, 0, Pages(sz)) && CopiedTo(old(M()), M(), p, r.d, Pages(sz), old(data), data)
      ensures r.Copy? ==> lost == {} && |old(freelist)| == |freelist| + KernelCost(ks) + FreshCost(Pages(sz))
      ensures r.NoSpace? ==> owner.Keys == old(owner).Keys + lost
      ensures r.NoSpace? ==> CopyLoses(|old(freelist)|, KernelCost(ks), k, lost, Set(old(freelist)))
    {
      hide Entry, IsDir, MemOk, Spans, Kept, OthersSame, SameData, ListOk, KmapOk, CopySoFar, CopiedTo, NewIn, Grown,
        NoUserTable, CopyLoses, CopyFails, Set, Pages, FreshCost, KernelCost, FirstGap;
      ghost var m, was, free := M(), data, |freelist|;
      NullUnused();
      var d: Frame;
      d, lost := SetupKvm(ks);
      SameSelf(was, m);
      if d == 0 {
        NoKernel(free, KernelCost(ks), k, lost);
        return NoSpace, lost;
      }
      CopyStart(m, M(), p, d, ks, was);
      r, lost := CopyPages(p, d, sz, k, m, was);
      if r.NoSpace? { CopyFailed(free, KernelCost(ks), k, lost, Set(old(freelist))); }
    }

    /** vm.c:319-336 */
    method CopyPages(p: Frame, d: Frame, sz: nat, ghost k: nat, ghost m: Mem, ghost was: map<Frame, Content>)
      returns (r: Copied, ghost lost: set<Frame>)
      requires Valid() && IsDir(M(), d) && d != 0 && sz < KERNBASE && FirstGap(m, p, k, Pages(sz)) && MemOk(m)
      requires CopySoFar(m, M(), p, d, 0, was, data) && NoUserTable(M(), d)
      requires forall v: nat :: v < k ==> Entry(m, p, v).frame in was
      modifies `freelist, `owner, `tabs, `data
      ensures Valid() && Kept(m, M()) && OthersSame(m, M(), 0) && SameData(was, data, m)
      ensures r.NoSpace? <==> |old(freelist)| < FreshCost(k)
      ensures !r.NoSpace? ==> (r.NoPage? <==> k < Pages(sz))
      ensures r.Copy? ==> r.d == d && d !in m.owner && IsDir(M(), d) && NewIn(m, M(), d, {})
      ensures r.Copy? ==> Spans(M(), d, 0, Pages(sz)) && CopiedTo(m, M(), p, d, Pages(sz), was, data)
      ensures r.Copy? ==> lost == {} && |old(freelist)| == |freelist| + FreshCost(Pages(sz))
      ensures r.NoSpace? ==> owner.Keys == m.owner.Keys + lost && CopyFails(|old(freelist)|, k, lost)
    {
      hide Entry, IsDir, MemOk, Spans, Kept, OthersSame, SameBut, SameData, ListOk, CopySoFar, CopiedTo, AddedOk, NewIn,
        Counted, HasTable, Tabled, NoUserTable, CopyFails, Pages, FreshCost, FirstGap;
      GapInUser(m, p, k, Pages(sz));
      ghost var m0, left := M(), |freelist|;
      CountStart(m0, d, 0, left);
      var i := 0;
      while i * PGSIZE < sz
        invariant i <= Pages(sz) && i <= k && Valid() && IsDir(M(), d) && CopySoFar(m, M(), p, d, i, was, data)
        invariant Counted(m0, M(), d, 0, i, {}, left, |freelist|)
        decreases sz - i * PGSIZE
      {
        TableIndex(i);
        AllocFits(sz, i);
        ghost var n, now, some := M(), data, |freelist|;
        CopyParent(m, n, p, d, i, k, Pages(sz), was, now);
        var t := WalkPgdir(p, i, false);
        if t != 0 { EntryHere(n, p, i); }
        if t == 0 || tabs[t][i % NENT].Absent? {
          EntryOut(n, p, i);
          CopyOthersAll(m, n, p, d, i, was, data);
          CopyCount(m0, n, d, i, left, |freelist|);
          return NoPage, {};
        }
        var pte := tabs[t][i % NENT];
        CopySource(m, n, p, d, i, k, Pages(sz), was, now);
        var added := AddPage(d, i, data[pte.frame]);
        if added.Mapped? {
          CopyNext(m, n, M(), p, d, i, added, was, now, data);
          CountMapped(m0, n, M(), d, 0, i, left, some, |freelist|);
        } else {
          lost := if added.NoTable? then {added.f} else {};
          CopyLost(m0, n, d, i, k, added, left, some);
          CopyStuck(m, n, M(), p, d, i, added, was, now, data);
          ghost var o, after := M(), data;
          FreeVm(d);
          CopyUndone(m, o, M(), d, lost, was, after, data);
          return NoSpace, lost;
        }
        i := i + 1;
      }
      Covers(sz, i);
      CopyDone(m, M(), p, d, i, was, data);
      CopyOthersAll(m, M(), p, d, i, was, data);
      CopyCount(m0, M(), d, i, left, |freelist|);
      return Copy(d), {};
    }

    /** What is not in use is free. */
    lemma FreeIsRest()
      requires ListOk()
      ensures Set(freelist) == all - owner.Keys
    {
    }
  }

  lemma TabledSame(m: Mem, n: Mem, o: Mem, d: Frame, xs: set<nat>)
    requires Tabled(m, n, d, xs) && Tabled(n, o, d, {})
    ensures Tabled(m, o, d, xs)
  {
    hide HasTable;
  }

  lemma TabledSelf(m: Mem, d: Frame)
    ensures Tabled(m, m, d, {})
  {
  }

  lemma TabledHas(m: Mem, n: Mem, d: Frame, v: nat)
    requires Tabled(m, n, d, {}) && v / NENT < NENT
    ensures HasTable(n, d, v) <==> HasTable(m, d, v)
  {
    hide HasTable;
  }

  lemma OneMissing(m: Mem, n: Mem, d: Frame, v: nat)
    requires n.tabs == m.tabs
    ensures |Missing(n, d, v, v + 1)| == if HasTable(m, d, v) then 0 else 1
  {
    MissingNone(n, d, v);
    MissingStep(n, d, v, v);
  }

  lemma OneTabled(m: Mem, n: Mem, o: Mem, d: Frame, v: nat)
    requires n.tabs == m.tabs && Tabled(n, o, d, Missing(n, d, v, v + 1))
    ensures Tabled(m, o, d, {v / NENT})
  {
    MissingNone(n, d, v);
    MissingStep(n, d, v, v);
    forall w: nat | w / NENT == v / NENT ensures HasTable(m, d, w) <==> HasTable(m, d, v) { SameTable(m, d, w, v); }
    forall w: nat ensures HasTable(n, d, w) <==> HasTable(m, d, w) { }
    hide HasTable, Missing;
  }

  /** The frames of m hold what they did. */
  ghost predicate SameData(a: map<Frame, Content>, b: map<Frame, Content>, m: Mem) {
    forall f :: f in m.owner ==> (f in a <==> f in b) && (f in a ==> a[f] == b[f])
  }

  lemma Shift(m: Mem, n: Mem, d: Frame, v: nat)
    requires SameBut(m, n, d, 0, 0)
    ensures SameBut(m, n, d, v, v) && SameBut(m, n, d, v, v + 1)
  {
    hide Entry, IsDir;
  }

  lemma Widen(m: Mem, n: Mem, d: Frame, lo: nat, hi: nat, top: nat)
    requires SameBut(m, n, d, lo, hi) && lo <= hi <= top
    ensures SameBut(m, n, d, lo, top)
  {
  }

  /** Some user pages of d from lo on have been freed, and nothing else has changed. */
  ghost predicate Less(m: Mem, n: Mem, d: Frame, lo: nat, a: map<Frame, Content>, b: map<Frame, Content>) {
    SameBut(m, n, d, lo, USER) && Shrunk(m, n, d) && SameData(a, b, n)
  }

  lemma LessSelf(m: Mem, d: Frame, lo: nat, a: map<Frame, Content>)
    ensures Less(m, m, d, lo, a, a)
  {
  }

  lemma LessStep(m: Mem, n: Mem, o: Mem, d: Frame, lo: nat, v: nat, a: map<Frame, Content>, b: map<Frame, Content>,
                 c: map<Frame, Content>)
    requires Less(m, n, d, lo, a, b) && lo <= v < USER && SameBut(n, o, d, v, v + 1) && Shrunk(n, o, d)
             && SameData(b, c, o)
    ensures Less(m, o, d, lo, a, c)
  {
    hide Entry, IsDir;
  }

  /** The pages below a hold the bytes below sz. */
  lemma Covers(sz: nat, a: nat)
    requires a * PGSIZE >= sz
    ensures Pages(sz) <= a
  {
  }

  lemma TableIndex(v: nat)
    requires v * PGSIZE < KERNBASE
    ensures v < USER
    ensures v / NENT < NENT
  {
  }

  /** Once the user pages are freed, what is left to free are the directory and the tables. */
  lemma Bare(m: Mem, n: Mem, d: Frame, a: map<Frame, Content>, b: map<Frame, Content>)
    requires Less(m, n, d, 0, a, b) && MemOk(n) && IsDir(n, d) && Spans(n, d, 0, 0)
    ensures m.owner - Frames(m, d) == n.owner - Frames(n, d)
    ensures Frames(n, d) == TabsBelow(n, d, NENT) + {d} && d !in TabsBelow(n, d, NENT) && d in n.owner
    ensures MemOk(Dropped(n, d)) && OthersSame(m, Dropped(n, d), d)
    ensures SameData(a, b, n)
  {
    ShrunkFrames(m, n, d);
    BareSpace(n, d);
    DroppedOk(n, d);
    SpareOthers(m, n, d);
  }

  lemma BareData(m: Mem, n: Mem, d: Frame, a: map<Frame, Content>, b: map<Frame, Content>, c: map<Frame, Content>,
                 e: map<Frame, Content>)
    requires n == Dropped(m, d) && SameData(a, b, m) && SameData(b, c, m.(owner := m.owner - TabsBelow(m, d, NENT)))
             && e == c[d := Filled(1)]
    requires Frames(m, d) == TabsBelow(m, d, NENT) + {d}
    ensures SameData(a, e, n)
  {
  }

  lemma SpareOthers(m: Mem, n: Mem, d: Frame)
    requires SameBut(m, n, d, 0, USER) && MemOk(n)
    ensures OthersSame(m, Dropped(n, d), d)
  {
    DroppedOk(n, d);
    forall e: Frame, v: nat | IsDir(m, e) && e != d ensures Entry(Dropped(n, d), e, v) == Entry(m, e, v) {
      assert Entry(n, e, v) == Entry(m, e, v);
    }
  }

  /** The address space d, made since m, maps the first i ranges and no user page. */
  ghost predicate KernelSoFar(m: Mem, n: Mem, d: Frame, ks: seq<Range>, i: nat) {
    && d !in m.owner && Grown(m, n, d, 0) && OthersSame(m, n, d) && KernelMapped(n, d, ks, i)
    && forall v: nat :: v < USER || (i < |ks| && ks[i].v <= v) ==> Entry(n, d, v).Absent?
  }

  lemma KernelStart(m: Mem, n: Mem, d: Frame, ks: seq<Range>)
    requires d !in m.owner && Grown(m, n, d, 0) && OthersSame(m, n, d) && forall v: nat :: Entry(n, d, v).Absent?
    ensures KernelSoFar(m, n, d, ks, 0)
  {
  }

  lemma KernelRoom(m: Mem, n: Mem, d: Frame, ks: seq<Range>, i: nat)
    requires KmapOk(ks) && i < |ks| && KernelSoFar(m, n, d, ks, i)
    ensures USER <= ks[i].v && 1 <= ks[i].n && ks[i].v + ks[i].n <= NENT * NENT && Grown(m, n, d, 0)
    ensures forall v: nat :: ks[i].v <= v < ks[i].v + ks[i].n ==> Entry(n, d, v).Absent?
  {
    hide Entry;
  }

  lemma NoneFree()
    ensures Set([]) == {}
  {
  }

  lemma KernelNone(ks: seq<Range>)
    ensures KernelTables(ks, 0) == {}
  {
  }

  lemma WithDirOnly(m: Mem, d: Frame)
    ensures HasOnly(WithDir(m, d), d, {})
  {
  }

  lemma Unchanged(m: Mem)
    ensures Kept(m, m) && OthersSame(m, m, 0)
  {
  }

  lemma KernelFailed(m: Mem, n: Mem, o: Mem, d: Frame, ks: seq<Range>, i: nat)
    requires i < |ks| && KernelSoFar(m, n, d, ks, i) && SameBut(n, o, d, ks[i].v, ks[i].v + ks[i].n) && Kept(m, o)
    ensures OthersSame(m, o, 0) && o.owner.Keys == m.owner.Keys + (o.owner.Keys - m.owner.Keys)
  {
    hide Entry;
    forall e: Frame, v: nat | IsDir(m, e) && e != 0 ensures Entry(o, e, v) == Entry(m, e, v) {
      assert Entry(o, e, v) == Entry(n, e, v);
    }
  }

  lemma KernelDone(m: Mem, n: Mem, d: Frame, ks: seq<Range>)
    requires KernelSoFar(m, n, d, ks, |ks|)
    ensures d !in m.owner && Grown(m, n, d, 0) && OthersSame(m, n, d) && KernelMapped(n, d, ks, |ks|)
            && Spans(n, d, 0, 0)
  {
    hide Entry;
  }

  lemma KernelStep(m: Mem, n: Mem, o: Mem, d: Frame, ks: seq<Range>, i: nat)
    requires KmapOk(ks) && i < |ks| && KernelSoFar(m, n, d, ks, i) && 0 !in n.owner && Grown(n, o, d, 0)
    requires SameBut(n, o, d, ks[i].v, ks[i].v + ks[i].n) && IsDir(n, d)
    requires forall v: nat :: ks[i].v <= v < ks[i].v + ks[i].n ==>
               Entry(o, d, v) == Present(ks[i].pa + v - ks[i].v, ks[i].w, false)
    ensures KernelSoFar(m, o, d, ks, i + 1)
  {
    hide Entry, IsDir;
    GrownTrans(m, n, o, d, 0);
    forall j, v: nat | 0 <= j < i + 1 && ks[j].v <= v < ks[j].v + ks[j].n
      ensures Entry(o, d, v) == Present(ks[j].pa + v - ks[j].v, ks[j].w, false) {
      if j < i { assert Entry(o, d, v) == Entry(n, d, v); }
    }
    forall v: nat | v < USER || (i + 1 < |ks| && ks[i + 1].v <= v) ensures Entry(o, d, v).Absent? {
      assert Entry(o, d, v) == Entry(n, d, v);
    }
    forall e: Frame, v: nat | IsDir(m, e) && e != d ensures Entry(o, e, v) == Entry(m, e, v) {
      assert Entry(o, e, v) == Entry(n, e, v);
    }
  }

  // -------- Adding pages --------

  datatype Added = NoMemory | Mapped(f: Frame) | NoTable(f: Frame)

  /** The new frame is page v of d, or, without a page table for it, nobody's. */
  ghost predicate AddedOk(m: Mem, n: Mem, d: Frame, v: nat, r: Added) {
    match r
    case NoMemory => n == m
    case Mapped(f) => f !in m.owner && NewIn(m, n, d, {}) && SameBut(m, n, d, v, v + 1)
      && Entry(n, d, v) == Present(f, true, true)
    case NoTable(f) =>
      && f !in m.owner && OwnedAs(n, f, Other) && NewIn(m, n, d, {f}) && SameBut(m, n, d, v, v + 1)
      && Entry(n, d, v).Absent?
  }

  /** The frames newly in use are d's, or lost. */
  ghost predicate NewIn(m: Mem, n: Mem, d: Frame, lost: set<Frame>) {
    forall f :: f in n.owner && f !in m.owner ==> Belongs(n.owner[f], f, d) || f in lost
  }

  lemma OtherOk(m: Mem, f: Frame)
    requires MemOk(m) && f !in m.owner
    ensures MemOk(m.(owner := m.owner[f := Other]))
    ensures SameBut(m, m.(owner := m.owner[f := Other]), 0, 0, 0)
  {
    var n := m.(owner := m.owner[f := Other]);
    forall g | g in n.owner ensures FrameOk(n, g) {
      if g != f { assert FrameOk(m, g); }
    }
  }

  lemma AddedFrom(m: Mem, n: Mem, o: Mem, d: Frame, v: nat, f: Frame, ok: bool)
    requires f !in m.owner && n.owner == m.owner[f := Other] && SameBut(m, n, 0, 0, 0) && 0 !in m.owner
    requires SameBut(n, o, d, v, v + 1) && Grown(n, o, d, f)
    requires ok ==> Entry(o, d, v) == Present(f, true, true) && OwnedAs(o, f, Page(d, v))
    requires !ok ==> Entry(o, d, v).Absent? && OwnedAs(o, f, Other)
    ensures AddedOk(m, o, d, v, if ok then Mapped(f) else NoTable(f)) && Kept(m, o)
  {
    hide Entry, IsDir;
    forall e: Frame, w: nat | IsDir(m, e) && !(e == d && v <= w < v + 1) ensures Entry(o, e, w) == Entry(m, e, w) {
      assert Entry(o, e, w) == Entry(n, e, w);
    }
  }

  ghost predicate Zeroed(m: Mem, data: map<Frame, Content>, d: Frame, lo: nat, hi: nat) {
    forall v: nat :: lo <= v < hi && Entry(m, d, v).Present? ==>
      Entry(m, d, v).frame in data && data[Entry(m, d, v).frame] == Filled(0)
  }

  /** The state of allocuvm's loop at page a. */
  ghost predicate AllocSoFar(m: Mem, n: Mem, d: Frame, lo: nat, a: nat, lost: set<Frame>, was: map<Frame, Content>,
                             now: map<Frame, Content>) {
    && Kept(m, n) && NewIn(m, n, d, lost) && SameBut(m, n, d, lo, a) && SameData(was, now, m)
       && Zeroed(n, now, d, lo, a)
    && lo <= a <= USER && (if lost == {} then Spans(n, d, lo, a) else lo < a && Spans(n, d, lo, a - 1))
  }

  lemma NothingAdded(m: Mem, n: Mem, d: Frame, v: nat)
    requires AddedOk(m, n, d, v, NoMemory)
    ensures n == m
  {
  }

  lemma AllocStart(m: Mem, d: Frame, lo: nat, was: map<Frame, Content>)
    requires Spans(m, d, lo, lo)
    ensures AllocSoFar(m, m, d, lo, lo, {}, was, was)
  {
  }

  lemma AllocRoom(m: Mem, n: Mem, d: Frame, lo: nat, a: nat, lost: set<Frame>, was: map<Frame, Content>,
                  now: map<Frame, Content>)
    requires AllocSoFar(m, n, d, lo, a, lost, was, now) && a < USER
    ensures Entry(n, d, a).Absent? && lo <= a && (lost != {} ==> lo < a)
    ensures Spans(n, d, lo, if lost == {} then a else a - 1)
  {
    hide Entry;
  }

  lemma AllocNext(m: Mem, n: Mem, o: Mem, d: Frame, lo: nat, a: nat, added: Added, lost: set<Frame>,
                  was: map<Frame, Content>, now: map<Frame, Content>, after: map<Frame, Content>)
    requires AllocSoFar(m, n, d, lo, a, lost, was, now) && lost == {} && a < USER && MemOk(n) && IsDir(n, d)
    requires !added.NoMemory? && AddedOk(n, o, d, a, added) && Kept(n, o) && after == now[added.f := Filled(0)]
    ensures AllocSoFar(m, o, d, lo, a + 1, if added.Mapped? then {} else {added.f}, was, after)
  {
    hide Entry, MemOk;
    forall v: nat | lo <= v < a + 1 && Entry(o, d, v).Present?
      ensures Entry(o, d, v).frame in after && after[Entry(o, d, v).frame] == Filled(0) {
      if v != a {
        assert Entry(o, d, v) == Entry(n, d, v);
        FramesDistinct(n, d, v, d, v);
      }
    }
    hide IsDir;
    SameButTrans(m, n, o, d, lo, a, a, a + 1);
    forall v: nat | lo <= v < USER ensures Entry(o, d, v).Present? <==> (v < a || (v == a && added.Mapped?)) {
      if v != a { assert Entry(o, d, v) == Entry(n, d, v); }
    }
  }

  /** When memory runs out, deallocuvm takes allocuvm's pages back. */
  lemma AllocBack(m: Mem, n: Mem, o: Mem, d: Frame, lo: nat, a: nat, lost: set<Frame>,
                  was: map<Frame, Content>, now: map<Frame, Content>, after: map<Frame, Content>)
    requires AllocSoFar(m, n, d, lo, a, lost, was, now) && Less(n, o, d, lo, now, after)
    requires MemOk(m) && MemOk(o) && IsDir(m, d) && IsDir(o, d) && Spans(m, d, lo, lo)
    ensures Kept(m, o) && NewIn(m, o, d, lost) && SameBut(m, o, d, lo, USER) && SameData(was, after, m)
  {
    forall f | f in m.owner ensures f in o.owner && o.owner[f] == m.owner[f] {
      assert FrameOk(m, f);
      if m.owner[f].Page? && m.owner[f].dir == d {
        var v := m.owner[f].vpn;
        assert Entry(o, d, v) == Entry(n, d, v) == Entry(m, d, v);
        FramesDistinct(o, d, v, d, v);
      }
    }
    hide Entry, MemOk;
    forall e: Frame, v: nat | IsDir(m, e) && !(e == d && lo <= v < USER) ensures Entry(o, e, v) == Entry(m, e, v) {
      assert Entry(o, e, v) == Entry(n, e, v);
    }
  }

  lemma AllocDone(m: Mem, n: Mem, d: Frame, lo: nat, a: nat, lost: set<Frame>, was: map<Frame, Content>,
                  now: map<Frame, Content>)
    requires AllocSoFar(m, n, d, lo, a, lost, was, now)
    ensures Kept(m, n) && NewIn(m, n, d, lost) && SameBut(m, n, d, lo, USER) && SameData(was, now, m)
            && Zeroed(n, now, d, lo, a)
    ensures if lost == {} then Spans(n, d, lo, a) else lo < a && Spans(n, d, lo, a - 1)
  {
    hide Entry, IsDir;
  }

  lemma SpanEnd(m: Mem, d: Frame, lo: nat, k: nat, top: nat)
    requires Spans(m, d, lo, k) && k <= top <= USER
    ensures Spans(m, d, top, top)
  {
    hide Entry;
  }

  lemma PagesMonotone(a: nat, b: nat)
    requires a <= b
    ensures Pages(a) <= Pages(b)
  {
  }

  /** A page that starts below sz is one of its pages. */
  lemma AllocFits(sz: nat, a: nat)
    requires a * PGSIZE < sz
    ensures a + 1 <= Pages(sz)
  {
  }

  // -------- Counting frames --------

  /** What allocuvm of pages lo to hi comes to with `free` frames: r is newsz and nothing is lost; r is newsz
      and the last page's frame is lost; or r is 0, and one frame is lost unless memory ran out between two
      pages. */
  ghost predicate Outcome(m: Mem, d: Frame, lo: nat, hi: nat, free: nat, newsz: nat, r: nat, lost: set<Frame>)
    requires lo <= hi
  {
    var need := Cost(m, d, lo, hi);
    && (r == newsz <==> need <= free || (need == free + 1 && lo < hi && OpensTable(m, d, lo, hi - 1)))
    && (r != newsz ==> r == 0) && |lost| <= 1
    && (lost == {} <==> need <= free || exists a: nat :: lo <= a < hi && Cost(m, d, lo, a) == free)
  }

  /** Where the frames have gone by page a, of `free` frames of which `left` are left. */
  ghost predicate Counted(m: Mem, n: Mem, d: Frame, lo: nat, a: nat, lost: set<Frame>, free: nat, left: nat) {
    && lo <= a && |lost| <= 1
    && if lost == {} then left + Cost(m, d, lo, a) == free && Tabled(m, n, d, Missing(m, d, lo, a))
       else lo < a && left == 0 && Cost(m, d, lo, a) == free + 1 && OpensTable(m, d, lo, a - 1)
  }

  lemma CountStart(m: Mem, d: Frame, lo: nat, free: nat)
    ensures Counted(m, m, d, lo, lo, {}, free, free)
  {
    MissingNone(m, d, lo);
  }

  lemma CountMapped(m: Mem, n: Mem, o: Mem, d: Frame, lo: nat, a: nat, free: nat, left: nat, left': nat)
    requires Counted(m, n, d, lo, a, {}, free, left) && Tabled(n, o, d, {a / NENT}) && a / NENT < NENT
    requires left == left' + if HasTable(n, d, a) then 1 else 2
    ensures Counted(m, o, d, lo, a + 1, {}, free, left')
  {
    hide HasTable, Missing, Tabled, OpensTable, Cost;
    TabledAt(m, n, d, lo, a);
    CostStep(m, d, lo, a);
    TabledStep(m, n, o, d, lo, a);
  }

  lemma CountNoTable(m: Mem, n: Mem, o: Mem, d: Frame, lo: nat, a: nat, f: Frame, free: nat)
    requires Counted(m, n, d, lo, a, {}, free, 1) && !HasTable(n, d, a) && a / NENT < NENT
    ensures Counted(m, o, d, lo, a + 1, {f}, free, 0)
  {
    hide HasTable, Missing, Tabled, OpensTable, Cost;
    TabledAt(m, n, d, lo, a);
    CostStep(m, d, lo, a);
  }

  /** No frame was left for page a. */
  lemma CountShort(m: Mem, n: Mem, d: Frame, lo: nat, a: nat, hi: nat, lost: set<Frame>, free: nat, newsz: nat)
    requires Counted(m, n, d, lo, a, lost, free, 0) && a < hi && newsz != 0
    ensures Outcome(m, d, lo, hi, free, newsz, 0, lost)
  {
    hide HasTable, Missing, Tabled, OpensTable, Cost;
    CostGrows(m, d, lo, a, hi);
    CostGrows(m, d, lo, a, hi - 1);
    CostStep(m, d, lo, hi - 1);
    if lost != {} { NotHit(m, d, lo, a - 1, hi, free); }
  }

  lemma CountDone(m: Mem, n: Mem, d: Frame, lo: nat, hi: nat, lost: set<Frame>, free: nat, left: nat, newsz: nat)
    requires Counted(m, n, d, lo, hi, lost, free, left)
    ensures Outcome(m, d, lo, hi, free, newsz, newsz, lost) && (lost == {} ==> free == left + Cost(m, d, lo, hi))
  {
    hide HasTable, Missing, Tabled, OpensTable, Cost;
    if lost != {} { NotHit(m, d, lo, hi - 1, hi, free); }
  }

  /** A page that takes two frames when one is left leaves no page boundary at which none is. */
  lemma NotHit(m: Mem, d: Frame, lo: nat, a: nat, hi: nat, free: nat)
    requires lo <= a < hi && OpensTable(m, d, lo, a) && Cost(m, d, lo, a + 1) == free + 1
    ensures forall b: nat :: lo <= b < hi ==> Cost(m, d, lo, b) != free
  {
    hide Missing, OpensTable, Cost;
    CostStep(m, d, lo, a);
    forall b: nat | lo <= b < hi ensures Cost(m, d, lo, b) != free {
      if b <= a { CostGrows(m, d, lo, b, a); } else { CostGrows(m, d, lo, a + 1, b); }
    }
  }

  /** So with one frame left, growing a new address space by a page succeeds without the page. */
  lemma FirstPageLost(m: Mem, d: Frame, sz: nat, r: nat, lost: set<Frame>)
    requires NoUserTable(m, d) && 0 < sz <= PGSIZE && Outcome(m, d, 0, Pages(sz), 1, sz, r, lost)
    ensures r == sz && |lost| == 1
  {
    assert Pages(sz) == 1;
    FreshOpens(m, d, 0);
    CostFresh(m, d, 0);
    CostFresh(m, d, 1);
    hide OpensTable, Cost, NoUserTable;
    assert lost != {};
  }

  // -------- Copying an address space --------

  /** NoPage stands for the panics of vm.c:320-323. */
  datatype Copied = Copy(d: Frame) | NoSpace | NoPage

  function Least(a: nat, b: nat): nat {
    if a < b then a else b
  }

  /** What is lost when there are too few frames for n pages: all of them before the kernel's tables are
      done, and then one, unless memory runs out between two pages. */
  ghost predicate CopyLoses(free: nat, kernel: nat, n: nat, lost: set<Frame>, all: set<Frame>) {
    if free < kernel then lost == all else CopyFails(free - kernel, n, lost)
  }

  ghost predicate CopyFails(free: nat, n: nat, lost: set<Frame>) {
    |lost| <= 1 && (lost == {} <==> exists a: nat :: a < n && FreshCost(a) == free)
  }

  lemma CopyFailed(free: nat, kernel: nat, n: nat, lost: set<Frame>, all: set<Frame>)
    requires kernel <= free && CopyFails(free - kernel, n, lost)
    ensures CopyLoses(free, kernel, n, lost, all)
  {
  }

  lemma NoKernel(free: nat, kernel: nat, n: nat, lost: set<Frame>)
    requires free < kernel
    ensures CopyLoses(free, kernel, n, lost, lost)
  {
  }

  lemma CopyCount(m: Mem, n: Mem, d: Frame, i: nat, free: nat, left: nat)
    requires Counted(m, n, d, 0, i, {}, free, left) && NoUserTable(m, d) && i <= USER
    ensures free == left + FreshCost(i)
  {
    hide Tabled, Missing, Cost, NoUserTable;
    CostFresh(m, d, i);
  }

  lemma FreshMore(a: nat, b: nat)
    requires a <= b
    ensures FreshCost(a) + b - a <= FreshCost(b)
  {
  }

  /** Memory runs out at page i. */
  lemma CopyLost(m: Mem, n: Mem, d: Frame, i: nat, top: nat, added: Added, free: nat, left: nat)
    requires Counted(m, n, d, 0, i, {}, free, left) && NoUserTable(m, d) && i < top <= USER && i / NENT < NENT
             && !added.Mapped?
    requires added.NoMemory? ==> left == 0
    requires added.NoTable? ==> left == 1 && !HasTable(n, d, i)
    ensures CopyFails(free, top, if added.NoTable? then {added.f} else {})
    ensures free < FreshCost(top)
  {
    CopyCount(m, n, d, i, free, left);
    if added.NoTable? { TabledAt(m, n, d, 0, i); }
    CostStep(m, d, 0, i);
    CostFresh(m, d, i);
    CostFresh(m, d, i + 1);
    FreshMore(i + 1, top);
    hide Counted, NoUserTable, HasTable, OpensTable, Missing, Cost, FreshCost;
    if added.NoTable? {
      forall a: nat | a < top ensures FreshCost(a) != free {
        if a <= i { FreshMore(a, i); } else { FreshMore(i + 1, a); }
      }
    }
  }

  /** The first i pages of d, in frames of its own, hold what those of p held. */
  ghost predicate CopiedTo(m: Mem, n: Mem, p: Frame, d: Frame, i: nat, was: map<Frame, Content>,
                           now: map<Frame, Content>) {
    forall v: nat :: v < i ==>
      && Entry(n, d, v).Present? && Entry(n, d, v).frame !in m.owner && Entry(m, p, v).Present?
      && Entry(n, d, v).frame in now && Entry(m, p, v).frame in was
         && now[Entry(n, d, v).frame] == was[Entry(m, p, v).frame]
  }

  ghost predicate CopySoFar(m: Mem, n: Mem, p: Frame, d: Frame, i: nat, was: map<Frame, Content>,
                            now: map<Frame, Content>) {
    && d !in m.owner && IsDir(m, p) && Kept(m, n) && NewIn(m, n, d, {}) && OthersSame(m, n, d) && SameData(was, now, m)
    && Spans(n, d, 0, i) && CopiedTo(m, n, p, d, i, was, now)
  }

  lemma CopyStart(m: Mem, n: Mem, p: Frame, d: Frame, ks: seq<Range>, was: map<Frame, Content>)
    requires d !in m.owner && IsDir(m, p) && Grown(m, n, d, 0) && 0 !in m.owner && OthersSame(m, n, d)
             && Spans(n, d, 0, 0)
    ensures CopySoFar(m, n, p, d, 0, was, was)
  {
  }

  lemma SameSelf(was: map<Frame, Content>, m: Mem)
    ensures SameData(was, was, m)
  {
  }

  /** Of the pages of p below n, k is the first that is missing; or n, if none is. */
  predicate FirstGap(m: Mem, p: Frame, k: nat, n: nat) {
    k <= n <= USER && (forall v: nat :: v < k ==> Entry(m, p, v).Present?) && (k < n ==> Entry(m, p, k).Absent?)
  }

  lemma GapInUser(m: Mem, p: Frame, k: nat, n: nat)
    requires FirstGap(m, p, k, n)
    ensures k <= n <= USER
  {
  }

  /** The parent's mappings are as before; page i of the copy is free. */
  lemma CopyParent(m: Mem, n: Mem, p: Frame, d: Frame, i: nat, k: nat, top: nat, was: map<Frame, Content>,
                   now: map<Frame, Content>)
    requires CopySoFar(m, n, p, d, i, was, now) && FirstGap(m, p, k, top) && i <= k && i < top
    ensures IsDir(n, p) && (Entry(n, p, i).Present? <==> i < k)
  {
    hide Entry;
  }

  lemma EntryOut(n: Mem, p: Frame, i: nat)
    requires !HasTable(n, p, i) || n.tabs[TableOf(n, p, i)][i % NENT].Absent?
    ensures Entry(n, p, i).Absent?
  {
  }

  lemma EntryHere(n: Mem, p: Frame, i: nat)
    requires HasTable(n, p, i)
    ensures TableOf(n, p, i) in n.tabs && |n.tabs[TableOf(n, p, i)]| == NENT
    ensures n.tabs[TableOf(n, p, i)][i % NENT] == Entry(n, p, i)
  {
  }

  lemma CopyOthersAll(m: Mem, n: Mem, p: Frame, d: Frame, i: nat, was: map<Frame, Content>, now: map<Frame, Content>)
    requires CopySoFar(m, n, p, d, i, was, now)
    ensures OthersSame(m, n, 0) && Kept(m, n) && SameData(was, now, m)
  {
    hide Entry;
  }

  /** The next page of the parent is there, and still holds what it did. */
  lemma CopySource(m: Mem, n: Mem, p: Frame, d: Frame, i: nat, k: nat, top: nat, was: map<Frame, Content>,
                   now: map<Frame, Content>)
    requires CopySoFar(m, n, p, d, i, was, now) && FirstGap(m, p, k, top) && i < k && MemOk(m)
    requires forall v: nat :: v < k ==> Entry(m, p, v).frame in was
    ensures i < USER && IsDir(n, p) && Entry(n, p, i) == Entry(m, p, i) && Entry(m, p, i).Present?
            && Entry(n, d, i).Absent?
    ensures Entry(m, p, i).frame in now && Entry(m, p, i).frame in was
            && now[Entry(m, p, i).frame] == was[Entry(m, p, i).frame]
  {
    hide Entry, MemOk;
    FramesDistinct(m, p, i, p, i);
  }

  lemma CopyNext(m: Mem, n: Mem, o: Mem, p: Frame, d: Frame, i: nat, added: Added,
                 was: map<Frame, Content>, now: map<Frame, Content>, after: map<Frame, Content>)
    requires CopySoFar(m, n, p, d, i, was, now) && MemOk(n) && IsDir(n, d) && i < USER
    requires added.Mapped? && AddedOk(n, o, d, i, added) && Kept(n, o)
    requires Entry(m, p, i).Present? && Entry(m, p, i).frame in was
             && after == now[added.f := was[Entry(m, p, i).frame]]
    ensures CopySoFar(m, o, p, d, i + 1, was, after)
  {
    hide Entry, MemOk;
    forall v: nat | v < i ensures Entry(o, d, v) == Entry(n, d, v) && Entry(n, d, v).frame != added.f {
      assert Entry(o, d, v) == Entry(n, d, v);
      FramesDistinct(n, d, v, d, v);
    }
    hide IsDir;
    CopyOthers(m, n, o, d, i, added);
    forall v: nat | v < USER ensures Entry(o, d, v).Present? <==> v < i + 1 {
      if v != i { assert Entry(o, d, v) == Entry(n, d, v); }
    }
  }

  lemma CopyOthers(m: Mem, n: Mem, o: Mem, d: Frame, i: nat, added: Added)
    requires OthersSame(m, n, d) && AddedOk(n, o, d, i, added)
    ensures OthersSame(m, o, d)
  {
    hide Entry, IsDir;
    if !added.NoMemory? {
      forall e: Frame, v: nat | IsDir(m, e) && e != d ensures IsDir(o, e) && Entry(o, e, v) == Entry(m, e, v) {
        assert Entry(o, e, v) == Entry(n, e, v);
      }
    }
  }

  /** Out of memory in the middle of a copy. */
  lemma CopyStuck(m: Mem, n: Mem, o: Mem, p: Frame, d: Frame, i: nat, added: Added,
                  was: map<Frame, Content>, now: map<Frame, Content>, after: map<Frame, Content>)
    requires CopySoFar(m, n, p, d, i, was, now) && IsDir(n, d) && !added.Mapped? && AddedOk(n, o, d, i, added)
             && i < USER
    requires Entry(m, p, i).Present? && Entry(m, p, i).frame in was
    requires added.NoMemory? ==> after == now
    requires added.NoTable? ==> Kept(n, o) && after == now[added.f := was[Entry(m, p, i).frame]]
    ensures Spans(o, d, 0, i) && Kept(m, o) && OthersSame(m, o, d) && SameData(was, after, m)
    ensures d !in m.owner && Lost(m, o, d, if added.NoTable? then {added.f} else {})
  {
    hide Entry, IsDir;
    CopyOthers(m, n, o, d, i, added);
    forall v: nat | v < USER ensures Entry(o, d, v).Present? <==> v < i {
      if added.NoTable? && v != i { assert Entry(o, d, v) == Entry(n, d, v); }
    }
  }

  /** Frames newly in use are d's, except the lost ones, which are nobody's. */
  ghost predicate Lost(m: Mem, o: Mem, d: Frame, lost: set<Frame>) {
    && NewIn(m, o, d, lost) && lost !! m.owner.Keys
    && forall f :: f in lost ==> OwnedAs(o, f, Other)
  }

  lemma CopyUndone(m: Mem, o: Mem, q: Mem, d: Frame, lost: set<Frame>,
                   was: map<Frame, Content>, after: map<Frame, Content>, last: map<Frame, Content>)
    requires MemOk(m) && d !in m.owner && Kept(m, o) && Lost(m, o, d, lost) && OthersSame(m, o, d)
             && SameData(was, after, m)
    requires q.owner == o.owner - Frames(o, d) && OthersSame(o, q, d) && SameData(after, last, q)
    ensures Kept(m, q) && q.owner.Keys == m.owner.Keys + lost && OthersSame(m, q, 0) && SameData(was, last, m)
  {
    forall f | f in m.owner ensures f in q.owner && q.owner[f] == m.owner[f] {
      assert FrameOk(m, f);
    }
    hide Entry, MemOk;
  }

  lemma CopyDone(m: Mem, n: Mem, p: Frame, d: Frame, i: nat, was: map<Frame, Content>, now: map<Frame, Content>)
    requires CopySoFar(m, n, p, d, i, was, now)
    ensures d !in m.owner && Kept(m, n) && NewIn(m, n, d, {}) && OthersSame(m, n, d) && SameData(was, now, m)
    ensures Spans(n, d, 0, i) && CopiedTo(m, n, p, d, i, was, now)
  {
  }

  /** Freeing the copy gives back exactly the frames it took. */
  lemma FreeUndoesCopy(m: Mem, n: Mem, d: Frame)
    requires MemOk(m) && d !in m.owner && Kept(m, n) && NewIn(m, n, d, {})
    ensures n.owner - Frames(n, d) == m.owner
  {
    forall f | f in m.owner ensures !Belongs(n.owner[f], f, d) { assert FrameOk(m, f); }
  }
}
