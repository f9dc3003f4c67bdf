/** Two-level page tables in physical frames (vm.c), and who owns each frame that is not free. A virtual
    page number is a virtual address divided by the page size. */
module VmSpec {

  type Frame = nat

  /** Entries in a directory and in a page table (NPDENTRIES, NPTENTRIES). */
  const NENT := 1024

  /** The first virtual page of the kernel (KERNBASE). */
  const USER := 0x80000

  datatype Pte = Absent | Present(frame: Frame, writable: bool, user: bool)

  /** The use of a frame taken from the free list: a page directory, a page table, a user page, or
      something that vm.c does not look after. */
  datatype Owner = Dir | Tab(dir: Frame, pdx: nat) | Page(dir: Frame, vpn: nat) | Other

  datatype Mem = Mem(tabs: map<Frame, seq<Pte>>, owner: map<Frame, Owner>)

  predicate IsTable(m: Mem, t: Frame) {
    t in m.tabs && |m.tabs[t]| == NENT
  }

  predicate IsDir(m: Mem, d: Frame) {
    d in m.owner && m.owner[d] == Dir && IsTable(m, d)
  }

  predicate OwnedAs(m: Mem, f: Frame, o: Owner) {
    f in m.owner && m.owner[f] == o
  }

  /** The entry of the directory d for table x leads to t. */
  predicate Leads(m: Mem, d: Frame, x: nat, t: Frame) {
    x < NENT && IsTable(m, d) && m.tabs[d][x].Present? && m.tabs[d][x].frame == t
  }

  predicate DirOk(m: Mem, d: Frame) {
    IsTable(m, d) && forall x :: 0 <= x < NENT && m.tabs[d][x].Present? ==> OwnedAs(m, m.tabs[d][x].frame, Tab(d, x))
  }

  predicate TabOk(m: Mem, t: Frame, d: Frame, x: nat) {
    && IsDir(m, d) && Leads(m, d, x, t) && IsTable(m, t)
    && (x * NENT < USER ==> forall y :: 0 <= y < NENT && m.tabs[t][y].Present? ==>
       OwnedAs(m, m.tabs[t][y].frame, Page(d, x * NENT + y)))
  }

  predicate PageOk(m: Mem, f: Frame, d: Frame, v: nat) {
    v < USER && IsDir(m, d) && Entry(m, d, v) == Present(f, true, true)
  }

  /** The entry for page v: absent when its table is. */
  function Entry(m: Mem, d: Frame, v: nat): Pte {
    if IsTable(m, d) && v / NENT < NENT && m.tabs[d][v / NENT].Present? && IsTable(m, m.tabs[d][v / NENT].frame)
    then m.tabs[m.tabs[d][v / NENT].frame][v % NENT] else Absent
  }

  predicate FrameOk(m: Mem, f: Frame)
    requires f in m.owner
  {
    match m.owner[f]
    case Dir => DirOk(m, f)
    case Tab(d, x) => TabOk(m, f, d, x)
    case Page(d, v) => PageOk(m, f, d, v)
    case Other => true
  }

  /** Every frame in use is used once: by the entry that its owner names. */
  predicate MemOk(m: Mem) {
    forall f :: f in m.owner ==> FrameOk(m, f)
  }

  // -------- Single steps --------

  function Blank(): (t: seq<Pte>)
    ensures |t| == NENT && forall y :: 0 <= y < NENT ==> t[y].Absent?
  {
    seq(NENT, _ => Absent)
  }

  /** walkpgdir makes a page table (vm.c:55-62). */
  function WithTable(m: Mem, d: Frame, x: nat, t: Frame): Mem
    requires IsTable(m, d) && x < NENT
  {
    Mem(m.tabs[t := Blank()][d := m.tabs[d][x := Present(t, true, true)]], m.owner[t := Tab(d, x)])
  }

  lemma WithTableSame(m: Mem, d: Frame, x: nat, t: Frame)
    requires MemOk(m) && IsDir(m, d) && x < NENT && m.tabs[d][x].Absent? && t !in m.owner
    ensures SameBut(m, WithTable(m, d, x, t), d, 0, 0) && Grown(m, WithTable(m, d, x, t), d, 0)
    ensures IsTable(WithTable(m, d, x, t), t)
  {
    var n := WithTable(m, d, x, t);
    forall e: Frame, v: nat | IsDir(m, e) ensures Entry(n, e, v) == Entry(m, e, v) {
      assert FrameOk(m, e);
    }
  }

  lemma WithTableOk(m: Mem, d: Frame, x: nat, t: Frame)
    requires MemOk(m) && IsDir(m, d) && x < NENT && m.tabs[d][x].Absent? && t !in m.owner
    ensures MemOk(WithTable(m, d, x, t))
  {
    var n := WithTable(m, d, x, t);
    assert FrameOk(m, d);
    forall f | f in n.owner ensures FrameOk(n, f) {
      if f != t { assert FrameOk(m, f); }
    }
  }

  /** The page table of page v, when there is one. */
  predicate HasTable(m: Mem, d: Frame, v: nat) {
    v / NENT < NENT && IsTable(m, d) && m.tabs[d][v / NENT].Present? && IsTable(m, m.tabs[d][v / NENT].frame)
  }

  function TableOf(m: Mem, d: Frame, v: nat): Frame
    requires HasTable(m, d, v)
  {
    m.tabs[d][v / NENT].frame
  }

  function SetEntry(m: Mem, d: Frame, v: nat, e: Pte): map<Frame, seq<Pte>>
    requires HasTable(m, d, v)
  {
    m.tabs[TableOf(m, d, v) := m.tabs[TableOf(m, d, v)][v % NENT := e]]
  }

  /** The frame f becomes page v of d (vm.c:83). */
  function WithPage(m: Mem, d: Frame, v: nat, f: Frame): Mem
    requires HasTable(m, d, v)
  {
    Mem(SetEntry(m, d, v, Present(f, true, true)), m.owner[f := Page(d, v)])
  }

  /** A kernel mapping: the frame it leads to is nobody's. */
  function WithKernel(m: Mem, d: Frame, v: nat, e: Pte): Mem
    requires HasTable(m, d, v)
  {
    m.(tabs := SetEntry(m, d, v, e))
  }

  /** Page v of d is taken away (vm.c:264-269). */
  function WithoutPage(m: Mem, d: Frame, v: nat): Mem
    requires HasTable(m, d, v) && Entry(m, d, v).Present?
  {
    Mem(SetEntry(m, d, v, Absent), m.owner - {Entry(m, d, v).frame})
  }

  /** Tables are not shared: the table of a page is no directory, and no other page range has it. */
  lemma OwnTable(m: Mem, d: Frame, v: nat, e: Frame, w: nat)
    requires MemOk(m) && IsDir(m, d) && IsDir(m, e) && HasTable(m, d, v) && HasTable(m, e, w)
    ensures TableOf(m, d, v) == TableOf(m, e, w) ==> d == e && v / NENT == w / NENT
    ensures !IsDir(m, TableOf(m, d, v)) && OwnedAs(m, TableOf(m, d, v), Tab(d, v / NENT))
  {
    assert FrameOk(m, d) && FrameOk(m, e);
  }

  /** Setting one entry changes that entry alone. */
  lemma SetEntryOnly(m: Mem, n: Mem, d: Frame, v: nat, x: Pte, e: Frame, w: nat)
    requires MemOk(m) && IsDir(m, d) && IsDir(m, e) && HasTable(m, d, v) && n.tabs == SetEntry(m, d, v, x)
    ensures Entry(n, e, w) == if e == d && w == v then x else Entry(m, e, w)
    ensures HasTable(n, e, w) <==> HasTable(m, e, w)
    ensures IsTable(n, e)
  {
    OwnTable(m, d, v, d, v);
    if HasTable(m, e, w) { OwnTable(m, d, v, e, w); }
  }

  lemma SetEntrySame(m: Mem, n: Mem, d: Frame, v: nat, x: Pte)
    requires MemOk(m) && IsDir(m, d) && HasTable(m, d, v) && n.tabs == SetEntry(m, d, v, x)
    requires forall e :: IsDir(m, e) ==> OwnedAs(n, e, Dir)
    ensures SameBut(m, n, d, v, v + 1) && Entry(n, d, v) == x
  {
    forall e | IsDir(m, e) ensures IsDir(n, e) { SetEntryOnly(m, n, d, v, x, e, 0); }
    forall e, w: nat | IsDir(m, e) && !(e == d && v <= w < v + 1) ensures Entry(n, e, w) == Entry(m, e, w) {
      SetEntryOnly(m, n, d, v, x, e, w);
    }
    SetEntryOnly(m, n, d, v, x, d, v);
  }

  lemma {:induction false} WithPageOk(m: Mem, d: Frame, v: nat, f: Frame)
    requires MemOk(m) && IsDir(m, d) && HasTable(m, d, v) && Entry(m, d, v).Absent? && v < USER
             && (f in m.owner ==> m.owner[f] == Other)
    ensures MemOk(WithPage(m, d, v, f)) && SameBut(m, WithPage(m, d, v, f), d, v, v + 1)
    ensures Entry(WithPage(m, d, v, f), d, v) == Present(f, true, true)
  {
    var n := WithPage(m, d, v, f);
    SetEntrySame(m, n, d, v, Present(f, true, true));
    OwnTable(m, d, v, d, v);
    forall g | g in n.owner ensures FrameOk(n, g) {
      if g != f {
        assert FrameOk(m, g);
        match m.owner[g]
        case Page(e, w) => SetEntryOnly(m, n, d, v, Present(f, true, true), e, w);
        case _ =>
      }
    }
  }

  lemma {:induction false} WithKernelOk(m: Mem, d: Frame, v: nat, x: Pte)
    requires MemOk(m) && IsDir(m, d) && HasTable(m, d, v) && v >= USER
    ensures MemOk(WithKernel(m, d, v, x)) && SameBut(m, WithKernel(m, d, v, x), d, v, v + 1)
    ensures Entry(WithKernel(m, d, v, x), d, v) == x
  {
    var n := WithKernel(m, d, v, x);
    SetEntrySame(m, n, d, v, x);
    OwnTable(m, d, v, d, v);
    forall g | g in n.owner ensures FrameOk(n, g) {
      assert FrameOk(m, g);
      match m.owner[g]
      case Page(e, w) => SetEntryOnly(m, n, d, v, x, e, w);
      case _ =>
    }
  }

  lemma {:induction false} WithoutPageOk(m: Mem, d: Frame, v: nat)
    requires MemOk(m) && IsDir(m, d) && HasTable(m, d, v) && Entry(m, d, v).Present? && v < USER
    ensures OwnedAs(m, Entry(m, d, v).frame, Page(d, v))
    ensures MemOk(WithoutPage(m, d, v)) && SameBut(m, WithoutPage(m, d, v), d, v, v + 1)
    ensures Entry(WithoutPage(m, d, v), d, v).Absent?
  {
    var n, f := WithoutPage(m, d, v), Entry(m, d, v).frame;
    OwnTable(m, d, v, d, v);
    assert FrameOk(m, TableOf(m, d, v));
    assert OwnedAs(m, f, Page(d, v));
    SetEntrySame(m, n, d, v, Absent);
    forall g | g in n.owner ensures FrameOk(n, g) {
      assert FrameOk(m, g);
      match m.owner[g]
      case Page(e, w) => SetEntryOnly(m, n, d, v, Absent, e, w);
      case _ =>
    }
  }

  // -------- Giving up an address space --------

  predicate Belongs(o: Owner, f: Frame, d: Frame) {
    match o
    case Dir => f == d
    case Tab(e, _) => e == d
    case Page(e, _) => e == d
    case Other => false
  }

  /** All frames of the address space d. */
  function Frames(m: Mem, d: Frame): set<Frame> {
    set f | f in m.owner && Belongs(m.owner[f], f, d)
  }

  function Dropped(m: Mem, d: Frame): Mem {
    m.(owner := m.owner - Frames(m, d))
  }

  lemma {:induction false} DroppedOk(m: Mem, d: Frame)
    requires MemOk(m)
    ensures MemOk(Dropped(m, d))
    ensures forall e :: IsDir(m, e) && e != d ==> IsDir(Dropped(m, d), e)
  {
    var n := Dropped(m, d);
    forall g | g in n.owner ensures FrameOk(n, g) {
      assert FrameOk(m, g);
    }
  }

  /** Every address space maps what it did, except that pages lo to hi of d may differ. */
  ghost predicate SameBut(m: Mem, n: Mem, d: Frame, lo: nat, hi: nat) {
    && (forall e :: IsDir(m, e) ==> IsDir(n, e))
    && forall e: Frame, v: nat {:trigger Entry(n, e, v)} :: IsDir(m, e) && !(e == d && lo <= v < hi) ==>
       Entry(n, e, v) == Entry(m, e, v)
  }

  /** Frames in use stay so, except perhaps x; those newly in use are d's. */
  ghost predicate Grown(m: Mem, n: Mem, d: Frame, x: Frame) {
    && (forall f :: f in m.owner && f != x ==> f in n.owner && n.owner[f] == m.owner[f])
    && (forall f :: f in n.owner && f !in m.owner ==> Belongs(n.owner[f], f, d))
  }

  /** Of the user pages from lo on, d maps exactly those below k. */
  predicate Spans(m: Mem, d: Frame, lo: nat, k: nat) {
    lo <= k <= USER && forall v: nat :: lo <= v < USER ==> (Entry(m, d, v).Present? <==> v < k)
  }

  /** Two pages never share a frame, nor does a page share one with a table. */
  lemma FramesDistinct(m: Mem, d: Frame, v: nat, e: Frame, w: nat)
    requires MemOk(m) && IsDir(m, d) && IsDir(m, e) && v < USER && w < USER
    requires Entry(m, d, v).Present? && Entry(m, e, w).Present?
    ensures Entry(m, d, v).frame == Entry(m, e, w).frame ==> d == e && v == w
    ensures OwnedAs(m, Entry(m, d, v).frame, Page(d, v))
  {
    WithoutPageOk(m, d, v);
    WithoutPageOk(m, e, w);
  }

  lemma SameButTrans(m: Mem, n: Mem, o: Mem, d: Frame, lo: nat, hi: nat, a: nat, b: nat)
    requires SameBut(m, n, d, lo, hi) && SameBut(n, o, d, a, b)
    requires lo <= hi && a <= b
    ensures a == b ==> SameBut(m, o, d, lo, hi)
    ensures a == hi ==> SameBut(m, o, d, lo, b)
    ensures b == lo ==> SameBut(m, o, d, a, hi)
  {
  }

  lemma GrownTrans(m: Mem, n: Mem, o: Mem, d: Frame, x: Frame)
    requires Grown(m, n, d, x) && Grown(n, o, d, 0) && 0 !in n.owner
    ensures Grown(m, o, d, x)
  {
  }

  /** Frames that d had for pages are in use no more; all others are as before. */
  ghost predicate Shrunk(m: Mem, n: Mem, d: Frame) {
    && (forall f :: f in n.owner ==> f in m.owner && n.owner[f] == m.owner[f])
    && (forall f :: f in m.owner && f !in n.owner ==> m.owner[f].Page? && m.owner[f].dir == d)
  }

  // -------- The scan of deallocuvm --------

  predicate TableMissing(m: Mem, d: Frame, x: nat) {
    !HasTable(m, d, x * NENT)
  }

  /** Starting at page lo, deallocuvm jumps over page v (vm.c:261-262): there is no table up to that of v, and v
      comes earlier in its table than lo would. */
  predicate Skipped(m: Mem, d: Frame, lo: nat, v: nat) {
    && lo / NENT < v / NENT && v % NENT < lo % NENT
    && forall x: nat :: lo / NENT <= x < v / NENT ==> TableMissing(m, d, x)
  }

  /** n is m without the pages of d from lo to a, except those jumped over. */
  ghost predicate Unmapped(m: Mem, n: Mem, d: Frame, lo: nat, a: nat) {
    forall v: nat :: v < USER ==>
      Entry(n, d, v) == if lo <= v < a && !Skipped(m, d, lo, v) then Absent else Entry(m, d, v)
  }

  /** Where the scan can be: it has met no table yet, or it will jump over nothing more. */
  ghost predicate Scanning(m: Mem, d: Frame, lo: nat, a: nat) {
    && lo <= a
    && (|| (a % NENT == lo % NENT && forall x: nat :: lo / NENT <= x < a / NENT ==> TableMissing(m, d, x))
        || ((a % NENT == 0 || !TableMissing(m, d, a / NENT)) && forall v: nat :: v >= a ==> !Skipped(m, d, lo, v)))
  }

  lemma MissingAt(m: Mem, d: Frame, v: nat)
    ensures TableMissing(m, d, v / NENT) <==> !HasTable(m, d, v)
  {
    SameTable(m, d, v, v / NENT * NENT);
  }

  lemma NoEntry(m: Mem, d: Frame, v: nat)
    requires !HasTable(m, d, v)
    ensures Entry(m, d, v).Absent?
  {
  }

  lemma ScanStart(m: Mem, d: Frame, lo: nat)
    ensures Scanning(m, d, lo, lo) && Unmapped(m, m, d, lo, lo)
  {
    hide Entry, TableMissing;
  }

  /** No table: on by 1024 pages. */
  lemma ScanSkips(m: Mem, d: Frame, lo: nat, a: nat)
    requires Scanning(m, d, lo, a) && TableMissing(m, d, a / NENT)
    ensures Scanning(m, d, lo, a + NENT)
  {
    hide TableMissing;
    assert (a + NENT) / NENT == a / NENT + 1 && (a + NENT) % NENT == a % NENT;
  }

  lemma SkipAbsent(m: Mem, d: Frame, lo: nat, a: nat, v: nat)
    requires Scanning(m, d, lo, a) && TableMissing(m, d, a / NENT) && a <= v < a + NENT && !Skipped(m, d, lo, v)
    ensures Entry(m, d, v).Absent?
  {
    MissingAt(m, d, v);
    hide TableMissing, HasTable, Entry;
    NextTable(a, v);
    if v / NENT == a / NENT { NoEntry(m, d, v); }
  }

  lemma NextTable(a: nat, v: nat)
    requires a <= v < a + NENT
    ensures v / NENT == a / NENT || (v / NENT == a / NENT + 1 && v % NENT < a % NENT)
  {
  }

  lemma ScanSkip(m: Mem, n: Mem, d: Frame, lo: nat, a: nat, b: nat)
    requires Scanning(m, d, lo, a) && Unmapped(m, n, d, lo, a) && !HasTable(m, d, a) && a <= b <= a + NENT
    ensures Scanning(m, d, lo, a + NENT) && Unmapped(m, n, d, lo, b)
  {
    MissingAt(m, d, a);
    hide TableMissing, HasTable, Entry, Scanning, Skipped;
    ScanSkips(m, d, lo, a);
    forall v: nat | a <= v < b && v < USER && !Skipped(m, d, lo, v) ensures Entry(m, d, v).Absent? {
      SkipAbsent(m, d, lo, a, v);
    }
  }

  /** A table: its entry is cleared, and on by one page. */
  lemma ScanFree(m: Mem, n: Mem, o: Mem, d: Frame, lo: nat, a: nat)
    requires Scanning(m, d, lo, a) && Unmapped(m, n, d, lo, a) && HasTable(m, d, a) && a < USER
    requires IsDir(n, d) && SameBut(n, o, d, a, a + 1) && Entry(o, d, a).Absent?
    ensures Scanning(m, d, lo, a + 1) && Unmapped(m, o, d, lo, a + 1)
  {
    MissingAt(m, d, a);
    ScanFrees(m, d, lo, a);
    hide TableMissing, HasTable, Entry, Scanning, Skipped, IsDir;
    forall v: nat | v < USER
      ensures Entry(o, d, v) == if lo <= v < a + 1 && !Skipped(m, d, lo, v) then Absent else Entry(m, d, v)
    {
      if v != a { assert Entry(o, d, v) == Entry(n, d, v); }
    }
  }

  lemma ScanFrees(m: Mem, d: Frame, lo: nat, a: nat)
    requires Scanning(m, d, lo, a) && !TableMissing(m, d, a / NENT)
    ensures Scanning(m, d, lo, a + 1) && !Skipped(m, d, lo, a)
  {
    hide TableMissing;
    assert forall v: nat :: v >= a ==> !Skipped(m, d, lo, v) by {
      forall v: nat | v >= a ensures !Skipped(m, d, lo, v) { }
    }
    if (a + 1) % NENT != 0 { assert (a + 1) / NENT == a / NENT; }
  }

  /** From the second page on, without a first table, the first page of the second table stays. */
  lemma PageJumped(m: Mem, n: Mem, d: Frame)
    requires TableMissing(m, d, 0) && Unmapped(m, n, d, 1, USER)
    ensures Entry(n, d, NENT) == Entry(m, d, NENT)
  {
    assert forall x: nat :: 0 <= x < 1 ==> TableMissing(m, d, x);
    assert Skipped(m, d, 1, NENT);
  }

  /** From the start of a table on nothing is jumped over. */
  lemma AlignedAll(m: Mem, n: Mem, d: Frame, lo: nat, hi: nat)
    requires Unmapped(m, n, d, lo, hi) && lo % NENT == 0 && lo <= USER <= hi
    ensures Spans(n, d, lo, lo)
  {
    hide Entry, TableMissing;
  }

  /** Nor is a page behind pages without a gap. */
  lemma SpanUnmapped(m: Mem, n: Mem, d: Frame, lo: nat, k: nat, hi: nat)
    requires Spans(m, d, lo, k) && Unmapped(m, n, d, lo, hi) && k <= hi
    ensures Spans(n, d, lo, lo)
  {
    if lo < k { FirstTable(m, d, lo); }
    hide Entry, TableMissing;
  }

  lemma FirstTable(m: Mem, d: Frame, lo: nat)
    requires Entry(m, d, lo).Present?
    ensures !TableMissing(m, d, lo / NENT)
  {
    MissingAt(m, d, lo);
  }

  /** The page tables of d for the first i directory entries. */
  function TabsBelow(m: Mem, d: Frame, i: nat): set<Frame> {
    set f | f in m.owner && m.owner[f].Tab? && m.owner[f].dir == d && m.owner[f].pdx < i
  }

  lemma NextTab(m: Mem, d: Frame, i: nat)
    requires MemOk(m) && IsDir(m, d) && i < NENT
    ensures m.tabs[d][i].Absent? ==> TabsBelow(m, d, i + 1) == TabsBelow(m, d, i)
    ensures m.tabs[d][i].Present? ==>
      var t := m.tabs[d][i].frame;
      t in m.owner && t !in TabsBelow(m, d, i)
        && TabsBelow(m, d, i + 1) == TabsBelow(m, d, i) + {t}
  {
    assert FrameOk(m, d);
    forall f | f in TabsBelow(m, d, i + 1) && f !in TabsBelow(m, d, i)
      ensures m.tabs[d][i].Present? && m.tabs[d][i].frame == f {
      assert FrameOk(m, f);
    }
  }

  /** Without user pages, an address space is its directory and its page tables. */
  lemma BareSpace(m: Mem, d: Frame)
    requires MemOk(m) && IsDir(m, d) && Spans(m, d, 0, 0)
    ensures Frames(m, d) == TabsBelow(m, d, NENT) + {d} && d !in TabsBelow(m, d, NENT)
  {
    forall f | f in Frames(m, d) ensures f in TabsBelow(m, d, NENT) + {d} {
      assert FrameOk(m, f);
    }
  }

  lemma ShrunkFrames(m: Mem, n: Mem, d: Frame)
    requires Shrunk(m, n, d)
    ensures m.owner - Frames(m, d) == n.owner - Frames(n, d)
  {
  }

  /** Address spaces other than d map what they did. */
  ghost predicate OthersSame(m: Mem, n: Mem, d: Frame) {
    forall e: Frame :: IsDir(m, e) && e != d ==> IsDir(n, e) && forall v: nat :: Entry(n, e, v) == Entry(m, e, v)
  }

  // -------- Making an address space --------

  /** A new directory, empty (vm.c:134-136). */
  function WithDir(m: Mem, d: Frame): Mem {
    Mem(m.tabs[d := Blank()], m.owner[d := Dir])
  }

  lemma {:induction false} WithDirOk(m: Mem, d: Frame)
    requires MemOk(m) && d !in m.owner
    ensures MemOk(WithDir(m, d)) && IsDir(WithDir(m, d), d) && OthersSame(m, WithDir(m, d), d)
            && Grown(m, WithDir(m, d), d, 0)
    ensures forall v: nat :: Entry(WithDir(m, d), d, v).Absent?
  {
    var n := WithDir(m, d);
    forall e: Frame, v: nat | IsDir(m, e) ensures Entry(n, e, v) == Entry(m, e, v) { assert FrameOk(m, e); }
    forall f | f in n.owner ensures FrameOk(n, f) {
      if f != d { assert FrameOk(m, f); }
    }
  }

  /** Some kernel pages and the frames they lead to. */
  datatype Range = Range(v: nat, n: nat, pa: Frame, w: bool)

  /** Ranges of kernel pages in ascending order. */
  predicate KmapOk(ks: seq<Range>) {
    && (forall i :: 0 <= i < |ks| ==> USER <= ks[i].v && 1 <= ks[i].n && ks[i].v + ks[i].n <= NENT * NENT)
    && (forall i, j :: 0 <= i < j < |ks| ==> ks[i].v + ks[i].n <= ks[j].v)
  }

  /** The table kmap (vm.c:120-125); the kernel's data starts at frame k. */
  function Kmap(k: nat): seq<Range>
    requires 0x100 < k < 0xE000
  {
    [Range(USER, 0x100, 0, true), Range(USER + 0x100, k - 0x100, 0x100, false),
     Range(USER + k, 0xE000 - k, k, true), Range(0xFE000, 0x2000, 0xFE000, true)]
  }

  lemma KmapIsOk(k: nat)
    requires 0x100 < k < 0xE000
    ensures KmapOk(Kmap(k))
  {
  }

  /** d maps the first i ranges. */
  ghost predicate KernelMapped(m: Mem, d: Frame, ks: seq<Range>, i: nat) {
    i <= |ks| && forall j, v: nat :: 0 <= j < i && ks[j].v <= v < ks[j].v + ks[j].n ==>
      Entry(m, d, v) == Present(ks[j].pa + v - ks[j].v, ks[j].w, false)
  }

  /** Frames in use stay in the same use. */
  ghost predicate Kept(m: Mem, n: Mem) {
    forall f :: f in m.owner ==> f in n.owner && n.owner[f] == m.owner[f]
  }

  lemma GrownKept(m: Mem, n: Mem, d: Frame)
    requires Grown(m, n, d, 0) && 0 !in m.owner
    ensures Kept(m, n)
  {
  }

  // -------- How many frames a mapping takes --------

  /** The page tables that pages lo to hi lie in. */
  function TablesOf(lo: nat, hi: nat): set<nat> {
    set v: nat | lo <= v < hi :: v / NENT
  }

  /** Those that are missing. */
  ghost function Missing(m: Mem, d: Frame, lo: nat, hi: nat): set<nat> {
    set v: nat | lo <= v < hi && !HasTable(m, d, v) :: v / NENT
  }

  /** Mapping a new frame at each page from lo to hi takes these frames and one for every missing table. */
  ghost function Cost(m: Mem, d: Frame, lo: nat, hi: nat): nat
    requires lo <= hi
  {
    hi - lo + |Missing(m, d, lo, hi)|
  }

  /** Page v is the first to need its table, which is missing. */
  ghost predicate OpensTable(m: Mem, d: Frame, lo: nat, v: nat) {
    !HasTable(m, d, v) && v / NENT !in Missing(m, d, lo, v)
  }

  /** In n the directory d has the tables that it had in m, and those of xs. */
  ghost predicate Tabled(m: Mem, n: Mem, d: Frame, xs: set<nat>) {
    forall v: nat :: v / NENT < NENT ==> (HasTable(n, d, v) <==> HasTable(m, d, v) || v / NENT in xs)
  }

  lemma SameTable(m: Mem, d: Frame, v: nat, w: nat)
    requires v / NENT == w / NENT
    ensures HasTable(m, d, v) <==> HasTable(m, d, w)
  {
  }

  lemma MissingStep(m: Mem, d: Frame, lo: nat, a: nat)
    requires lo <= a
    ensures Missing(m, d, lo, a + 1) == Missing(m, d, lo, a) + if HasTable(m, d, a) then {} else {a / NENT}
  {
    hide HasTable;
  }

  lemma CostStep(m: Mem, d: Frame, lo: nat, a: nat)
    requires lo <= a
    ensures |Missing(m, d, lo, a + 1)| == |Missing(m, d, lo, a)| + if OpensTable(m, d, lo, a) then 1 else 0
    ensures Cost(m, d, lo, a + 1) == Cost(m, d, lo, a) + if OpensTable(m, d, lo, a) then 2 else 1
  {
    MissingStep(m, d, lo, a);
    hide HasTable, Missing;
    if a / NENT in Missing(m, d, lo, a) && !HasTable(m, d, a) {
      assert Missing(m, d, lo, a + 1) == Missing(m, d, lo, a);
    }
  }

  lemma {:induction false} CostGrows(m: Mem, d: Frame, lo: nat, a: nat, b: nat)
    requires lo <= a <= b
    ensures Cost(m, d, lo, a) + b - a <= Cost(m, d, lo, b)
    ensures |Missing(m, d, lo, a)| <= |Missing(m, d, lo, b)|
    decreases b
  {
    hide Missing, OpensTable, Cost;
    if a < b {
      CostGrows(m, d, lo, a, b - 1);
      CostStep(m, d, lo, b - 1);
    }
  }

  lemma MissingNone(m: Mem, d: Frame, lo: nat)
    ensures Missing(m, d, lo, lo) == {} && Cost(m, d, lo, lo) == 0 && Tabled(m, m, d, {})
  {
  }

  lemma WithTableTabled(m: Mem, d: Frame, x: nat, t: Frame)
    requires MemOk(m) && IsDir(m, d) && x < NENT && m.tabs[d][x].Absent? && t !in m.owner
    ensures Tabled(m, WithTable(m, d, x, t), d, {x})
  {
    assert FrameOk(m, d);
  }

  lemma SetEntryTabled(m: Mem, n: Mem, d: Frame, v: nat, x: Pte)
    requires MemOk(m) && IsDir(m, d) && HasTable(m, d, v) && n.tabs == SetEntry(m, d, v, x)
    ensures Tabled(m, n, d, {})
  {
    forall w: nat ensures HasTable(n, d, w) <==> HasTable(m, d, w) { SetEntryOnly(m, n, d, v, x, d, w); }
  }

  /** Once the tables of the pages below a are made, page a has one exactly if it does not open one. */
  lemma TabledAt(m: Mem, n: Mem, d: Frame, lo: nat, a: nat)
    requires Tabled(m, n, d, Missing(m, d, lo, a)) && a / NENT < NENT
    ensures HasTable(n, d, a) <==> !OpensTable(m, d, lo, a)
  {
    hide HasTable, Missing;
  }

  lemma TabledStep(m: Mem, n: Mem, o: Mem, d: Frame, lo: nat, a: nat)
    requires Tabled(m, n, d, Missing(m, d, lo, a)) && Tabled(n, o, d, {a / NENT}) && lo <= a && a / NENT < NENT
    ensures Tabled(m, o, d, Missing(m, d, lo, a + 1))
  {
    MissingStep(m, d, lo, a);
    forall v: nat | v / NENT == a / NENT ensures HasTable(m, d, v) <==> HasTable(m, d, a) { SameTable(m, d, v, a); }
    hide HasTable, Missing;
  }

  // -------- An address space without user tables --------

  function TablesFor(a: nat): nat {
    (a + NENT - 1) / NENT
  }

  /** The frames that a user pages and their tables take. */
  function FreshCost(a: nat): nat {
    a + TablesFor(a)
  }

  ghost predicate NoUserTable(m: Mem, d: Frame) {
    forall v: nat :: v < USER ==> !HasTable(m, d, v)
  }

  lemma {:induction false} CostFresh(m: Mem, d: Frame, a: nat)
    requires NoUserTable(m, d) && a <= USER
    ensures Cost(m, d, 0, a) == FreshCost(a)
  {
    if a == 0 {
      MissingNone(m, d, 0);
    } else {
      CostFresh(m, d, a - 1);
      CostStep(m, d, 0, a - 1);
      FreshOpens(m, d, a - 1);
      hide Missing, OpensTable, HasTable, Cost;
    }
  }

  lemma FreshOpens(m: Mem, d: Frame, a: nat)
    requires NoUserTable(m, d) && a < USER
    ensures OpensTable(m, d, 0, a) <==> a % NENT == 0
  {
    hide HasTable;
    if a % NENT != 0 {
      assert !HasTable(m, d, a - 1) && (a - 1) / NENT == a / NENT;
    }
  }

  // -------- The kernel's page tables --------

  /** The page tables of the first i ranges. */
  function KernelTables(ks: seq<Range>, i: nat): set<nat>
    requires i <= |ks|
  {
    if i == 0 then {} else KernelTables(ks, i - 1) + TablesOf(ks[i - 1].v, ks[i - 1].v + ks[i - 1].n)
  }

  /** What setupkvm takes: the directory and these tables. */
  function KernelCost(ks: seq<Range>): nat {
    1 + |KernelTables(ks, |ks|)|
  }

  /** d has exactly the page tables xs. */
  ghost predicate HasOnly(m: Mem, d: Frame, xs: set<nat>) {
    forall v: nat :: v / NENT < NENT ==> (HasTable(m, d, v) <==> v / NENT in xs)
  }

  lemma KernelMissing(m: Mem, d: Frame, ks: seq<Range>, i: nat)
    requires KmapOk(ks) && i < |ks| && HasOnly(m, d, KernelTables(ks, i))
    ensures Missing(m, d, ks[i].v, ks[i].v + ks[i].n) == KernelTables(ks, i + 1) - KernelTables(ks, i)
  {
    hide HasTable;
    assert forall v: nat :: ks[i].v <= v < ks[i].v + ks[i].n ==> v / NENT < NENT;
  }

  lemma KernelCount(m: Mem, d: Frame, ks: seq<Range>, i: nat)
    requires KmapOk(ks) && i < |ks| && HasOnly(m, d, KernelTables(ks, i))
    ensures |KernelTables(ks, i + 1)| == |KernelTables(ks, i)| + |Missing(m, d, ks[i].v, ks[i].v + ks[i].n)|
  {
    KernelMissing(m, d, ks, i);
    var a, b := KernelTables(ks, i), KernelTables(ks, i + 1);
    assert a <= b && b == a + (b - a);
  }

  lemma KernelTabled(m: Mem, n: Mem, d: Frame, ks: seq<Range>, i: nat)
    requires KmapOk(ks) && i < |ks| && HasOnly(m, d, KernelTables(ks, i))
    requires Tabled(m, n, d, Missing(m, d, ks[i].v, ks[i].v + ks[i].n))
    ensures HasOnly(n, d, KernelTables(ks, i + 1))
  {
    KernelMissing(m, d, ks, i);
    assert KernelTables(ks, i) <= KernelTables(ks, i + 1);
    hide HasTable, Missing, KernelTables;
  }

  lemma {:induction false} KernelAbove(ks: seq<Range>, i: nat, x: nat)
    requires KmapOk(ks) && i <= |ks| && x in KernelTables(ks, i)
    ensures x >= USER / NENT
  {
    if x in TablesOf(ks[i - 1].v, ks[i - 1].v + ks[i - 1].n) {
      var v: nat :| ks[i - 1].v <= v < ks[i - 1].v + ks[i - 1].n && v / NENT == x;
    } else {
      KernelAbove(ks, i - 1, x);
    }
  }

  lemma KernelNoUser(m: Mem, d: Frame, ks: seq<Range>)
    requires KmapOk(ks) && HasOnly(m, d, KernelTables(ks, |ks|))
    ensures NoUserTable(m, d)
  {
    forall v: nat | v < USER ensures !HasTable(m, d, v) {
      if v / NENT in KernelTables(ks, |ks|) { KernelAbove(ks, |ks|, v / NENT); }
    }
  }

  lemma {:induction false} KernelMore(ks: seq<Range>, i: nat, j: nat)
    requires i <= j <= |ks|
    ensures KernelTables(ks, i) <= KernelTables(ks, j) && |KernelTables(ks, i)| <= |KernelTables(ks, j)|
    decreases j
  {
    if i < j { KernelMore(ks, i, j - 1); }
    var a, b := KernelTables(ks, i), KernelTables(ks, j);
    assert b == a + (b - a);
  }

  function Interval(a: nat, b: nat): (r: set<nat>)
    requires a <= b
    ensures (forall x: nat :: x in r <==> a <= x < b) && |r| == b - a
    decreases b
  {
    if a == b then {} else Interval(a, b - 1) + {b - 1}
  }

  lemma TablesInterval(lo: nat, hi: nat)
    requires lo < hi
    ensures TablesOf(lo, hi) == Interval(lo / NENT, (hi - 1) / NENT + 1)
  {
    hide Interval;
    forall x: nat | lo / NENT <= x < (hi - 1) / NENT + 1 ensures x in TablesOf(lo, hi) {
      var v := if x == lo / NENT then lo else x * NENT;
      assert lo <= v < hi && v / NENT == x;
    }
  }

  lemma KernelFour(ks: seq<Range>)
    requires |ks| == 4
    ensures KernelTables(ks, 4) == TablesOf(ks[0].v, ks[0].v + ks[0].n) + TablesOf(ks[1].v, ks[1].v + ks[1].n)
                                   + TablesOf(ks[2].v, ks[2].v + ks[2].n) + TablesOf(ks[3].v, ks[3].v + ks[3].n)
  {
    hide TablesOf;
    assert KernelTables(ks, 1) == TablesOf(ks[0].v, ks[0].v + ks[0].n);
    assert KernelTables(ks, 2) == KernelTables(ks, 1) + TablesOf(ks[1].v, ks[1].v + ks[1].n);
    assert KernelTables(ks, 3) == KernelTables(ks, 2) + TablesOf(ks[2].v, ks[2].v + ks[2].n);
  }

  lemma Joined(a: nat, b: nat, c: nat, d: nat)
    requires a <= b <= d && a <= c <= b
    ensures Interval(a, b) + Interval(c, d) == Interval(a, d)
  {
    hide Interval;
  }

  /** The tables of the three ranges of memory. */
  lemma MemoryTables(k: nat)
    requires 0x100 < k < 0xE000
    ensures TablesOf(USER, USER + 0x100) + TablesOf(USER + 0x100, USER + k)
            + TablesOf(USER + k, USER + 0xE000) == Interval(512, 568)
  {
    hide TablesOf, Interval;
    var b, c := Splits(k);
    Joined(512, 513, 512, b);
    Joined(512, b, c, 568);
  }

  lemma Splits(k: nat) returns (b: nat, c: nat)
    requires 0x100 < k < 0xE000
    ensures 512 <= c <= b && 513 <= b <= 568
    ensures TablesOf(USER, USER + 0x100) == Interval(512, 513) && TablesOf(USER + 0x100, USER + k) == Interval(512, b)
    ensures TablesOf(USER + k, USER + 0xE000) == Interval(c, 568)
  {
    hide TablesOf, Interval;
    b, c := (USER + k - 1) / NENT + 1, (USER + k) / NENT;
    TablesInterval(USER, USER + 0x100);
    TablesInterval(USER + 0x100, USER + k);
    TablesInterval(USER + k, USER + 0xE000);
  }

  /** With the table kmap, setupkvm takes 65 frames: 56 page tables for memory, 8 for devices, the directory. */
  lemma KmapCost(k: nat)
    requires 0x100 < k < 0xE000
    ensures KernelCost(Kmap(k)) == 65
  {
    var ks := Kmap(k);
    hide Interval, TablesOf, KernelTables;
    KernelFour(ks);
    MemoryTables(k);
    TablesInterval(0xFE000, 0x100000);
    assert Interval(512, 568) !! Interval(1016, 1024);
  }
}
