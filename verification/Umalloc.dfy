/** The user-level allocator of umalloc.c. Addresses count units of one Header. */
module Umalloc {

  const NULL := 0

  datatype Header = Header(ptr: int, size: nat)

  type Mem = map<int, Header>

  // -------- The circular list --------

  /** b follows a on the circular list of the addresses F: the next higher one, or from the highest
      one the lowest. */
  predicate Follows(F: set<int>, a: int, b: int) {
    && b in F
    && if a < b then forall c: int :: c in F ==> !(a < c < b) else forall c: int :: c in F ==> b <= c <= a
  }

  /** Every list node is linked to the one that follows it. */
  predicate Linked(F: set<int>, mem: Mem) {
    && F <= mem.Keys
    && forall a: int {:trigger mem[a]} :: a in F ==> Follows(F, a, mem[a].ptr)
  }

  /** The nodes met walking from a (exclusive) up to and including b. */
  function Arc(F: set<int>, a: int, b: int): set<int> {
    set c: int | c in F && OnWay(a, b, c)
  }

  /** c comes after a and no later than b. */
  predicate OnWay(a: int, b: int, c: int) {
    if a < b then a < c <= b else c > a || c <= b
  }

  lemma WayStep(F: set<int>, a: int, n: int, b: int, c: int)
    requires Follows(F, a, n) && a in F && b in F && c in F
    ensures OnWay(a, b, n)
    ensures n != b ==> (OnWay(n, b, c) <==> OnWay(a, b, c) && c != n)
    ensures n == b ==> (OnWay(a, b, c) <==> c == b)
  {
  }

  /** Each step of the walk leaves one node fewer. */
  lemma ArcStep(F: set<int>, mem: Mem, a: int, b: int)
    requires Linked(F, mem) && a in F && b in F
    ensures mem[a].ptr in Arc(F, a, b)
    ensures mem[a].ptr != b ==> Arc(F, mem[a].ptr, b) == Arc(F, a, b) - {mem[a].ptr}
    ensures mem[a].ptr == b ==> Arc(F, a, b) == {b}
  {
    hide Linked, Follows, OnWay;
    NextNode(F, mem, a);
    forall c: int | c in F
      ensures OnWay(a, b, mem[a].ptr)
      ensures mem[a].ptr != b ==> (OnWay(mem[a].ptr, b, c) <==> OnWay(a, b, c) && c != mem[a].ptr)
      ensures mem[a].ptr == b ==> (OnWay(a, b, c) <==> c == b)
    {
      WayStep(F, a, mem[a].ptr, b, c);
    }
  }

  /** Both memories have the nodes F, linked alike except perhaps at p. */
  predicate SameLinks(F: set<int>, mem: Mem, mem': Mem, p: int) {
    && F <= mem.Keys && F <= mem'.Keys
    && forall a: int {:trigger mem'[a]} :: a in F && a != p ==> mem'[a].ptr == mem[a].ptr
  }

  lemma FollowsOne(F: set<int>, a: int, p: int, n: int)
    requires a in F && p in F && Follows(F, a, n) && Follows(F, p, n)
    ensures a == p
  {
  }

  /** n, between p and m, goes. */
  lemma FollowsRemove(F: set<int>, a: int, b: int, p: int, n: int, m: int)
    requires p in F && n in F && n != p && Follows(F, p, n) && Follows(F, n, m) && a in F && a != n && Follows(F, a, b)
    ensures Follows(F - {n}, a, if a == p then m else b)
  {
    if a != p && b == n { FollowsOne(F, a, p, n); }
  }

  /** x comes between p and n. */
  lemma FollowsInsert(F: set<int>, a: int, b: int, p: int, n: int, x: int)
    requires p in F && x !in F && p < x && Follows(F, p, n) && (x < n || n <= p) && a in F && Follows(F, a, b)
    ensures Follows(F + {x}, x, n) && Follows(F + {x}, a, if a == p then x else b)
  {
  }

  /** Taking the node after p off the list. */
  lemma LinkedRemove(F: set<int>, mem: Mem, mem': Mem, p: int)
    requires Linked(F, mem) && p in F && mem[p].ptr != p
    requires SameLinks(F - {mem[p].ptr}, mem, mem', p) && mem'[p].ptr == mem[mem[p].ptr].ptr
    ensures Linked(F - {mem[p].ptr}, mem')
  {
    var n := mem[p].ptr;
    assert n in F;
    hide Follows;
    forall a: int | a in F - {n} ensures Follows(F - {n}, a, mem'[a].ptr) {
      FollowsRemove(F, a, mem[a].ptr, p, n, mem[n].ptr);
    }
  }

  /** Putting node b on the list after p. */
  lemma LinkedInsert(F: set<int>, mem: Mem, mem': Mem, p: int, b: int)
    requires Linked(F, mem) && p in F && b !in F && p < b && (b < mem[p].ptr || mem[p].ptr <= p)
    requires SameLinks(F, mem, mem', p) && b in mem' && mem'[p].ptr == b && mem'[b].ptr == mem[p].ptr
    ensures Linked(F + {b}, mem')
  {
    hide Follows;
    forall a: int | a in F + {b} ensures Follows(F + {b}, a, mem'[a].ptr) {
      if a == b {
        FollowsInsert(F, p, mem[p].ptr, p, mem[p].ptr, b);
      } else {
        FollowsInsert(F, a, mem[a].ptr, p, mem[p].ptr, b);
      }
    }
  }

  // -------- The heap --------

  /** What the allocator holds: headers, the list (with the dummy node `base`), the blocks handed out
      with their sizes, and all units ever obtained from sbrk. */
  datatype Heap = Heap(mem: Mem, free: set<int>, out: map<int, nat>, units: set<int>)

  predicate InFree(h: Heap, x: int)
    requires h.free <= h.mem.Keys
  {
    exists a: int :: a in h.free && a <= x < a + h.mem[a].size
  }

  predicate InOut(h: Heap, x: int) {
    exists a: int :: a in h.out && a <= x < a + h.out[a]
  }

  /** The list is linked in address order from the dummy node up; its blocks neither overlap nor touch. */
  predicate FreeOk(base: int, h: Heap) {
    && base in h.free && Linked(h.free, h.mem) && h.mem[base].size == 0
    && (forall a: int :: a in h.free && a != base ==> base < a && h.mem[a].size >= 1)
    && forall a: int, b: int :: a in h.free && b in h.free && base < a < b ==> a + h.mem[a].size < b
  }

  /** Blocks handed out keep their headers and overlap neither each other nor free blocks. */
  predicate OutOk(base: int, h: Heap)
    requires h.free <= h.mem.Keys
  {
    OutHeaders(base, h) && OutsApart(h) && OutsNotFree(h)
  }

  predicate OutHeaders(base: int, h: Heap) {
    forall a: int :: a in h.out ==> base < a && a in h.mem && h.mem[a].size == h.out[a] >= 1
  }

  predicate OutsApart(h: Heap) {
    forall a: int, b: int :: a in h.out && b in h.out && a < b ==> a + h.out[a] <= b
  }

  predicate OutsNotFree(h: Heap)
    requires h.free <= h.mem.Keys
  {
    && (forall a: int, b: int :: a in h.out && b in h.free && a <= b ==> a + h.out[a] <= b)
    && (forall a: int, b: int :: a in h.out && b in h.free && b <= a ==> b + h.mem[b].size <= a)
  }

  /** Free and outstanding units are exactly the units obtained. */
  ghost predicate Conserved(h: Heap)
    requires h.free <= h.mem.Keys
  {
    forall x: int :: x in h.units <==> InFree(h, x) || InOut(h, x)
  }

  ghost predicate HeapOk(base: int, h: Heap) {
    FreeOk(base, h) && OutOk(base, h) && Conserved(h)
  }

  // -------- free --------

  /** bp belongs after p: the condition on which the loop of free stops (umalloc.c:30-32). */
  predicate Between(h: Heap, p: int, bp: int)
    requires h.free <= h.mem.Keys
  {
    p in h.free && p < bp && (bp < h.mem[p].ptr || h.mem[p].ptr <= p)
  }

  predicate JoinsUpper(h: Heap, p: int, bp: int)
    requires p in h.mem && bp in h.mem
  {
    bp + h.mem[bp].size == h.mem[p].ptr
  }

  predicate JoinsLower(h: Heap, p: int, bp: int)
    requires p in h.mem
  {
    p + h.mem[p].size == bp
  }

  /** umalloc.c:33-37 */
  function LinkUpper(h: Heap, p: int, bp: int): Mem
    requires p in h.mem && bp in h.mem && h.mem[p].ptr in h.mem
  {
    var n := h.mem[p].ptr;
    if JoinsUpper(h, p, bp) then h.mem[bp := Header(h.mem[n].ptr, h.mem[bp].size + h.mem[n].size)]
    else h.mem[bp := Header(n, h.mem[bp].size)]
  }

  /** umalloc.c:38-42 */
  function LinkLower(mem: Mem, p: int, bp: int): Mem
    requires p in mem && bp in mem
  {
    if p + mem[p].size == bp then mem[p := Header(mem[bp].ptr, mem[p].size + mem[bp].size)]
    else mem[p := Header(bp, mem[p].size)]
  }

  /** The list after free: bp in, unless it joined the lower block; the upper block out, if it joined. */
  function FreeSet(h: Heap, p: int, bp: int): set<int>
    requires p in h.mem && bp in h.mem
  {
    (if JoinsUpper(h, p, bp) then h.free - {h.mem[p].ptr} else h.free) + (if JoinsLower(h, p, bp) then {} else {bp})
  }

  function AfterFree(h: Heap, p: int, bp: int): Heap
    requires p in h.mem && bp in h.mem && h.mem[p].ptr in h.mem
  {
    Heap(LinkLower(LinkUpper(h, p, bp), p, bp), FreeSet(h, p, bp), h.out - {bp}, h.units)
  }

  ghost predicate CanFree(base: int, h: Heap, p: int, bp: int) {
    HeapOk(base, h) && bp in h.out && Between(h, p, bp)
  }

  /** A node and the one after it. */
  lemma NextNode(F: set<int>, mem: Mem, p: int)
    requires Linked(F, mem) && p in F
    ensures F <= mem.Keys && mem[p].ptr in F && Follows(F, p, mem[p].ptr)
  {
    hide Follows;
    assert Follows(F, p, mem[p].ptr);
    assert mem[p].ptr in F by { Member(F, p, mem[p].ptr); }
  }

  lemma Member(F: set<int>, a: int, b: int)
    requires Follows(F, a, b)
    ensures b in F
  {
  }

  /** No node lies strictly between p and its successor. */
  lemma Outside(F: set<int>, p: int, n: int, c: int)
    requires Follows(F, p, n) && c in F && c != p && c != n
    ensures c < p || n > p
    ensures c < p || c > n
    ensures n <= p ==> n < c < p
  {
  }

  /** Where p, bp and the block above lie. */
  lemma FreeBounds(base: int, h: Heap, p: int, bp: int)
    requires CanFree(base, h, p, bp)
    ensures p in h.mem && bp in h.mem && h.mem[p].ptr in h.free && h.mem[p].ptr in h.mem && bp !in h.free && base <= p
            && base <= h.mem[p].ptr
    ensures p + h.mem[p].size <= bp && (h.mem[p].ptr > p ==> bp + h.mem[bp].size <= h.mem[p].ptr)
    ensures h.mem[bp].size == h.out[bp] >= 1 && base < bp
    ensures JoinsUpper(h, p, bp) ==> h.mem[p].ptr > bp
  {
    hide Conserved, Linked, Follows;
    NextNode(h.free, h.mem, p);
  }

  /** The list stays linked, whichever neighbours bp joins. */
  lemma FreeLinked(base: int, h: Heap, p: int, bp: int)
    requires CanFree(base, h, p, bp)
    ensures p in h.mem && bp in h.mem && h.mem[p].ptr in h.mem
    ensures Linked(AfterFree(h, p, bp).free, AfterFree(h, p, bp).mem)
  {
    FreeBounds(base, h, p, bp);
    assert Linked(h.free, h.mem);
    hide HeapOk, FreeOk, OutOk;
    FreeRelinks(h, p, bp);
  }

  lemma FreeRelinks(h: Heap, p: int, bp: int)
    requires h.free <= h.mem.Keys && Linked(h.free, h.mem) && Between(h, p, bp) && bp in h.mem && bp !in h.free
             && h.mem[p].ptr in h.mem
    requires JoinsUpper(h, p, bp) ==> h.mem[p].ptr > bp
    ensures Linked(AfterFree(h, p, bp).free, AfterFree(h, p, bp).mem)
  {
    hide Follows, Linked;
    var n := h.mem[p].ptr;
    if JoinsUpper(h, p, bp) {
      AboveUpper(h, p, n);
      var mid := h.mem[p := Header(h.mem[n].ptr, h.mem[p].size)];
      SkipUpper(h.free, h.mem, p);
      FreeInto(h.free - {n}, mid, LinkUpper(h, p, bp), p, bp);
    } else {
      FreeInto(h.free, h.mem, LinkUpper(h, p, bp), p, bp);
    }
    assert FreeSet(h, p, bp) == (if JoinsUpper(h, p, bp) then h.free - {n} else h.free) || !JoinsLower(h, p, bp);
  }

  lemma SkipUpper(F: set<int>, mem: Mem, p: int)
    requires Linked(F, mem) && p in F && p in mem && mem[p].ptr in mem && mem[p].ptr != p
    ensures Linked(F - {mem[p].ptr}, mem[p := Header(mem[mem[p].ptr].ptr, mem[p].size)])
  {
    hide Follows;
    LinkedRemove(F, mem, mem[p := Header(mem[mem[p].ptr].ptr, mem[p].size)], p);
  }

  /** bp, already pointing at the node after p, is put on the list or joins p. */
  lemma FreeInto(F: set<int>, mem: Mem, up: Mem, p: int, bp: int)
    requires Linked(F, mem) && p in F && p in mem && bp !in F && p < bp && (bp < mem[p].ptr || mem[p].ptr <= p)
    requires SameLinks(F, mem, up, p) && bp in up && up[bp].ptr == mem[p].ptr
    ensures p + up[p].size != bp ==> Linked(F + {bp}, LinkLower(up, p, bp))
    ensures p + up[p].size == bp ==> Linked(F, LinkLower(up, p, bp))
  {
    hide Follows, Linked;
    if p + up[p].size == bp {
      LinkedSame(F, mem, LinkLower(up, p, bp));
    } else {
      LinkedInsert(F, mem, LinkLower(up, p, bp), p, bp);
    }
  }

  lemma AboveUpper(h: Heap, p: int, n: int)
    requires Linked(h.free, h.mem) && p in h.free && n == h.mem[p].ptr && p < n
    ensures n in h.free && (h.mem[n].ptr <= p || n < h.mem[n].ptr)
  {
    NextNode(h.free, h.mem, p);
    NextNode(h.free, h.mem, n);
    hide Linked;
  }

  lemma LinkedSame(F: set<int>, mem: Mem, mem': Mem)
    requires Linked(F, mem) && F <= mem'.Keys
    requires forall a: int {:trigger mem'[a]} :: a in F ==> mem'[a].ptr == mem[a].ptr
    ensures Linked(F, mem')
  {
    hide Follows;
  }

  /** The block that free leaves on the list: from its first unit up to the one after its last. */
  function Start(h: Heap, p: int, bp: int): int
    requires p in h.mem
  {
    if JoinsLower(h, p, bp) then p else bp
  }

  function End(h: Heap, p: int, bp: int): int
    requires p in h.mem && bp in h.mem && h.mem[p].ptr in h.mem
  {
    if JoinsUpper(h, p, bp) then h.mem[p].ptr + h.mem[h.mem[p].ptr].size else bp + h.mem[bp].size
  }

  /** The block [s, e) lies apart from the free block c and does not touch it. */
  predicate Apart(h: Heap, s: int, e: int, c: int)
    requires c in h.mem
  {
    (c < s ==> c + h.mem[c].size < s) && (c > s ==> e < c)
  }

  /** The other free blocks after free are old ones, and lie apart from the block made. */
  lemma FreeApart(base: int, h: Heap, p: int, bp: int, c: int)
    requires CanFree(base, h, p, bp)
    requires p in h.mem && bp in h.mem && h.mem[p].ptr in h.mem
    requires c in FreeSet(h, p, bp) && c != Start(h, p, bp)
    ensures c in h.free && c in h.mem && c != bp
    ensures Apart(h, Start(h, p, bp), End(h, p, bp), c)
    ensures JoinsUpper(h, p, bp) ==> c != h.mem[p].ptr
    ensures JoinsLower(h, p, bp) ==> c != p
  {
    hide Conserved, Linked, Follows;
    FreeBounds(base, h, p, bp);
    NextNode(h.free, h.mem, p);
    var n := h.mem[p].ptr;
    if c != p && c != n { Outside(h.free, p, n, c); }
  }

  lemma FreeSizes(base: int, h: Heap, p: int, bp: int)
    requires CanFree(base, h, p, bp)
    ensures p in h.mem && bp in h.mem && h.mem[p].ptr in h.mem
    ensures var r, s, e := AfterFree(h, p, bp), Start(h, p, bp), End(h, p, bp);
      && base < s <= bp < bp + h.mem[bp].size <= e && s in r.free && s in r.mem && r.mem[s].size == e - s
      && forall a: int {:trigger r.mem[a]} :: a in h.mem && a != s && a != bp ==>
         a in r.mem && r.mem[a].size == h.mem[a].size
  {
    hide Conserved, Linked, Follows;
    FreeBounds(base, h, p, bp);
  }

  lemma FreeKeepsFree(base: int, h: Heap, p: int, bp: int)
    requires CanFree(base, h, p, bp)
    ensures p in h.mem && bp in h.mem && h.mem[p].ptr in h.mem
    ensures FreeOk(base, AfterFree(h, p, bp))
  {
    hide Linked;
    FreeSizes(base, h, p, bp);
    FreeLinked(base, h, p, bp);
    var r, s, e := AfterFree(h, p, bp), Start(h, p, bp), End(h, p, bp);
    forall c: int | c in r.free && c != s ensures c in h.free && c in h.mem && c != bp && Apart(h, s, e, c) {
      FreeApart(base, h, p, bp, c);
    }
    hide AfterFree, Start, End, Conserved, OutOk;
    BaseStays(base, h, p, bp);
  }

  lemma BaseStays(base: int, h: Heap, p: int, bp: int)
    requires CanFree(base, h, p, bp)
    ensures p in h.mem && bp in h.mem && h.mem[p].ptr in h.mem
    ensures base in AfterFree(h, p, bp).free
  {
    hide Linked;
    FreeBounds(base, h, p, bp);
  }

  lemma FreeKeepsHeaders(base: int, h: Heap, p: int, bp: int)
    requires CanFree(base, h, p, bp) && p in h.mem && bp in h.mem && h.mem[p].ptr in h.mem
    ensures OutHeaders(base, AfterFree(h, p, bp)) && OutsApart(AfterFree(h, p, bp))
  {
    hide Linked, Conserved, FreeOk;
    FreeBounds(base, h, p, bp);
    FreeSizes(base, h, p, bp);
    assert p !in h.out;
    hide OutsNotFree;
  }

  lemma FreeKeepsNotFree(base: int, h: Heap, p: int, bp: int)
    requires CanFree(base, h, p, bp) && p in h.mem && bp in h.mem && h.mem[p].ptr in h.mem
    ensures AfterFree(h, p, bp).free <= AfterFree(h, p, bp).mem.Keys
    ensures OutsNotFree(AfterFree(h, p, bp))
  {
    hide Linked, Conserved, FreeOk;
    FreeBounds(base, h, p, bp);
    FreeSizes(base, h, p, bp);
    var r, s, e := AfterFree(h, p, bp), Start(h, p, bp), End(h, p, bp);
    forall c: int | c in r.free && c != s ensures c in h.free && c in h.mem && c != bp && c in r.mem {
      FreeApart(base, h, p, bp, c);
    }
    forall a: int | a in r.out
      ensures a in h.out && a != bp && a != s && (a <= s ==> a + h.out[a] <= s) && (s <= a ==> e <= a) {
    }
    hide AfterFree, Start, End, OutsApart, OutHeaders;
  }

  lemma FreeKeepsOut(base: int, h: Heap, p: int, bp: int)
    requires CanFree(base, h, p, bp)
    ensures p in h.mem && bp in h.mem && h.mem[p].ptr in h.mem
    ensures AfterFree(h, p, bp).free <= AfterFree(h, p, bp).mem.Keys
    ensures OutOk(base, AfterFree(h, p, bp))
  {
    hide CanFree, OutHeaders, OutsApart, OutsNotFree;
    FreeBounds(base, h, p, bp);
    FreeKeepsHeaders(base, h, p, bp);
    FreeKeepsNotFree(base, h, p, bp);
  }

  /** Every unit of the free blocks after free was free, or of the block given back. */
  lemma FreeUnitsFrom(base: int, h: Heap, p: int, bp: int, a: int, x: int)
    requires CanFree(base, h, p, bp) && p in h.mem && bp in h.mem && h.mem[p].ptr in h.mem && h.free <= h.mem.Keys
    requires var r := AfterFree(h, p, bp); a in r.free && a in r.mem && a <= x < a + r.mem[a].size
    ensures InFree(h, x) || bp <= x < bp + h.mem[bp].size
  {
    hide Linked, Conserved, OutOk, FreeOk;
    FreeBounds(base, h, p, bp);
    FreeSizes(base, h, p, bp);
    if a != Start(h, p, bp) {
      FreeApart(base, h, p, bp, a);
      hide AfterFree;
      assert a in h.free;
    } else if x < bp {
      assert p in h.free;
    } else if x >= bp + h.mem[bp].size {
      assert h.mem[p].ptr in h.free;
    }
  }

  /** Every unit of a free block, and every one of the block given back, is free after. */
  lemma FreeUnitsInto(base: int, h: Heap, p: int, bp: int, a: int, x: int)
    requires CanFree(base, h, p, bp) && p in h.mem && bp in h.mem && h.mem[p].ptr in h.mem
    requires (a in h.free || a == bp) && a in h.mem && a <= x < a + h.mem[a].size
    requires AfterFree(h, p, bp).free <= AfterFree(h, p, bp).mem.Keys
    ensures InFree(AfterFree(h, p, bp), x)
  {
    hide Linked, Conserved, OutOk, FreeOk;
    FreeBounds(base, h, p, bp);
    FreeSizes(base, h, p, bp);
    var r, s := AfterFree(h, p, bp), Start(h, p, bp);
    if a in r.free && a != s { assert r.mem[a].size == h.mem[a].size; } else { assert s in r.free; }
  }

  /** Giving back a block moves exactly its units. */
  lemma FreeUnits(base: int, h: Heap, p: int, bp: int, x: int)
    requires CanFree(base, h, p, bp) && h.free <= h.mem.Keys
    ensures p in h.mem && bp in h.mem && h.mem[p].ptr in h.mem
    ensures AfterFree(h, p, bp).free <= AfterFree(h, p, bp).mem.Keys
    ensures InFree(AfterFree(h, p, bp), x) <==> InFree(h, x) || bp <= x < bp + h.mem[bp].size
  {
    hide Linked, Conserved, OutOk, FreeOk;
    FreeBounds(base, h, p, bp);
    FreeKeepsOut(base, h, p, bp);
    hide AfterFree;
    var r := AfterFree(h, p, bp);
    if InFree(r, x) {
      var a: int :| a in r.free && a <= x < a + r.mem[a].size;
      FreeUnitsFrom(base, h, p, bp, a, x);
    }
    if bp <= x < bp + h.mem[bp].size { FreeUnitsInto(base, h, p, bp, bp, x); }
    if InFree(h, x) {
      var a: int :| a in h.free && a <= x < a + h.mem[a].size;
      FreeUnitsInto(base, h, p, bp, a, x);
    }
  }

  /** umalloc.c:24-44 keeps the heap in order and loses no unit. */
  lemma FreeKeeps(base: int, h: Heap, p: int, bp: int)
    requires CanFree(base, h, p, bp)
    ensures p in h.mem && bp in h.mem && h.mem[p].ptr in h.mem
    ensures HeapOk(base, AfterFree(h, p, bp))
  {
    hide OutOk, InFree, InOut, Follows;
    FreeBounds(base, h, p, bp);
    FreeKeepsFree(base, h, p, bp);
    FreeKeepsOut(base, h, p, bp);
    assert h.free <= h.mem.Keys;
    hide Linked, FreeOk;
    var r := AfterFree(h, p, bp);
    assert r.units == h.units && r.out == h.out - {bp};
    hide AfterFree;
    forall x: int ensures x in r.units <==> InFree(r, x) || InOut(r, x) {
      FreeUnits(base, h, p, bp, x);
      OutWithout(base, h, r, bp, x);
    }
  }

  lemma OutWithout(base: int, h: Heap, r: Heap, bp: int, x: int)
    requires h.free <= h.mem.Keys && OutOk(base, h) && bp in h.out && r.out == h.out - {bp}
    ensures InOut(h, x) <==> InOut(r, x) || bp <= x < bp + h.out[bp]
  {
    hide OutOk;
    if InOut(h, x) {
      var a: int :| a in h.out && a <= x < a + h.out[a];
      if a != bp { assert a in r.out; }
    }
  }

  // -------- malloc: taking a block --------

  /** The block after prevp is big enough. */
  ghost predicate CanTake(base: int, h: Heap, prevp: int, n: nat) {
    && HeapOk(base, h) && prevp in h.free && h.mem[prevp].ptr in h.mem
    && 1 <= n <= h.mem[h.mem[prevp].ptr].size
  }

  /** The address taken: the whole block, or the tail of it. */
  function TakeAt(h: Heap, prevp: int, n: nat): int
    requires prevp in h.mem && h.mem[prevp].ptr in h.mem
  {
    h.mem[prevp].ptr + h.mem[h.mem[prevp].ptr].size - n
  }

  /** umalloc.c:75-85. The pointer field of a block handed out means nothing. */
  function AfterTake(h: Heap, prevp: int, n: nat): Heap
    requires prevp in h.mem && h.mem[prevp].ptr in h.mem && n <= h.mem[h.mem[prevp].ptr].size
  {
    if h.mem[h.mem[prevp].ptr].size == n then TakeWhole(h, prevp, n) else TakeTail(h, prevp, n)
  }

  function TakeWhole(h: Heap, prevp: int, n: nat): Heap
    requires prevp in h.mem && h.mem[prevp].ptr in h.mem
  {
    var p := h.mem[prevp].ptr;
    Heap(h.mem[prevp := Header(h.mem[p].ptr, h.mem[prevp].size)], h.free - {p}, h.out[TakeAt(h, prevp, n) := n],
        h.units)
  }

  function TakeTail(h: Heap, prevp: int, n: nat): Heap
    requires prevp in h.mem && h.mem[prevp].ptr in h.mem && n <= h.mem[h.mem[prevp].ptr].size
  {
    var p, q := h.mem[prevp].ptr, TakeAt(h, prevp, n);
    Heap(h.mem[p := Header(h.mem[p].ptr, h.mem[p].size - n)][q := Header(NULL, n)], h.free, h.out[q := n], h.units)
  }

  lemma TakeBounds(base: int, h: Heap, prevp: int, n: nat)
    requires CanTake(base, h, prevp, n)
    ensures h.free <= h.mem.Keys && base in h.free && base <= prevp && Linked(h.free, h.mem)
    ensures var p := h.mem[prevp].ptr; p in h.free && base < p && p != prevp
  {
    hide Conserved, OutOk, Linked;
    NextNode(h.free, h.mem, prevp);
  }

  /** No block starts inside a free one. */
  lemma TakeFresh(base: int, h: Heap, prevp: int, n: nat)
    requires CanTake(base, h, prevp, n)
    ensures prevp in h.mem
    ensures TakeAt(h, prevp, n) !in h.out && (TakeAt(h, prevp, n) in h.free ==> TakeAt(h, prevp, n) == h.mem[prevp].ptr)
  {
    hide Conserved, Linked;
    TakeBounds(base, h, prevp, n);
  }

  lemma TakeLinked(base: int, h: Heap, prevp: int, n: nat)
    requires CanTake(base, h, prevp, n)
    ensures prevp in h.mem
    ensures Linked(AfterTake(h, prevp, n).free, AfterTake(h, prevp, n).mem)
  {
    hide Follows, FreeOk, OutOk, Linked, Conserved;
    TakeBounds(base, h, prevp, n);
    TakeFresh(base, h, prevp, n);
    hide CanTake;
    var p := h.mem[prevp].ptr;
    if h.mem[p].size == n {
      SkipUpper(h.free, h.mem, prevp);
    } else {
      Resized(h.free, h.mem, p, h.mem[p].size - n);
      Elsewhere(h.free, h.mem[p := Header(h.mem[p].ptr, h.mem[p].size - n)], TakeAt(h, prevp, n), Header(NULL, n));
    }
  }

  lemma Resized(F: set<int>, mem: Mem, p: int, k: nat)
    requires Linked(F, mem) && p in mem
    ensures Linked(F, mem[p := Header(mem[p].ptr, k)])
  {
    hide Follows;
  }

  lemma Elsewhere(F: set<int>, mem: Mem, q: int, hdr: Header)
    requires Linked(F, mem) && q !in F
    ensures Linked(F, mem[q := hdr])
  {
    hide Follows;
  }

  /** Headers after the block is taken. */
  lemma TakeSizes(base: int, h: Heap, prevp: int, n: nat)
    requires CanTake(base, h, prevp, n)
    ensures prevp in h.mem
    ensures var r, p, q := AfterTake(h, prevp, n), h.mem[prevp].ptr, TakeAt(h, prevp, n);
      && r.free <= r.mem.Keys && q in r.mem && r.mem[q].size == n && q !in r.free
      && (p in r.free ==> r.mem[p].size == q - p > 0)
      && forall a: int {:trigger r.mem[a]} :: a in h.mem && a != p && a != q ==>
         a in r.mem && r.mem[a].size == h.mem[a].size
  {
    hide CanTake, Linked;
    TakeBounds(base, h, prevp, n);
    TakeFresh(base, h, prevp, n);
  }

  lemma TakeKeepsFree(base: int, h: Heap, prevp: int, n: nat)
    requires CanTake(base, h, prevp, n)
    ensures prevp in h.mem
    ensures FreeOk(base, AfterTake(h, prevp, n))
  {
    hide Linked, OutOk, Conserved;
    TakeBounds(base, h, prevp, n);
    TakeLinked(base, h, prevp, n);
    TakeSizes(base, h, prevp, n);
    TakeFresh(base, h, prevp, n);
    var r, p, q := AfterTake(h, prevp, n), h.mem[prevp].ptr, TakeAt(h, prevp, n);
    assert base in r.free && r.free <= h.free;
    hide AfterTake;
  }

  lemma TakeKeepsHeaders(base: int, h: Heap, prevp: int, n: nat)
    requires CanTake(base, h, prevp, n) && prevp in h.mem
    ensures OutHeaders(base, AfterTake(h, prevp, n))
  {
    hide Linked, Conserved, OutsApart;
    TakeBounds(base, h, prevp, n);
    TakeSizes(base, h, prevp, n);
    TakeFresh(base, h, prevp, n);
    var r, p, q := AfterTake(h, prevp, n), h.mem[prevp].ptr, TakeAt(h, prevp, n);
    assert r.out == h.out[q := n] && p !in h.out;
    hide AfterTake;
  }

  lemma TakeKeepsApart(base: int, h: Heap, prevp: int, n: nat)
    requires CanTake(base, h, prevp, n) && prevp in h.mem
    ensures OutsApart(AfterTake(h, prevp, n))
  {
    hide Linked, Conserved, FreeOk;
    TakeBounds(base, h, prevp, n);
    var r, q := AfterTake(h, prevp, n), TakeAt(h, prevp, n);
    assert r.out == h.out[q := n];
    hide AfterTake;
  }

  lemma TakeKeepsNotFree(base: int, h: Heap, prevp: int, n: nat)
    requires CanTake(base, h, prevp, n) && prevp in h.mem
             && AfterTake(h, prevp, n).free <= AfterTake(h, prevp, n).mem.Keys
    ensures OutsNotFree(AfterTake(h, prevp, n))
  {
    hide Linked, Conserved, OutsApart, OutHeaders;
    TakeBounds(base, h, prevp, n);
    TakeSizes(base, h, prevp, n);
    TakeFresh(base, h, prevp, n);
    var r, p, q := AfterTake(h, prevp, n), h.mem[prevp].ptr, TakeAt(h, prevp, n);
    assert r.free <= h.free && r.out == h.out[q := n];
    hide AfterTake;
  }

  lemma TakeKeepsOut(base: int, h: Heap, prevp: int, n: nat)
    requires CanTake(base, h, prevp, n)
    ensures prevp in h.mem
    ensures AfterTake(h, prevp, n).free <= AfterTake(h, prevp, n).mem.Keys
    ensures OutOk(base, AfterTake(h, prevp, n))
  {
    hide CanTake, OutHeaders, OutsApart, OutsNotFree;
    TakeSizes(base, h, prevp, n);
    TakeKeepsHeaders(base, h, prevp, n);
    TakeKeepsApart(base, h, prevp, n);
    TakeKeepsNotFree(base, h, prevp, n);
  }

  lemma TakeUnitsInto(base: int, h: Heap, prevp: int, n: nat, a: int, x: int)
    requires CanTake(base, h, prevp, n) && prevp in h.mem && h.free <= h.mem.Keys && a in h.free
             && a <= x < a + h.mem[a].size
    requires AfterTake(h, prevp, n).free <= AfterTake(h, prevp, n).mem.Keys
    ensures InFree(AfterTake(h, prevp, n), x) || TakeAt(h, prevp, n) <= x < TakeAt(h, prevp, n) + n
  {
    hide FreeOk, OutOk, Linked, Conserved;
    TakeBounds(base, h, prevp, n);
    TakeSizes(base, h, prevp, n);
    TakeFresh(base, h, prevp, n);
    var p, q := h.mem[prevp].ptr, TakeAt(h, prevp, n);
    if a != p || x < q { assert a in AfterTake(h, prevp, n).free; }
  }

  lemma TakeUnitsFrom(base: int, h: Heap, prevp: int, n: nat, a: int, x: int)
    requires CanTake(base, h, prevp, n) && prevp in h.mem && h.free <= h.mem.Keys
    requires var r := AfterTake(h, prevp, n); a in r.free && a in r.mem && a <= x < a + r.mem[a].size
    ensures InFree(h, x)
  {
    hide FreeOk, OutOk, Linked, Conserved;
    TakeBounds(base, h, prevp, n);
    TakeSizes(base, h, prevp, n);
    assert a in h.free;
  }

  lemma TakeUnits(base: int, h: Heap, prevp: int, n: nat, x: int)
    requires CanTake(base, h, prevp, n) && prevp in h.mem && h.free <= h.mem.Keys
    ensures AfterTake(h, prevp, n).free <= AfterTake(h, prevp, n).mem.Keys
    ensures InFree(h, x) <==> InFree(AfterTake(h, prevp, n), x) || TakeAt(h, prevp, n) <= x < TakeAt(h, prevp, n) + n
  {
    hide FreeOk, OutOk, Linked, Conserved;
    TakeBounds(base, h, prevp, n);
    TakeSizes(base, h, prevp, n);
    var r, p, q := AfterTake(h, prevp, n), h.mem[prevp].ptr, TakeAt(h, prevp, n);
    if q <= x < q + n { assert p in h.free; }
    hide AfterTake, TakeAt;
    if InFree(h, x) {
      var a: int :| a in h.free && a <= x < a + h.mem[a].size;
      TakeUnitsInto(base, h, prevp, n, a, x);
    }
    if InFree(r, x) {
      var a: int :| a in r.free && a <= x < a + r.mem[a].size;
      TakeUnitsFrom(base, h, prevp, n, a, x);
    }
  }

  /** Taking a block keeps the heap in order and loses no unit. */
  lemma TakeKeeps(base: int, h: Heap, prevp: int, n: nat)
    requires CanTake(base, h, prevp, n)
    ensures prevp in h.mem
    ensures HeapOk(base, AfterTake(h, prevp, n))
  {
    hide OutOk, InFree, InOut, Linked;
    TakeBounds(base, h, prevp, n);
    TakeFresh(base, h, prevp, n);
    TakeKeepsFree(base, h, prevp, n);
    TakeKeepsOut(base, h, prevp, n);
    hide FreeOk;
    var r, q := AfterTake(h, prevp, n), TakeAt(h, prevp, n);
    assert r.units == h.units && r.out == h.out[q := n];
    hide AfterTake, TakeAt;
    forall x: int ensures x in r.units <==> InFree(r, x) || InOut(r, x) {
      TakeUnits(base, h, prevp, n, x);
      OutWith(h, r, q, n, x);
    }
  }

  /** The n units from q on are the end of a free block, which keeps its place and the rest of its units; all other
      free blocks are as they were. */
  ghost predicate CutOff(h: Heap, r: Heap, q: int, n: nat) {
    && h.free <= h.mem.Keys && r.free == h.free - {q} && r.free <= r.mem.Keys
    && exists a: int :: a in h.free && a + h.mem[a].size == q + n && (a in r.free <==> h.mem[a].size != n)
         && forall c: int :: c in r.free ==> r.mem[c].size == h.mem[c].size - if c == a then n else 0
  }

  lemma TakeCutsOff(base: int, h: Heap, prevp: int, n: nat)
    requires CanTake(base, h, prevp, n)
    ensures prevp in h.mem && CutOff(h, AfterTake(h, prevp, n), TakeAt(h, prevp, n), n)
  {
    hide Linked, OutOk, Conserved;
    TakeBounds(base, h, prevp, n);
    TakeFresh(base, h, prevp, n);
    TakeSizes(base, h, prevp, n);
    var p, r := h.mem[prevp].ptr, AfterTake(h, prevp, n);
    assert p in h.free && p + h.mem[p].size == TakeAt(h, prevp, n) + n;
  }

  lemma OutWith(h: Heap, r: Heap, q: int, n: nat, x: int)
    requires q !in h.out && r.out == h.out[q := n]
    ensures InOut(r, x) <==> InOut(h, x) || q <= x < q + n
  {
    if InOut(h, x) {
      var a: int :| a in h.out && a <= x < a + h.out[a];
      assert a in r.out;
    }
    if q <= x < q + n { assert q in r.out; }
  }

  // -------- morecore: growing the heap --------

  /** The n units from a on. */
  function Range(a: int, n: nat): (r: set<int>)
    ensures forall x: int :: x in r <==> a <= x < a + n
  {
    if n == 0 then {} else Range(a, n - 1) + {a + n - 1}
  }

  /** Memory that sbrk may return: above the dummy node and not obtained before. */
  predicate Unused(base: int, h: Heap, a: int, n: nat) {
    base < a && Range(a, n) !! h.units
  }

  /** The new region counts as handed out until morecore frees it. */
  function AfterSbrk(h: Heap, a: int, n: nat): Heap {
    Heap(h.mem[a := Header(NULL, n)], h.free, h.out[a := n], h.units + Range(a, n))
  }

  lemma SbrkApart(base: int, h: Heap, a: int, n: nat, b: int)
    requires HeapOk(base, h) && n >= 1 && Unused(base, h, a, n) && h.free <= h.mem.Keys && (b in h.free || b in h.out)
    ensures b in h.mem && b != a && (a <= b ==> a + n <= b) && (b <= a ==> b + h.mem[b].size <= a)
  {
    hide Linked;
    if b != base {
      UnitOf(base, h, b, b);
      if b < a < b + h.mem[b].size { UnitOf(base, h, b, a); }
    }
  }

  lemma UnitOf(base: int, h: Heap, b: int, x: int)
    requires HeapOk(base, h) && h.free <= h.mem.Keys && (b in h.free || b in h.out) && b in h.mem
             && b <= x < b + h.mem[b].size
    ensures x in h.units
  {
    hide Linked;
    assert InFree(h, x) || InOut(h, x);
  }

  /** The region from sbrk lies apart from every block. */
  ghost predicate Beyond(h: Heap, a: int, n: nat) {
    forall b: int :: b in h.free || b in h.out ==>
      b in h.mem && b != a && (a <= b ==> a + n <= b) && (b <= a ==> b + h.mem[b].size <= a)
  }

  lemma SbrkBeyond(base: int, h: Heap, a: int, n: nat)
    requires HeapOk(base, h) && n >= 1 && Unused(base, h, a, n)
    ensures Beyond(h, a, n) && base < a
  {
    hide Linked, OutOk, Conserved, FreeOk;
    Domain(base, h);
    forall b: int | b in h.free || b in h.out
      ensures b in h.mem && b != a && (a <= b ==> a + n <= b) && (b <= a ==> b + h.mem[b].size <= a) {
      SbrkApart(base, h, a, n, b);
    }
  }

  lemma SbrkKeepsFree(base: int, h: Heap, a: int, n: nat)
    requires FreeOk(base, h) && Beyond(h, a, n)
    ensures FreeOk(base, AfterSbrk(h, a, n))
  {
    hide Linked;
    Elsewhere(h.free, h.mem, a, Header(NULL, n));
  }

  lemma SbrkKeepsOut(base: int, h: Heap, a: int, n: nat)
    requires h.free <= h.mem.Keys && OutOk(base, h) && base < a && n >= 1 && Beyond(h, a, n)
    ensures OutOk(base, AfterSbrk(h, a, n))
  {
  }

  /** Memory from sbrk extends the heap by exactly its units. */
  lemma SbrkKeeps(base: int, h: Heap, a: int, n: nat)
    requires HeapOk(base, h) && n >= 1 && Unused(base, h, a, n)
    ensures HeapOk(base, AfterSbrk(h, a, n)) && a !in h.out
  {
    hide Linked, OutOk, InFree, InOut, Unused, FreeOk;
    Domain(base, h);
    SbrkBeyond(base, h, a, n);
    SbrkKeepsFree(base, h, a, n);
    SbrkKeepsOut(base, h, a, n);
    var r := AfterSbrk(h, a, n);
    forall x: int ensures x in r.units <==> InFree(r, x) || InOut(r, x) {
      OutWith(h, r, a, n, x);
      SameFree(h, r, x);
    }
  }

  lemma Domain(base: int, h: Heap)
    requires FreeOk(base, h)
    ensures h.free <= h.mem.Keys && base in h.free
  {
  }

  lemma SameFree(h: Heap, r: Heap, x: int)
    requires h.free <= h.mem.Keys && r.free == h.free && r.free <= r.mem.Keys
    requires forall b: int {:trigger r.mem[b]} :: b in h.free ==> r.mem[b].size == h.mem[b].size
    ensures InFree(r, x) <==> InFree(h, x)
  {
    if InFree(h, x) {
      var a: int :| a in h.free && a <= x < a + h.mem[a].size;
      assert r.mem[a].size == h.mem[a].size;
    }
  }

  // -------- What callers may rely on --------

  const UINT := 0x1_0000_0000

  /** umalloc.c:69, in 32-bit unsigned arithmetic; a header is 8 bytes. */
  function Units(nbytes: nat): nat {
    (nbytes + 8 - 1) % UINT / 8 + 1
  }

  /** The units hold nbytes beside the header exactly when the rounding does not wrap around. */
  lemma UnitsSuffice(nbytes: nat)
    requires nbytes < UINT
    ensures 8 * (Units(nbytes) - 1) >= nbytes <==> nbytes <= UINT - 8
    ensures 1 <= Units(nbytes) && (nbytes <= UINT - 8 ==> 8 * (Units(nbytes) - 1) < nbytes + 8)
    ensures nbytes > UINT - 8 ==> Units(nbytes) == 1
  {
    if nbytes <= UINT - 8 {
      assert (nbytes + 7) % UINT == nbytes + 7;
    } else {
      assert (nbytes + 7) % UINT == nbytes + 7 - UINT;
    }
  }

  /** The units morecore asks for (umalloc.c:52-53). */
  function Request(nu: nat): (n: nat)
    ensures n >= nu && n >= 4096 && (n == nu || n == 4096)
  {
    if nu < 4096 then 4096 else nu
  }

  /** A 32-bit word as an int. */
  function Signed(w: nat): int
    requires w < UINT
  {
    if w < UINT / 2 then w else w - UINT
  }

  /** sbrk's argument (umalloc.c:54): the product of unsigned ints, which the kernel reads as an int. */
  function SbrkArg(nu: nat): int {
    Signed(Request(nu) * 8 % UINT)
  }

  /** The units by which sbrk then extends the process: none for 0, and a negative number takes memory away. */
  function Granted(nu: nat): nat {
    if SbrkArg(nu) <= 0 then 0 else SbrkArg(nu) / 8
  }

  /** sbrk is asked for what morecore goes on to use exactly below 2^28 units. */
  lemma GrantedAll(nu: nat)
    requires nu <= UINT / 8
    ensures Granted(nu) == Request(nu) <==> nu < UINT / 16
    ensures UINT / 16 <= nu < UINT / 8 ==> SbrkArg(nu) < 0
    ensures nu == UINT / 8 ==> SbrkArg(nu) == 0
  {
    if nu < UINT / 8 { assert Request(nu) * 8 % UINT == Request(nu) * 8; }
  }

  /** malloc can be relied on exactly up to 2^31-16 bytes: beyond that either sbrk is not asked for the
      units of the block, so that on a full list the process shrinks or does not grow, or, in the last seven
      cases, the block has one unit. */
  lemma MallocLimit(nbytes: nat)
    requires nbytes < UINT
    ensures Granted(Units(nbytes)) == Request(Units(nbytes)) && 8 * (Units(nbytes) - 1) >= nbytes <==>
              nbytes <= UINT / 2 - 16
    ensures UINT / 2 - 16 < nbytes <= UINT - 16 ==> SbrkArg(Units(nbytes)) < 0
    ensures UINT - 16 < nbytes <= UINT - 8 ==> SbrkArg(Units(nbytes)) == 0
    ensures UINT - 8 < nbytes ==> Units(nbytes) == 1
  {
    UnitsSuffice(nbytes);
    GrantedAll(Units(nbytes));
  }

  /** A caller that writes only behind the headers of its own blocks cannot disturb the heap. */
  lemma PayloadSafe(base: int, h: Heap, mem': Mem)
    requires HeapOk(base, h) && h.mem.Keys <= mem'.Keys
    requires forall x: int {:trigger mem'[x]} :: x in h.mem && !Payload(h, x) ==> mem'[x] == h.mem[x]
    ensures HeapOk(base, h.(mem := mem'))
  {
    hide Linked;
    var r := h.(mem := mem');
    assert h.free <= h.mem.Keys by { Domain(base, h); }
    forall b: int | b in h.free || b in h.out ensures b in h.mem && mem'[b] == h.mem[b] {
      HeadersApart(base, h, b);
    }
    LinkedSame(h.free, h.mem, mem');
    forall x: int ensures x in r.units <==> InFree(r, x) || InOut(r, x) {
      SameFree(h, r, x);
    }
  }

  /** A unit of a block handed out, other than its header. */
  predicate Payload(h: Heap, x: int) {
    exists a: int :: a in h.out && a < x < a + h.out[a]
  }

  lemma HeadersApart(base: int, h: Heap, b: int)
    requires HeapOk(base, h) && (b in h.free || b in h.out)
    ensures b in h.mem && !Payload(h, b)
  {
    hide Linked;
    assert h.free <= h.mem.Keys by { Domain(base, h); }
  }

  /** The last node below x: where free will stop. */
  lemma {:induction false} LastBelow(F: set<int>, base: int, x: int) returns (t: int)
    requires base in F && base < x
    ensures t in F && t < x && forall c: int :: c in F && c < x ==> c <= t
  {
    if c: int :| c in F && base < c < x {
      t := LastBelow(F - {base}, c, x);
      assert base < c <= t;
      forall d: int | d in F && d < x ensures d <= t {
        if d != base { assert d in F - {base}; }
      }
    } else {
      t := base;
    }
  }

  lemma StopsThere(base: int, h: Heap, t: int, bp: int)
    requires FreeOk(base, h) && h.free <= h.mem.Keys && bp !in h.free
    requires t in h.free && t < bp && forall c: int :: c in h.free && c < bp ==> c <= t
    ensures Between(h, t, bp)
  {
    hide Linked;
    NextNode(h.free, h.mem, t);
  }

  lemma NotOnList(base: int, h: Heap, bp: int)
    requires HeapOk(base, h) && bp in h.out
    ensures base in h.free && h.free <= h.mem.Keys && bp !in h.free && base < bp && bp in h.mem
  {
    hide Linked;
    Domain(base, h);
  }

  // -------- The allocator --------

  datatype Answer = Failed | Region(at: int)

  class Allocator {
    const base: int
    var mem: Mem
    var freep: int
    ghost var free: set<int>
    ghost var out: map<int, nat>
    ghost var units: set<int>

    ghost function State(): Heap
      reads this
    {
      Heap(mem, free, out, units)
    }

    ghost predicate Valid()
      reads this
    {
      && NULL < base
      && if freep == NULL then out == map[] && units == {} && free == {} else freep in free && HeapOk(base, State())
    }

    constructor (at: int)
      requires NULL < at
      ensures Valid() && freep == NULL && base == at
    {
      base, mem, freep := at, map[], NULL;
      free, out, units := {}, map[], {};
    }

    /** umalloc.c:29-32: the node that bp belongs after. */
    method FindPlace(bp: int) returns (p: int)
      requires Valid() && bp in out
      ensures freep != NULL && CanFree(base, State(), p, bp)
    {
      hide HeapOk, Linked;
      ghost var h := State();
      NotOnList(base, h, bp);
      ghost var t := LastBelow(free, base, bp);
      assert FreeOk(base, h) && Linked(free, mem) by { Parts(base, h); }
      StopsThere(base, h, t, bp);
      p := freep;
      NextNode(free, mem, p);
      while !(bp > p && bp < mem[p].ptr)
        invariant p in free && mem[p].ptr in free
        decreases if p == t then {} else Arc(free, p, t)
      {
        NextNode(free, mem, p);
        if p >= mem[p].ptr && (bp > p || bp < mem[p].ptr) {
          WrapsAtBase(base, h, p);
          break;
        }
        ArcStep(free, mem, p, t);
        NextNode(free, mem, mem[p].ptr);
        p := mem[p].ptr;
      }
    }

    /** umalloc.c:24-44 */
    method Free(ap: int)
      requires Valid() && ap - 1 in out
      modifies this
      ensures Valid() && freep != NULL
      ensures out == old(out) - {ap - 1} && units == old(units)
      ensures CanFree(base, old(State()), freep, ap - 1) && ap - 1 in old(mem) && freep in old(mem)
              && old(mem)[freep].ptr in old(mem)
      ensures State() == AfterFree(old(State()), freep, ap - 1)
    {
      hide HeapOk;
      var bp := ap - 1;
      var p := FindPlace(bp);
      ghost var h := State();
      FreeKeeps(base, h, p, bp);
      assert p > NULL && p in AfterFree(h, p, bp).free by { FreeBounds(base, h, p, bp); }
      if bp + mem[bp].size == mem[p].ptr {
        mem := mem[bp := Header(mem[mem[p].ptr].ptr, mem[bp].size + mem[mem[p].ptr].size)];
      } else {
        mem := mem[bp := Header(mem[p].ptr, mem[bp].size)];
      }
      if p + mem[p].size == bp {
        mem := mem[p := Header(mem[bp].ptr, mem[p].size + mem[bp].size)];
      } else {
        mem := mem[p := Header(bp, mem[p].size)];
      }
      freep := p;
      free, out := FreeSet(h, p, bp), out - {bp};
    }

    /** umalloc.c:46-61. sbrk's answer is given: a region has the Granted units, and where those are not the
        units that morecore goes on to use, it is not ok, and the run is not followed further. */
    method Morecore(nu: nat, answer: Answer) returns (p: int, ok: bool)
      requires Valid() && freep != NULL && 1 <= nu <= UINT / 8
      requires answer.Region? ==> Unused(base, State(), answer.at, Granted(nu))
      modifies this
      ensures Valid() && freep != NULL && out == old(out)
      ensures !ok <==> answer.Region? && nu >= UINT / 16
      ensures answer.Failed? || !ok ==> p == NULL && State() == old(State()) && freep == old(freep)
      ensures answer.Region? && ok ==> p == freep && units == old(units) + Range(answer.at, Request(nu))
      ensures answer.Region? && ok ==>
                && Supplied(base, old(State()), answer.at, Request(nu), freep, State())
                && freep in mem && (mem[freep].size >= nu || (mem[freep].ptr in mem && mem[mem[freep].ptr].size >= nu))
    {
      hide HeapOk;
      if answer.Failed? { return NULL, true; }
      GrantedAll(nu);
      if Granted(nu) != Request(nu) { return NULL, false; }
      var n := Request(nu);
      var hp := answer.at;
      SbrkKeeps(base, State(), hp, n);
      mem := mem[hp := Header(NULL, n)];
      out, units := out[hp := n], units + Range(hp, n);
      ghost var h := State();
      assert h == AfterSbrk(old(State()), hp, n);
      Free(hp + 1);
      FreeSizes(base, h, freep, hp);
      assert out == old(out);
      return freep, true;
    }

    /** umalloc.c:76-84: the block after prevp is big enough. */
    method TakeBlock(prevp: int, nunits: nat) returns (p: int)
      requires Valid() && freep != NULL && CanTake(base, State(), prevp, nunits)
      modifies this
      ensures Valid() && freep == prevp && freep != NULL && p != NULL
      ensures p - 1 !in old(out) && out == old(out)[p - 1 := nunits] && units == old(units)
      ensures prevp in old(mem) && p == TakeAt(old(State()), prevp, nunits) + 1
              && State() == AfterTake(old(State()), prevp, nunits)
      ensures CutOff(old(State()), State(), p - 1, nunits)
    {
      hide HeapOk, Linked, Follows, CutOff;
      ghost var h := State();
      TakeCutsOff(base, h, prevp, nunits);
      TakeBounds(base, h, prevp, nunits);
      TakeFresh(base, h, prevp, nunits);
      TakeKeeps(base, h, prevp, nunits);
      p := mem[prevp].ptr;
      ghost var r := AfterTake(h, prevp, nunits);
      if mem[p].size == nunits {
        mem := mem[prevp := Header(mem[p].ptr, mem[prevp].size)];
      } else {
        mem := mem[p := Header(mem[p].ptr, mem[p].size - nunits)];
        p := p + mem[p].size;
        mem := mem[p := Header(NULL, nunits)];
      }
      freep := prevp;
      free, out := r.free, out[p := nunits];
      p := p + 1;
    }

    /** umalloc.c:74-89: first fit from freep on; when the whole list is too small, from where morecore has put
        the new memory on. It is not ok exactly when morecore is not. */
    method FirstFit(nunits: nat, answer: Answer) returns (p: int, ok: bool)
      requires Valid() && freep != NULL && 1 <= nunits <= UINT / 8
      requires answer.Region? ==> Unused(base, State(), answer.at, Granted(nunits))
      modifies this
      ensures Valid() && freep != NULL
      ensures !ok <==> answer.Region? && Full(old(State()), nunits) && nunits >= UINT / 16
      ensures ok ==> (p == NULL <==> answer.Failed? && Full(old(State()), nunits))
      ensures !ok || p == NULL ==> p == NULL && State() == old(State())
      ensures p != NULL ==> Served(base, old(State()), old(freep), answer, nunits, State(), freep, p)
      ensures p != NULL ==> p - 1 !in old(out) && out == old(out)[p - 1 := nunits]
      ensures p != NULL ==>
                units == old(units) + if Full(old(State()), nunits) then Range(answer.at, Request(nunits)) else {}
    {
      hide HeapOk, Unused, Linked, Follows, Arc, Searched, Ahead, Full, Fitted, Supplied;
      ghost var h, asked := State(), false;
      var prevp := freep;
      SearchBegins(h, freep, nunits);
      p := OnList(prevp);
      while true
        invariant Valid() && freep != NULL && prevp in free && p == Next(mem, prevp) && p in free && free <= mem.Keys
        invariant out == old(out) && Searched(State(), Arc(free, prevp, freep), nunits)
        invariant !asked ==> State() == h && freep == old(freep)
        invariant asked ==> answer.Region? && units == h.units + Range(answer.at, Request(nunits)) && Full(h, nunits)
        invariant asked ==> nunits < UINT / 16 && Supplied(base, h, answer.at, Request(nunits), freep, State())
        invariant asked ==> Ahead(State(), Arc(free, prevp, freep), nunits)
        decreases !asked, Arc(free, prevp, freep)
      {
        if mem[p].size >= nunits {
          ghost var mid, from := State(), freep;
          PassedSmall(mid, from, prevp, nunits);
          NotFull(mid, p, nunits);
          p := TakeBlock(prevp, nunits);
          FittedHere(base, mid, from, prevp, nunits, State(), p);
          return p, true;
        }
        Parts(base, State());
        SearchStep(State(), prevp, freep, nunits);
        if p == freep {
          p, ok := Morecore(nunits, answer);
          if p == NULL { return; }
          asked := true;
          Parts(base, State());
          FoundAhead(State(), freep, nunits);
          SearchBegins(State(), freep, nunits);
        }
        prevp := p;
        p := OnList(prevp);
      }
    }

    /** umalloc.c:63-90. nbytes is an unsigned int; answer is what sbrk says if it is asked. Up to MallocLimit it
        is always ok, and the block holds nbytes behind its header. */
    method Malloc(nbytes: nat, answer: Answer) returns (p: int, ok: bool)
      requires Valid() && nbytes < UINT
      requires answer.Region? ==> Unused(base, State(), answer.at, Granted(Units(nbytes)))
      modifies this
      ensures Valid() && freep != NULL
      ensures var h := Started(base, old(freep), old(State()));
              && (!ok <==> answer.Region? && Full(h, Units(nbytes)) && Units(nbytes) >= UINT / 16)
              && (ok ==> (p == NULL <==> answer.Failed? && Full(h, Units(nbytes))))
              && (!ok || p == NULL ==> p == NULL && State() == h)
              && (p != NULL ==> Served(base, h, StartAt(base, old(freep)), answer, Units(nbytes), State(), freep, p))
      ensures p != NULL ==> p - 1 !in old(out) && out == old(out)[p - 1 := Units(nbytes)]
      ensures nbytes <= UINT / 2 - 16 ==> ok && (p != NULL ==> 8 * (out[p - 1] - 1) >= nbytes)
    {
      hide HeapOk, Units, Full, Served;
      UnitsSuffice(nbytes);
      GrantedAll(Units(nbytes));
      MallocLimit(nbytes);
      if freep == NULL {
        mem := mem[base := Header(base, 0)];
        freep := base;
        free := {base};
        EmptyHeap(base, State());
      }
      p, ok := FirstFit(Units(nbytes), answer);
    }

    /** The node after a node. */
    method OnList(a: int) returns (n: int)
      requires Valid() && freep != NULL && a in free
      ensures a in mem && n == mem[a].ptr && n in free && n in mem && free <= mem.Keys
    {
      Parts(base, State());
      NextNode(free, mem, a);
      n := mem[a].ptr;
    }
  }

  /** r is the heap h with n units from sbrk at `at` put on the list after q. */
  ghost predicate Supplied(base: int, h: Heap, at: int, n: nat, q: int, r: Heap) {
    var g := AfterSbrk(h, at, n);
    && CanFree(base, g, q, at) && q in g.mem && at in g.mem && g.mem[q].ptr in g.mem
    && r == AfterFree(g, q, at)
  }

  /** p, in the heap r, comes from the first block big enough after node a of the heap h, which follows prevp. */
  ghost predicate Fitted(base: int, h: Heap, a: int, n: nat, r: Heap, prevp: int, p: int) {
    && CanTake(base, h, prevp, n) && prevp in h.mem && r == AfterTake(h, prevp, n) && p == TakeAt(h, prevp, n) + 1
    && (prevp != a ==> Small(h, Arc(h.free, a, prevp), n))
  }

  /** It is the end of that block, which otherwise stays. */
  lemma FittedCut(base: int, h: Heap, a: int, n: nat, r: Heap, prevp: int, p: int)
    requires Fitted(base, h, a, n, r, prevp, p)
    ensures CutOff(h, r, p - 1, n)
  {
    hide CutOff, CanTake, AfterTake;
    TakeCutsOff(base, h, prevp, n);
  }

  ghost predicate Small(h: Heap, nodes: set<int>, n: nat) {
    forall c: int :: c in nodes ==> c in h.mem && h.mem[c].size < n
  }

  /** The request is served from the list, or, if no free block is big enough, from the list with what sbrk gave. */
  ghost predicate Served(base: int, h: Heap, a: int, answer: Answer, n: nat, r: Heap, prevp: int, p: int) {
    if !Full(h, n) then Fitted(base, h, a, n, r, prevp, p)
    else answer.Region? && exists mid: Heap, q: int ::
      Supplied(base, h, answer.at, Request(n), q, mid) && Fitted(base, mid, q, n, r, prevp, p)
  }

  /** The heap once base is on the list (umalloc.c:70-73). */
  function Started(base: int, freep: int, h: Heap): Heap {
    if freep == NULL then Heap(h.mem[base := Header(base, 0)], {base}, h.out, h.units) else h
  }

  function StartAt(base: int, freep: int): int {
    if freep == NULL then base else freep
  }

  /** Between two nodes lie those that are not on the way back. */
  lemma PassedSmall(h: Heap, a: int, prevp: int, n: nat)
    requires Searched(h, Arc(h.free, prevp, a), n)
    ensures prevp != a ==> Small(h, Arc(h.free, a, prevp), n)
  {
  }

  lemma NotFull(h: Heap, c: int, n: nat)
    requires c in h.free && c in h.mem && h.mem[c].size >= n
    ensures !Full(h, n)
  {
  }

  lemma FittedHere(base: int, h: Heap, a: int, prevp: int, n: nat, r: Heap, p: int)
    requires CanTake(base, h, prevp, n) && prevp in h.mem && r == AfterTake(h, prevp, n) && p == TakeAt(h, prevp, n) + 1
    requires prevp != a ==> Small(h, Arc(h.free, a, prevp), n)
    ensures Fitted(base, h, a, n, r, prevp, p)
  {
  }

  /** No free block has n units. */
  ghost predicate Full(h: Heap, n: nat) {
    forall c: int :: c in h.free ==> c in h.mem && h.mem[c].size < n
  }

  /** The nodes outside `rest` are too small. */
  ghost predicate Searched(h: Heap, rest: set<int>, n: nat) {
    forall c: int :: c in h.free && c !in rest ==> c in h.mem && h.mem[c].size < n
  }

  /** Some node of `rest` is big enough. */
  ghost predicate Ahead(h: Heap, rest: set<int>, n: nat) {
    exists c: int :: c in rest && c in h.mem && h.mem[c].size >= n
  }

  function Next(mem: Mem, a: int): int {
    if a in mem then mem[a].ptr else NULL
  }

  lemma SearchBegins(h: Heap, a: int, n: nat)
    ensures Searched(h, Arc(h.free, a, a), n)
  {
  }

  /** The node after prevp is too small: on to the next, or, back at freep, nothing is left. */
  lemma SearchStep(h: Heap, prevp: int, freep: int, n: nat)
    requires Linked(h.free, h.mem) && prevp in h.free && freep in h.free && Next(h.mem, prevp) in h.mem
    requires h.mem[Next(h.mem, prevp)].size < n
    ensures var p, rest := Next(h.mem, prevp), Arc(h.free, prevp, freep);
      && (p != freep ==> Arc(h.free, p, freep) < rest)
      && (Searched(h, rest, n) ==> if p == freep then Full(h, n) else Searched(h, Arc(h.free, p, freep), n))
      && (Ahead(h, rest, n) ==> p != freep && Ahead(h, Arc(h.free, p, freep), n))
  {
    ArcStep(h.free, h.mem, prevp, freep);
    hide Linked, Follows, Arc;
    var p, rest := Next(h.mem, prevp), Arc(h.free, prevp, freep);
    if p != freep { assert p in rest && p !in Arc(h.free, p, freep); }
  }

  lemma FoundAhead(h: Heap, a: int, n: nat)
    requires Linked(h.free, h.mem) && a in h.free && a in h.mem
    requires h.mem[a].size >= n || (h.mem[a].ptr in h.mem && h.mem[h.mem[a].ptr].size >= n)
    ensures Ahead(h, Arc(h.free, a, a), n)
  {
    NextNode(h.free, h.mem, a);
    hide Linked, Follows;
    assert a in Arc(h.free, a, a) && h.mem[a].ptr in Arc(h.free, a, a);
  }

  lemma EmptyHeap(base: int, h: Heap)
    requires h.free == {base} && base in h.mem && h.mem[base] == Header(base, 0) && h.out == map[] && h.units == {}
    ensures HeapOk(base, h)
  {
  }

  lemma Parts(base: int, h: Heap)
    requires HeapOk(base, h)
    ensures FreeOk(base, h) && Linked(h.free, h.mem) && h.free <= h.mem.Keys
  {
  }

  /** Only the highest node points back, and it points to the dummy. */
  lemma WrapsAtBase(base: int, h: Heap, p: int)
    requires FreeOk(base, h) && p in h.free && p in h.mem && h.mem[p].ptr <= p
    ensures h.mem[p].ptr == base
  {
    NextNode(h.free, h.mem, p);
    hide Linked;
  }
}
