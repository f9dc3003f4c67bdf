/** The block index of an inode (fs.h:29-43, fs.c:346-411): direct, indirect and doubly indirect
    slots, and who owns which disk block.

    An in-memory inode has NDIRECT+2 slots here, as the on-disk one has. */
module FsIndex {
  import opened Blocks

  const NDIRECT := 11
  const NINDIRECT := 128
  const MAXFILE := NDIRECT + NINDIRECT + NINDIRECT * NINDIRECT
  const NADDRS := NDIRECT + 2

  const SHORT := 0x1_0000

  datatype Inode = Inode(kind: nat, major: nat, minor: nat, nlink: nat, size: nat, addrs: seq<nat>)

  /** The fields that are C shorts (fs.h:27-30). */
  predicate Shorts(ip: Inode) {
    ip.kind < SHORT && ip.major < SHORT && ip.minor < SHORT && ip.nlink < SHORT
  }

  /** Every place that can hold a block number of an inode. */
  datatype Slot = Root(i: nat) | Ind(j: nat) | DblInd(j: nat) | Dbl(i: nat, j: nat)

  predicate IsSlot(s: Slot) {
    match s
    case Root(i) => i < NADDRS
    case Ind(j) => j < NINDIRECT
    case DblInd(j) => j < NINDIRECT
    case Dbl(i, j) => i < NINDIRECT && j < NINDIRECT
  }

  function Depth(s: Slot): nat {
    match s
    case Root(_) => 0
    case Ind(_) => 1
    case DblInd(_) => 1
    case Dbl(_, _) => 2
  }

  /** The slot naming the index block that holds slot s. */
  function Parent(s: Slot): (p: Slot)
    requires !s.Root?
    ensures Depth(p) < Depth(s) && (IsSlot(s) ==> IsSlot(p)) && HasChildren(p)
  {
    match s
    case Ind(_) => Root(NDIRECT)
    case DblInd(_) => Root(NDIRECT + 1)
    case Dbl(i, _) => DblInd(i)
  }

  /** Word j of block p, 0 when there is no block p. */
  function WordAt(blocks: seq<Block>, p: nat, j: nat): nat
    requires j < WORDS
  {
    if p == 0 || p >= |blocks| then 0 else Word(blocks[p], j)
  }

  /** The block number in a slot; 0 means none. */
  function At(blocks: seq<Block>, ip: Inode, s: Slot): nat
    requires |ip.addrs| == NADDRS && IsSlot(s)
    decreases Depth(s)
  {
    if s.Root? then ip.addrs[s.i] else WordAt(blocks, At(blocks, ip, Parent(s)), s.j)
  }

  predicate HasChildren(s: Slot) {
    s.DblInd? || s == Root(NDIRECT) || s == Root(NDIRECT + 1)
  }

  /** The slot of the n-th content block (fs.c:362-401). */
  function SlotOf(bn: nat): (s: Slot)
    requires bn < MAXFILE
    ensures IsSlot(s) && !HasChildren(s)
  {
    if bn < NDIRECT then Root(bn)
    else if bn < NDIRECT + NINDIRECT then Ind(bn - NDIRECT)
    else Dbl((bn - NDIRECT - NINDIRECT) / NINDIRECT, (bn - NDIRECT - NINDIRECT) % NINDIRECT)
  }

  lemma SlotOfInjective(a: nat, b: nat)
    requires a < MAXFILE && b < MAXFILE && SlotOf(a) == SlotOf(b)
    ensures a == b
  {
  }

  // -------- Ownership --------

  datatype Owner = Owner(k: nat, s: Slot)

  /** Every block number in a slot is in the map, under that slot of that inode. */
  ghost predicate Owned(blocks: seq<Block>, inodes: seq<Inode>, owner: map<nat, Owner>) {
    && (forall k :: 0 <= k < |inodes| ==> |inodes[k].addrs| == NADDRS)
    && (forall b :: b in owner ==> 0 < b < |blocks|)
    && forall k, s :: 0 <= k < |inodes| && IsSlot(s) && At(blocks, inodes[k], s) != 0 ==>
         At(blocks, inodes[k], s) in owner && owner[At(blocks, inodes[k], s)] == Owner(k, s)
  }

  /** And the map holds nothing else. */
  ghost predicate Exact(blocks: seq<Block>, inodes: seq<Inode>, owner: map<nat, Owner>) {
    forall b :: b in owner ==>
      && owner[b].k < |inodes| && IsSlot(owner[b].s) && |inodes[owner[b].k].addrs| == NADDRS
      && At(blocks, inodes[owner[b].k], owner[b].s) == b
  }

  /** Each block is owned by at most one slot of one inode. */
  lemma {:induction false} OwnedOnce(blocks: seq<Block>, inodes: seq<Inode>, owner: map<nat, Owner>, k: nat, s: Slot,
                                     k': nat, s': Slot)
    requires Owned(blocks, inodes, owner) && k < |inodes| && k' < |inodes| && IsSlot(s) && IsSlot(s')
    requires At(blocks, inodes[k], s) == At(blocks, inodes[k'], s') != 0
    ensures k == k' && s == s'
  {
    hide At, IsSlot;
  }

  /** An inode whose index blocks did not change has the same slots. */
  lemma {:induction false} AtFrame(blocks: seq<Block>, blocks': seq<Block>, ip: Inode, s: Slot)
    requires |ip.addrs| == NADDRS && IsSlot(s) && |blocks| == |blocks'|
    requires forall t :: IsSlot(t) && HasChildren(t) && 0 < At(blocks, ip, t) < |blocks| ==>
               blocks'[At(blocks, ip, t)] == blocks[At(blocks, ip, t)]
    ensures At(blocks', ip, s) == At(blocks, ip, s)
    decreases Depth(s)
  {
    if s.Dbl? {
      AtFrame(blocks, blocks', ip, DblInd(s.i));
    }
  }

  /** Changing blocks nobody owns, or content blocks, leaves the whole index alone. */
  lemma {:induction false} IndexFrame(blocks: seq<Block>, blocks': seq<Block>, inodes: seq<Inode>,
                                      owner: map<nat, Owner>, k: nat, s: Slot)
    requires Owned(blocks, inodes, owner) && |blocks| == |blocks'| && k < |inodes| && IsSlot(s)
    requires forall b :: b in owner && HasChildren(owner[b].s) ==> blocks'[b] == blocks[b]
    ensures At(blocks', inodes[k], s) == At(blocks, inodes[k], s)
  {
    hide At, IsSlot, HasChildren;
    AtFrame(blocks, blocks', inodes[k], s);
  }

  ghost predicate SameSlots(blocks: seq<Block>, inodes: seq<Inode>, blocks': seq<Block>, inodes': seq<Inode>) {
    && |blocks| == |blocks'| && |inodes| == |inodes'|
    && (forall k :: 0 <= k < |inodes| ==> |inodes[k].addrs| == |inodes'[k].addrs| == NADDRS)
    && forall k, s :: 0 <= k < |inodes| && IsSlot(s) ==> At(blocks', inodes'[k], s) == At(blocks, inodes[k], s)
  }

  lemma SameOwned(blocks: seq<Block>, inodes: seq<Inode>, blocks': seq<Block>, inodes': seq<Inode>,
                  owner: map<nat, Owner>)
    requires Owned(blocks, inodes, owner) && SameSlots(blocks, inodes, blocks', inodes')
    ensures Owned(blocks', inodes', owner)
  {
    hide At, IsSlot;
  }

  lemma SameExact(blocks: seq<Block>, inodes: seq<Inode>, blocks': seq<Block>, inodes': seq<Inode>,
                  owner: map<nat, Owner>)
    requires Exact(blocks, inodes, owner) && SameSlots(blocks, inodes, blocks', inodes')
    ensures Exact(blocks', inodes', owner)
  {
    hide At, IsSlot;
  }

  lemma OwnedFrame(blocks: seq<Block>, blocks': seq<Block>, inodes: seq<Inode>, owner: map<nat, Owner>)
    requires Owned(blocks, inodes, owner) && Exact(blocks, inodes, owner) && |blocks| == |blocks'|
    requires forall b :: b in owner && HasChildren(owner[b].s) ==> blocks'[b] == blocks[b]
    ensures Owned(blocks', inodes, owner) && Exact(blocks', inodes, owner)
    ensures SameSlots(blocks, inodes, blocks', inodes)
  {
    hide At, IsSlot, HasChildren, Exact;
    forall k, s | 0 <= k < |inodes| && IsSlot(s) ensures At(blocks', inodes[k], s) == At(blocks, inodes[k], s) {
      IndexFrame(blocks, blocks', inodes, owner, k, s);
    }
    hide Owned;
    SameOwned(blocks, inodes, blocks', inodes, owner);
    SameExact(blocks, inodes, blocks', inodes, owner);
  }

  // -------- Filling an empty slot --------

  /** Store block number f in slot s of inode k (fs.c:364, 372, 376, 388, 395, 403). */
  function PutBlocks(blocks: seq<Block>, ip: Inode, s: Slot, f: nat): (r: seq<Block>)
    requires |ip.addrs| == NADDRS && IsSlot(s) && f < WORD_LIMIT
    ensures |r| == |blocks|
  {
    if s.Root? then blocks
    else
      var p := At(blocks, ip, Parent(s));
      if p == 0 || p >= |blocks| then blocks else blocks[p := SetWord(blocks[p], s.j, f)]
  }

  function PutAddrs(ip: Inode, s: Slot, f: nat): (r: Inode)
    requires |ip.addrs| == NADDRS && IsSlot(s)
    ensures |r.addrs| == NADDRS
  {
    if s.Root? then ip.(addrs := ip.addrs[s.i := f]) else ip
  }

  /** A fresh zeroed block goes into an empty slot whose index block exists. */
  ghost predicate CanPut(blocks: seq<Block>, inodes: seq<Inode>, owner: map<nat, Owner>, k: nat, s: Slot, f: nat) {
    && Owned(blocks, inodes, owner) && Exact(blocks, inodes, owner) && k < |inodes| && IsSlot(s)
    && 0 < f < |blocks| && f < WORD_LIMIT && f !in owner && blocks[f] == ZeroBlock()
    && At(blocks, inodes[k], s) == 0
    && (!s.Root? ==> At(blocks, inodes[k], Parent(s)) != 0)
  }

  /** Exactly that slot changes, in every inode. */
  lemma {:induction false} PutAt(blocks: seq<Block>, inodes: seq<Inode>, owner: map<nat, Owner>, k: nat, s: Slot,
                                 f: nat, k': nat, t: Slot)
    requires CanPut(blocks, inodes, owner, k, s, f) && k' < |inodes| && IsSlot(t)
    ensures var blocks' := PutBlocks(blocks, inodes[k], s, f);
            var inodes' := inodes[k := PutAddrs(inodes[k], s, f)];
            At(blocks', inodes'[k'], t) == if k' == k && t == s then f else At(blocks, inodes[k'], t)
    decreases Depth(t)
  {
    if !t.Root? {
      PutAt(blocks, inodes, owner, k, s, f, k', Parent(t));
      var p := At(blocks, inodes[k'], Parent(t));
      if k' == k && Parent(t) == s {
        ZeroBlockWord(t.j);
      } else if !s.Root? {
        var q := At(blocks, inodes[k], Parent(s));
        SetWordGet(blocks[q], s.j, f, t.j);
        if p == q { OwnedOnce(blocks, inodes, owner, k, Parent(s), k', Parent(t)); }
      }
    }
  }

  lemma PutOwned(blocks: seq<Block>, inodes: seq<Inode>, owner: map<nat, Owner>, k: nat, s: Slot, f: nat)
    requires CanPut(blocks, inodes, owner, k, s, f)
    ensures var blocks' := PutBlocks(blocks, inodes[k], s, f);
            var inodes' := inodes[k := PutAddrs(inodes[k], s, f)];
            var owner' := owner[f := Owner(k, s)];
            Owned(blocks', inodes', owner') && Exact(blocks', inodes', owner')
  {
    hide At, IsSlot, PutBlocks, PutAddrs;
    var blocks', inodes' := PutBlocks(blocks, inodes[k], s, f), inodes[k := PutAddrs(inodes[k], s, f)];
    forall k', t | 0 <= k' < |inodes| && IsSlot(t)
      ensures At(blocks', inodes'[k'], t) == if k' == k && t == s then f else At(blocks, inodes[k'], t)
    {
      PutAt(blocks, inodes, owner, k, s, f, k', t);
    }
  }
}
