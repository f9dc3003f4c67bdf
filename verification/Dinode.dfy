/** On-disk inodes (fs.h:26-33) and the copies between them and memory: iupdate (fs.c:201-217)
    and the reading half of ilock (fs.c:283-293). Sixteen words per inode, eight inodes per block. */
module Dinode {
  import opened Blocks
  import opened FsIndex

  const DWORDS := 16

  /** The slots both copies move: sizeof(ip->addrs) with the NDIRECT+1 entries of file.h:24. */
  const COPIED := NDIRECT + 1

  predicate Storable(ip: Inode) {
    && Shorts(ip) && ip.size < WORD_LIMIT && |ip.addrs| == NADDRS
    && forall i :: 0 <= i < NADDRS ==> ip.addrs[i] < WORD_LIMIT
  }

  /** Two shorts in a word. */
  function Pair(lo: nat, hi: nat): (w: nat)
    requires lo < SHORT && hi < SHORT
    ensures w < WORD_LIMIT && w % SHORT == lo && w / SHORT == hi
  {
    lo + hi * SHORT
  }

  /** type and major, minor and nlink, size, addrs */
  function Word16(ip: Inode, i: nat): (w: nat)
    requires Storable(ip) && i < 3 + COPIED
    ensures w < WORD_LIMIT
  {
    if i == 0 then Pair(ip.kind, ip.major)
    else if i == 1 then Pair(ip.minor, ip.nlink)
    else if i == 2 then ip.size
    else ip.addrs[i - 3]
  }

  function PutWords(b: Block, at: nat, ip: Inode, n: nat): Block
    requires Storable(ip) && n <= 3 + COPIED && at + n <= WORDS
  {
    if n == 0 then b else SetWord(PutWords(b, at, ip, n - 1), at + n - 1, Word16(ip, n - 1))
  }

  /** The inode block after iupdate of the inode in place `slot` of it. */
  function PutDinode(b: Block, slot: nat, ip: Inode): Block
    requires Storable(ip) && slot < WORDS / DWORDS
  {
    PutWords(b, DWORDS * slot, ip, 3 + COPIED)
  }

  function AddrWord(b: Block, at: nat, stale: nat, i: nat): nat
    requires at + DWORDS <= WORDS && i < NADDRS
  {
    if i < COPIED then Word(b, at + 3 + i) else stale
  }

  /** What ilock reads into a cache entry whose last slot holds `stale`: neither ilock nor iget, which recycles
      the entry of another inode (fs.c:245-249), writes that slot. */
  function GetDinode(b: Block, slot: nat, stale: nat): Inode
    requires slot < WORDS / DWORDS
  {
    var at := DWORDS * slot;
    Inode(Word(b, at) % SHORT, Word(b, at) / SHORT, Word(b, at + 1) % SHORT, Word(b, at + 1) / SHORT, Word(b, at + 2),
          seq(NADDRS, i requires 0 <= i < NADDRS => AddrWord(b, at, stale, i)))
  }

  lemma {:induction false} PutWordsGet(b: Block, at: nat, ip: Inode, n: nat, j: nat)
    requires Storable(ip) && n <= 3 + COPIED && at + n <= WORDS && j < WORDS
    ensures Word(PutWords(b, at, ip, n), j) == if at <= j < at + n then Word16(ip, j - at) else Word(b, j)
  {
    if n > 0 {
      PutWordsGet(b, at, ip, n - 1, j);
      SetWordGet(PutWords(b, at, ip, n - 1), at + n - 1, Word16(ip, n - 1), j);
    }
  }

  /** iupdate and a later ilock give back everything but the doubly indirect slot, which keeps what the cache
      entry had there. */
  lemma Reload(b: Block, slot: nat, ip: Inode, stale: nat)
    requires Storable(ip) && slot < WORDS / DWORDS
    ensures GetDinode(PutDinode(b, slot, ip), slot, stale) == ip.(addrs := ip.addrs[NDIRECT + 1 := stale])
  {
    var b', at := PutDinode(b, slot, ip), DWORDS * slot;
    forall j | at <= j < at + 3 + COPIED ensures Word(b', j) == Word16(ip, j - at) {
      PutWordsGet(b, at, ip, 3 + COPIED, j);
    }
    hide PutDinode, Word, Pair;
    forall i | 0 <= i < NADDRS ensures AddrWord(b', at, stale, i) == ip.addrs[NDIRECT + 1 := stale][i] {
    }
    assert GetDinode(b', slot, stale).addrs == ip.addrs[NDIRECT + 1 := stale];
  }

  /** The other inodes of the block are untouched. */
  lemma ReloadOthers(b: Block, slot: nat, ip: Inode, other: nat, stale: nat)
    requires Storable(ip) && slot < WORDS / DWORDS && other < WORDS / DWORDS && other != slot
    ensures GetDinode(PutDinode(b, slot, ip), other, stale) == GetDinode(b, other, stale)
  {
    var b', at := PutDinode(b, slot, ip), DWORDS * other;
    forall j | at <= j < at + DWORDS ensures Word(b', j) == Word(b, j) {
      PutWordsGet(b, DWORDS * slot, ip, 3 + COPIED, j);
    }
    hide PutDinode, Word;
    forall i | 0 <= i < NADDRS ensures AddrWord(b', at, stale, i) == AddrWord(b, at, stale, i) {
    }
    assert GetDinode(b', other, stale).addrs == GetDinode(b, other, stale).addrs;
  }

  /** An inode survives leaving the inode cache and coming back exactly when the entry it comes back to has its
      own doubly indirect block number in the last slot. */
  lemma SurvivesReload(b: Block, slot: nat, ip: Inode, stale: nat)
    requires Storable(ip) && slot < WORDS / DWORDS
    ensures GetDinode(PutDinode(b, slot, ip), slot, stale) == ip <==> stale == ip.addrs[NDIRECT + 1]
  {
    Reload(b, slot, ip, stale);
    assert ip.addrs[NDIRECT + 1 := stale] == ip.addrs <==> stale == ip.addrs[NDIRECT + 1];
  }

  /** Both ways to fail: the doubly indirect block is lost in an entry not used before, and an inode without one
      takes over that of the inode whose entry it gets, so that two inodes reach the same blocks. */
  lemma StaleSlot(b: Block, slot: nat, ip: Inode, b': Block, slot': nat, other: Inode)
    requires Storable(ip) && Storable(other) && slot < WORDS / DWORDS && slot' < WORDS / DWORDS
    requires ip.addrs[NDIRECT + 1] == 0 != other.addrs[NDIRECT + 1]
    ensures GetDinode(PutDinode(b', slot', other), slot', 0).addrs[NDIRECT + 1] == 0
    ensures GetDinode(PutDinode(b, slot, ip), slot, other.addrs[NDIRECT + 1]).addrs[NDIRECT + 1]
            == other.addrs[NDIRECT + 1]
  {
    Reload(b, slot, ip, other.addrs[NDIRECT + 1]);
    Reload(b', slot', other, 0);
  }
}
