/** create, link and unlink of sysfile.c over inodes with reference counts. Each runs as one step, under its
    locks and inside its transaction. Inode number 0 stands for the null pointer. */
module Tree {
  import opened TreeSpec
  import opened TreeNames

  /** NoInodes and NoType stand for the panics of sysfile.c:254 and fs.c:295. */
  datatype Made = Made(inum: Inum) | Refused | NoInodes | NoType

  class Tree {
    var inodes: Inodes
    var refs: map<Inum, nat>
    const ninodes: nat

    /** The references to an inode held in memory. */
    function Ref(i: Inum): nat
      reads this`refs
    {
      if i in refs then refs[i] else 0
    }

    /** An inode in memory is in use. */
    ghost predicate RefsOk()
      reads this
    {
      forall i: Inum :: Ref(i) > 0 ==> i in inodes
    }

    /** And link counts are exact. */
    ghost predicate Valid()
      reads this
    {
      TreeOk(inodes) && RefsOk()
    }

    /** A directory that a path can lead to: one that is linked, or has been removed and is still open. */
    predicate Reachable(d: Inum)
      reads this
    {
      d in inodes && inodes[d].kind.IsDir? && (inodes[d].nlink > 0 || Ref(d) > 0)
    }

    /** A file system with just the root directory, as mkfs leaves it. */
    constructor (n: nat)
      ensures Valid() && ninodes == n && refs == map[] && inodes.Keys == {ROOT}
    {
      inodes := map[ROOT := Node(IsDir, 1, [Dirent(ROOT, DOT), Dirent(ROOT, DOTDOT)])];
      refs, ninodes := map[], n;
      new;
      RootOk(inodes);
    }

    /** iget (fs.c:222-253) */
    method Iget(i: Inum)
      requires RefsOk() && i in inodes
      modifies `refs
      ensures RefsOk() && forall j: Inum :: Ref(j) == old(Ref(j)) + if j == i then 1 else 0
    {
      refs := refs[i := Ref(i) + 1];
    }

    /** iput (fs.c:317-336) of an inode whose copy in memory is valid or not: it is freed when this was the last
        reference, the copy is valid and its count is 0. With exact counts no entry names it then. */
    method Iput(i: Inum, valid: bool) returns (freed: bool)
      requires RefsOk() && Ref(i) > 0
      modifies `refs, `inodes
      ensures RefsOk() && forall j: Inum :: Ref(j) == old(Ref(j)) - if j == i then 1 else 0
      ensures freed <==> valid && old(Ref(i)) == 1 && old(inodes)[i].nlink == 0
      ensures inodes == if freed then old(inodes) - {i} else old(inodes)
      ensures TreeOk(old(inodes)) ==> TreeOk(inodes) && (freed ==> Links(old(inodes), i) == {})
    {
      hide TreeOk;
      freed := false;
      if refs[i] == 1 && valid && inodes[i].nlink == 0 {
        if TreeOk(inodes) { FreeOk(inodes, i); }
        inodes := inodes - {i};
        freed := true;
      }
      refs := refs[i := refs[i] - 1];
    }

    /** dirlookup (fs.c:532-556); the inode found gains a reference. The ".." of a removed directory may name an
        inode that is no longer in use. */
    method DirLookup(d: Inum, name: string) returns (k: nat, i: Inum)
      requires Valid() && d in inodes && inodes[d].kind.IsDir?
      modifies `refs
      ensures Valid() && k == Find(inodes[d].entries, name, 0)
      ensures k == |inodes[d].entries| ==> i == 0
      ensures k < |inodes[d].entries| ==> i == inodes[d].entries[k].inum && i != 0
      ensures if i != 0 then Finds(inodes, d, name, i) else forall j :: !Finds(inodes, d, name, j)
      ensures i != 0 && i !in inodes ==> inodes[d].nlink == 0 && name == DOTDOT
      ensures i != 0 && Linked(inodes, d) ==> i in inodes && inodes[i].nlink >= 1
      ensures i != 0 && !Linked(inodes, d) ==> (name == DOT && i == d) || name == DOTDOT
      ensures forall j: Inum :: Ref(j) == old(Ref(j)) + if i != 0 && i in inodes && j == i then 1 else 0
    {
      hide TreeOk;
      FindHas(inodes[d].entries, name);
      k := 0;
      while k < |inodes[d].entries|
        invariant 0 <= k <= |inodes[d].entries| && Find(inodes[d].entries, name, 0) == Find(inodes[d].entries, name, k)
      {
        var de := inodes[d].entries[k];
        if de.inum != 0 && de.name == name {
          EntryLive(inodes, d, k);
          if de.inum in inodes { Iget(de.inum); }
          return k, de.inum;
        }
        k := k + 1;
      }
      return k, 0;
    }

    /** The scan of dirlink for a free entry (fs.c:573-578). */
    method FindFree(d: Inum) returns (k: nat)
      requires d in inodes
      ensures k == FreeAt(inodes[d].entries, 0)
    {
      k := 0;
      while k < |inodes[d].entries|
        invariant 0 <= k <= |inodes[d].entries| && FreeAt(inodes[d].entries, 0) == FreeAt(inodes[d].entries, k)
      {
        if inodes[d].entries[k].inum == 0 { break; }
        k := k + 1;
      }
    }

    /** isdirempty (sysfile.c:163-176) */
    method IsDirEmpty(d: Inum) returns (empty: bool)
      requires d in inodes
      ensures empty <==> Empty(inodes[d].entries)
    {
      var k := 2;
      while k < |inodes[d].entries|
        invariant 2 <= k && forall j :: 2 <= j < k && j < |inodes[d].entries| ==> inodes[d].entries[j].inum == 0
      {
        if inodes[d].entries[k].inum != 0 { return false; }
        k := k + 1;
      }
      return true;
    }

    /** ialloc (fs.c:175-198): the first free inode, 0 when there is none. */
    method Ialloc() returns (i: Inum)
      ensures i != 0 ==> i !in inodes && 1 <= i < ninodes && forall j :: 1 <= j < i ==> j in inodes
      ensures i == 0 ==> forall j :: 1 <= j < ninodes ==> j in inodes
    {
      i := 1;
      while i < ninodes
        invariant 1 <= i && forall j :: 1 <= j < i ==> j in inodes
      {
        if i !in inodes { return; }
        i := i + 1;
      }
      return 0;
    }

    /** dirlink (fs.c:559-586); the reference that its lookup takes it gives back. */
    method DirLink(d: Inum, name: string, i: Inum) returns (ok: bool)
      requires d in inodes
      modifies `inodes
      ensures ok <==> Find(old(inodes)[d].entries, name, 0) == |old(inodes)[d].entries|
      ensures inodes ==
              if ok then WithEntry(old(inodes), d, FreeAt(old(inodes)[d].entries, 0), Dirent(i, name)) else old(inodes)
    {
      var k := 0;
      while k < |inodes[d].entries|
        invariant 0 <= k <= |inodes[d].entries| && Find(inodes[d].entries, name, 0) == Find(inodes[d].entries, name, k)
      {
        if inodes[d].entries[k].inum != 0 && inodes[d].entries[k].name == name { return false; }
        k := k + 1;
      }
      k := FindFree(d);
      inodes := inodes[d := inodes[d].(entries := PutEntry(inodes[d].entries, k, Dirent(i, name)))];
      return true;
    }

    /** create (sysfile.c:234-277) in dp, the directory that nameiparent finds. The caller gets a reference to
        the inode made or opened; all others are given back. Counts stay exact exactly if the directory is
        linked and, for a new directory, has room for another link. */
    method Create(dp: Inum, name: string, kind: Kind) returns (r: Made)
      requires Valid() && Reachable(dp)
      modifies this
      ensures r.NoInodes? || r.NoType? ||
              (RefsOk() && forall i: Inum :: Ref(i) == old(Ref(i)) + if r == Made.Made(i) then 1 else 0)
      ensures var es := old(inodes)[dp].entries; var k := Find(es, name, 0);
        if k < |es| then
          && (inodes == old(inodes) || (!Linked(old(inodes), dp) && name == DOTDOT && r.Refused?
                && inodes == old(inodes) - {es[k].inum} && Links(old(inodes), es[k].inum) == {}))
          && (r.NoType? <==> es[k].inum !in old(inodes))
          && (es[k].inum in old(inodes) ==>
                r == if kind.IsFile? && old(inodes)[es[k].inum].kind.IsFile? then Made.Made(es[k].inum) else Refused)
        else
          && (r.NoInodes? <==> forall j :: 1 <= j < ninodes ==> j in old(inodes))
          && (r.NoInodes? || (r.Made? && r.inum !in old(inodes) && r.inum != 0 &&
              inodes == if kind.IsDir? then MakingDir(old(inodes), dp, name, r.inum)
                        else Creating(old(inodes), dp, name, r.inum, kind)))
          && (r.Made? ==> (Valid() <==>
                Linked(old(inodes), dp) && (kind.IsDir? ==> old(inodes)[dp].nlink < MAXLINK)))
      ensures r.NoType? ==> old(inodes)[dp].nlink == 0 && name == DOTDOT
      ensures r.Made? && r.inum in old(inodes) ==>
                && Finds(old(inodes), dp, name, r.inum) && kind.IsFile? && old(inodes)[r.inum].kind.IsFile?
                && inodes == old(inodes)
      ensures r.Made? && r.inum !in old(inodes) ==>
                && (forall j :: !Finds(old(inodes), dp, name, j)) && Makes(old(inodes), inodes, dp, name, r.inum, kind)
    {
      hide TreeOk, Creating, MakingDir, Find, Makes, Finds;
      ghost var t := inodes;
      Counted(t, dp);
      Iget(dp);
      var k, ip := DirLookup(dp, name);
      if ip != 0 {
        if ip !in inodes { return NoType; }
        var gone := Iput(dp, true);
        if kind == IsFile && inodes[ip].kind == IsFile { return Made.Made(ip); }
        gone := Iput(ip, true);
        return Refused;
      }
      ip := Ialloc();
      if ip == 0 { return NoInodes; }
      NewName(t, dp, name);
      if kind.IsDir? {
        MakeDirExact(t, dp, name, ip);
        MakingDirMakes(t, dp, name, ip);
      } else {
        CreateExact(t, dp, name, ip, kind);
        CreatingMakes(t, dp, name, ip, kind);
      }
      MakeInode(dp, name, ip, kind);
      MadeKeeps(t, dp, name, ip, kind);
      Iget(ip);
      assert Ref(dp) >= 2 || inodes[dp].nlink != 0;
      var gone := Iput(dp, true);
      return Made.Made(ip);
    }

    /** Creating a file of the same name again gives the same inode, and changes nothing (sysfile.c:247-250). */
    method CreateAgain(dp: Inum, name: string) returns (r: Made, again: Made, ghost between: Inodes)
      requires Valid() && Linked(inodes, dp)
      modifies this
      ensures r.Made? ==> again == r && inodes == between && r.inum in inodes && inodes[r.inum].kind.IsFile?
    {
      hide TreeOk, Makes, Creating;
      r := Create(dp, name, IsFile);
      between := inodes;
      again := r;
      if r.Made? {
        if r.inum !in old(inodes) { MadeFound(old(inodes), dp, name, r.inum); }
        again := Create(dp, name, IsFile);
      }
    }

    /** sysfile.c:257-272 */
    method MakeInode(dp: Inum, name: string, ip: Inum, kind: Kind)
      requires dp in inodes && ip !in inodes && ip != 0 && Find(inodes[dp].entries, name, 0) == |inodes[dp].entries|
      modifies `inodes
      ensures kind.IsDir? ==> inodes == MakingDir(old(inodes), dp, name, ip)
      ensures !kind.IsDir? ==> inodes == Creating(old(inodes), dp, name, ip, kind)
    {
      inodes := inodes[ip := Node(kind, 1, [])];
      var ok: bool;
      if kind == IsDir {
        inodes := inodes[dp := inodes[dp].(nlink := Wrap(inodes[dp].nlink + 1))];
        ok := DirLink(ip, DOT, ip);
        assert inodes[ip].entries == [Dirent(ip, DOT)] && |DOT| != |DOTDOT|;
        ok := DirLink(ip, DOTDOT, dp);
        assert inodes[ip].entries == [Dirent(ip, DOT), Dirent(dp, DOTDOT)];
      }
      ok := DirLink(dp, name, ip);
    }

    /** sys_link (sysfile.c:123-159) of ip, which namei finds, as `name` in dp, the directory that nameiparent
        finds, or 0 when that path leads nowhere. Counts stay exact exactly if the directory is linked and the
        count does not overflow. */
    method Link(ip: Inum, dp: Inum, name: string) returns (ok: bool)
      requires Valid() && ip in inodes && (dp != 0 ==> Reachable(dp))
      modifies this
      ensures RefsOk() && forall i: Inum :: Ref(i) == old(Ref(i))
      ensures ok <==>
              && !old(inodes)[ip].kind.IsDir? && dp != 0
              && Find(old(inodes)[dp].entries, name, 0) == |old(inodes)[dp].entries|
      ensures ok ==> dp != ip && inodes == Linking(old(inodes), dp, name, ip)
      ensures ok ==>
                && inodes.Keys == old(inodes).Keys && (forall j :: !Finds(old(inodes), dp, name, j))
                && Named(old(inodes), inodes, dp, name, ip)
      ensures ok ==> (Valid() <==> Linked(old(inodes), dp) && old(inodes)[ip].nlink < MAXLINK)
      ensures !ok ==> Valid()
      ensures !ok ==> inodes == old(inodes) || (inodes == old(inodes) - {ip} && Links(old(inodes), ip) == {})
    {
      hide TreeOk, Find, Named, Finds, Links;
      ghost var t := inodes;
      var gone: bool;
      Counted(t, ip);
      if dp != 0 { Counted(t, dp); }
      Iget(ip);
      if inodes[ip].kind == IsDir {
        gone := Iput(ip, true);
        return false;
      }
      if dp != 0 { Iget(dp); }
      ok := GiveName(ip, dp, name);
      if !ok {
        if dp != 0 { gone := Iput(dp, true); }
        gone := Iput(ip, true);
        return;
      }
      NewName(t, dp, name);
      LinkExact(t, dp, name, ip);
      LinkingNames(t, dp, name, ip);
      gone := Iput(dp, true);
      gone := Iput(ip, true);
    }

    /** sysfile.c:135-156 */
    method GiveName(ip: Inum, dp: Inum, name: string) returns (ok: bool)
      requires ip in inodes && (dp != 0 ==> dp in inodes && dp != ip)
      modifies `inodes
      ensures ok <==> dp != 0 && Find(old(inodes)[dp].entries, name, 0) == |old(inodes)[dp].entries|
      ensures inodes == if ok then Linking(old(inodes), dp, name, ip) else old(inodes)
    {
      ghost var t := inodes;
      inodes := inodes[ip := inodes[ip].(nlink := Wrap(inodes[ip].nlink + 1))];
      ok := false;
      if dp != 0 { ok := DirLink(dp, name, ip); }
      if !ok {
        inodes := inodes[ip := inodes[ip].(nlink := Wrap(inodes[ip].nlink - 1))];
        assert inodes == t;
      }
    }

    /** sys_unlink (sysfile.c:189-231) of `name` in dp, the directory that nameiparent finds. */
    method Unlink(dp: Inum, name: string) returns (ok: bool)
      requires Valid() && Reachable(dp)
      modifies this
      ensures Valid() && forall i: Inum :: Ref(i) == old(Ref(i))
      ensures !ok ==> inodes == old(inodes)
      ensures var es := old(inodes)[dp].entries; var k := Find(es, name, 0);
        ok <==> name != DOT && name != DOTDOT && k < |es| && CanUnlink(old(inodes), dp, k, es[k].inum)
      ensures ok ==> var k := Find(old(inodes)[dp].entries, name, 0); var i := old(inodes)[dp].entries[k].inum;
        && i != dp && old(inodes)[i].nlink > 0
        && var u := Unlinking(old(inodes), dp, k, i);
        inodes == if old(Ref(i)) == 0 && u[i].nlink == 0 then u - {i} else u
      ensures ok <==> Removable(old(inodes), dp, name)
      ensures ok ==> exists i: Inum :: Dropped(old(inodes), inodes, dp, name, i)
    {
      hide TreeOk, Unlinking, Find, Empty, Links, Dropped, Finds, Removable;
      ghost var t := inodes;
      RemovableIs(t, dp, name);
      var gone: bool;
      Counted(t, dp);
      Iget(dp);
      if name == DOT || name == DOTDOT {
        gone := Iput(dp, true);
        return false;
      }
      var off, ip := DirLookup(dp, name);
      if ip == 0 {
        gone := Iput(dp, true);
        return false;
      }
      AnEntry(t, dp, off, name);
      Counted(t, ip);
      var empty := true;
      if inodes[ip].kind == IsDir { empty := IsDirEmpty(ip); }
      if !empty {
        gone := Iput(ip, true);
        gone := Iput(dp, true);
        return false;
      }
      RemoveEntry(dp, off, ip);
      UnlinkingNames(t, inodes, dp, off, name, ip);
      return true;
    }

    /** sysfile.c:211-222 */
    method RemoveEntry(dp: Inum, off: nat, ip: Inum)
      requires Valid() && CanUnlink(inodes, dp, off, ip) && Ref(dp) > 0 && Ref(ip) > 0
      modifies this
      ensures Valid() && dp != ip && dp in old(inodes) && old(inodes)[ip].nlink > 0 && old(inodes)[dp].nlink > 0
      ensures var u := Unlinking(old(inodes), dp, off, ip);
        inodes == if old(Ref(ip)) == 1 && u[ip].nlink == 0 then u - {ip} else u
      ensures forall j: Inum :: Ref(j) == old(Ref(j)) - if j == dp || j == ip then 1 else 0
    {
      hide TreeOk;
      ghost var t := inodes;
      UnlinkOk(t, dp, off, ip);
      inodes := inodes[dp := inodes[dp].(entries := PutEntry(inodes[dp].entries, off, FREE))];
      if inodes[ip].kind == IsDir { inodes := inodes[dp := inodes[dp].(nlink := inodes[dp].nlink - 1)]; }
      inodes := inodes[ip := inodes[ip].(nlink := inodes[ip].nlink - 1)];
      assert inodes == Unlinking(t, dp, off, ip);
      assert inodes[dp].nlink > 0 by { ParentStays(t, dp, off, ip); }
      var gone := Iput(dp, true);
      gone := Iput(ip, true);
    }
  }

  lemma RootOk(t: Inodes)
    requires t == map[ROOT := Node(IsDir, 1, [Dirent(ROOT, DOT), Dirent(ROOT, DOTDOT)])]
    ensures TreeOk(t)
  {
    assert |DOT| != |DOTDOT|;
    assert DirOk(ROOT, t[ROOT].entries);
    forall d: Inum, k: nat, i: Inum | Names(t, d, k, i) ensures d == ROOT && k == 1 && i == ROOT { }
    assert Names(t, ROOT, 1, ROOT);
    assert Climbs(t, ROOT, 0);
    hide Names;
    assert Links(t, ROOT) == {(ROOT, 1)};
  }

  /** What an entry of a directory names is in use and linked, but for the ".." of a removed directory. */
  lemma EntryLive(t: Inodes, d: Inum, k: nat)
    requires TreeOk(t) && d in t && t[d].kind.IsDir? && k < |t[d].entries| && t[d].entries[k].inum != 0
    ensures t[d].entries[k].inum !in t ==> t[d].nlink == 0 && t[d].entries[k].name == DOTDOT
    ensures Linked(t, d) ==> t[d].entries[k].inum in t && t[t[d].entries[k].inum].nlink >= 1
    ensures !Linked(t, d) ==>
              (t[d].entries[k].name == DOT && t[d].entries[k].inum == d) || t[d].entries[k].name == DOTDOT
  {
    if Linked(t, d) { LinkedEntry(t, d, k); } else { RemovedEntry(t, d, k); }
  }

  lemma LinkedEntry(t: Inodes, d: Inum, k: nat)
    requires TreeOk(t) && Linked(t, d) && k < |t[d].entries| && t[d].entries[k].inum != 0
    ensures t[d].entries[k].inum in t && t[t[d].entries[k].inum].nlink >= 1
  {
    if t[d].entries[k].name == DOT {
      assert DirOk(d, t[d].entries);
    } else {
      assert Names(t, d, k, t[d].entries[k].inum);
      hide DirsOk, OneName, Reached, Rooted, Links;
      NamedCount(t, d, k, t[d].entries[k].inum);
    }
  }

  lemma RemovedEntry(t: Inodes, d: Inum, k: nat)
    requires TreeOk(t) && d in t && t[d].kind.IsDir? && !Linked(t, d) && k < |t[d].entries| && t[d].entries[k].inum != 0
    ensures t[d].nlink == 0 && k < 2 && (t[d].entries[k].name == DOT || t[d].entries[k].name == DOTDOT)
    ensures t[d].entries[k].name == DOT ==> t[d].entries[k].inum == d
  {
    hide ShapeOk, CountsOk, DirsOk;
    Counted(t, d);
    DirParts(t, d);
  }

  lemma DirParts(t: Inodes, d: Inum)
    requires DirsOk(t) && d in t && t[d].kind.IsDir?
    ensures DirOk(d, t[d].entries) && (t[d].nlink == 0 ==> Empty(t[d].entries))
  {
  }

  /** An exact count is not negative. */
  lemma Counted(t: Inodes, i: Inum)
    requires TreeOk(t) && i in t
    ensures t[i].nlink >= 0 && i != 0
  {
    hide Links;
  }

  /** A name not found is neither "." nor "..". */
  lemma {:induction false} NewName(t: Inodes, d: Inum, name: string)
    requires TreeOk(t) && d in t && t[d].kind.IsDir? && Find(t[d].entries, name, 0) == |t[d].entries|
    ensures name != DOT && name != DOTDOT
  {
    assert DirOk(d, t[d].entries);
  }

  /** Whatever create makes, dp stays and its count does not become 0. */
  lemma MadeKeeps(t: Inodes, d: Inum, name: string, i: Inum, kind: Kind)
    requires d in t && i !in t && t[d].nlink >= 0
    ensures var u := if kind.IsDir? then MakingDir(t, d, name, i) else Creating(t, d, name, i, kind);
            && u.Keys == t.Keys + {i} && (u[d].nlink == 0 ==> t[d].nlink == 0)
  {
  }

  /** A file just created is found under its name. */
  lemma MadeFound(t: Inodes, d: Inum, name: string, i: Inum)
    requires Linked(t, d) && i !in t && i != 0 && Find(t[d].entries, name, 0) == |t[d].entries|
    ensures var u := Creating(t, d, name, i, IsFile);
      && Linked(u, d) && i in u && u[i].kind.IsFile?
      && var es := u[d].entries; var k := Find(es, name, 0); k < |es| && es[k].inum == i
  {
    var u := Creating(t, d, name, i, IsFile);
    CreatingMakes(t, d, name, i, IsFile);
    FindHas(u[d].entries, name);
    assert Finds(u, d, name, i);
    var k := Find(u[d].entries, name, 0);
    if k < |u[d].entries| { assert Finds(u, d, name, u[d].entries[k].inum); }
  }

  lemma {:induction false} AnEntry(t: Inodes, d: Inum, k: nat, name: string)
    requires TreeOk(t) && d in t && t[d].kind.IsDir? && k == Find(t[d].entries, name, 0) < |t[d].entries|
    requires name != DOT && name != DOTDOT
    ensures Linked(t, d) && Holds(t, d, k, t[d].entries[k].inum) && DirOk(d, t[d].entries)
    ensures t[d].entries[k] == Dirent(t[d].entries[k].inum, name) && t[d].entries[k].inum != 0
    ensures t[d].entries[k].inum in t && t[t[d].entries[k].inum].nlink >= 1
  {
    assert DirOk(d, t[d].entries);
    EntryLive(t, d, k);
  }

  lemma ParentStays(t: Inodes, d: Inum, k: nat, i: Inum)
    requires TreeOk(t) && CanUnlink(t, d, k, i) && d in t && d != i && k < |t[d].entries| && t[i].nlink > 0
             && t[d].nlink > 0
    ensures Unlinking(t, d, k, i)[d].nlink > 0
  {
    hide DirsOk, Targets, OneName, Reached, CountsOk, Links;
    if t[i].kind.IsDir? {
      EmptyDir(t, d, k, i);
      StaysLinked(t, d, i);
    }
  }
}
