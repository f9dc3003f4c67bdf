/** What looking a name up finds, before and after create, link and unlink. */
module TreeNames {
  import opened TreeSpec

  /** An entry in use with that name and that inode. */
  predicate Has(es: seq<Dirent>, name: string, i: Inum) {
    i != 0 && Dirent(i, name) in es
  }

  /** Looking `name` up in directory d finds inode i. */
  predicate Finds(t: Inodes, d: Inum, name: string, i: Inum) {
    d in t && Has(t[d].entries, name, i)
  }

  lemma {:induction false} FindHas(es: seq<Dirent>, name: string)
    ensures var k := Find(es, name, 0);
            if k < |es| then Has(es, name, es[k].inum) else forall i :: !Has(es, name, i)
  {
  }

  /** In a directory of a consistent tree a name leads to one inode. */
  lemma FindsOne(t: Inodes, d: Inum, name: string, i: Inum, j: Inum)
    requires TreeOk(t) && d in t && t[d].kind.IsDir? && Finds(t, d, name, i) && Finds(t, d, name, j)
    ensures i == j
  {
    assert DirOk(d, t[d].entries);
  }

  lemma PutHas(es: seq<Dirent>, k: nat, e: Dirent, name: string, i: Inum)
    requires k <= |es| && (k < |es| ==> es[k].inum == 0)
    ensures Has(PutEntry(es, k, e), name, i) <==> Has(es, name, i) || (e == Dirent(i, name) && i != 0)
  {
    var r := PutEntry(es, k, e);
    if Has(es, name, i) {
      var l :| 0 <= l < |es| && es[l] == Dirent(i, name);
      assert r[l] == es[l];
    }
  }

  /** Nothing but "." and ".." is found in the directory. */
  ghost predicate OnlyDots(t: Inodes, d: Inum) {
    forall m: string, j: Inum :: Finds(t, d, m, j) ==> m == DOT || m == DOTDOT
  }

  lemma EmptyOnlyDots(t: Inodes, d: Inum)
    requires d in t && DirOk(d, t[d].entries)
    ensures Empty(t[d].entries) <==> OnlyDots(t, d)
  {
    var es := t[d].entries;
    if Empty(es) {
      forall m: string, j: Inum | Finds(t, d, m, j) ensures m == DOT || m == DOTDOT {
        var k :| 0 <= k < |es| && es[k] == Dirent(j, m);
      }
    }
    if OnlyDots(t, d) {
      forall k | 2 <= k < |es| ensures es[k].inum == 0 {
        if es[k].inum != 0 { assert Finds(t, d, es[k].name, es[k].inum); }
      }
    }
  }

  /** The name is neither "." nor "..", and leads to a file or to a directory with nothing else in it. */
  ghost predicate Removable(t: Inodes, dp: Inum, name: string) {
    && name != DOT && name != DOTDOT
    && exists i: Inum :: Finds(t, dp, name, i) && i in t && (t[i].kind.IsDir? ==> OnlyDots(t, i))
  }

  /** That is what sys_unlink looks for. */
  lemma RemovableIs(t: Inodes, dp: Inum, name: string)
    requires TreeOk(t) && dp in t && t[dp].kind.IsDir?
    ensures var es := t[dp].entries; var k := Find(es, name, 0);
      Removable(t, dp, name) <==> name != DOT && name != DOTDOT && k < |es| && es[k].inum in t
                                  && (t[es[k].inum].kind.IsDir? ==> Empty(t[es[k].inum].entries))
  {
    hide TreeOk, Finds, OnlyDots, Empty, DirOk, Find;
    FoundOnly(t, dp, name);
    var es := t[dp].entries;
    var k := Find(es, name, 0);
    if k < |es| && es[k].inum in t && t[es[k].inum].kind.IsDir? {
      DirOf(t, es[k].inum);
      EmptyOnlyDots(t, es[k].inum);
    }
  }

  lemma DirOf(t: Inodes, d: Inum)
    requires TreeOk(t) && d in t && t[d].kind.IsDir?
    ensures DirOk(d, t[d].entries)
  {
  }

  /** What dirlookup returns is all that can be found. */
  lemma FoundOnly(t: Inodes, d: Inum, name: string)
    requires TreeOk(t) && d in t && t[d].kind.IsDir?
    ensures var es := t[d].entries; var k := Find(es, name, 0);
      forall j :: Finds(t, d, name, j) <==> k < |es| && j == es[k].inum
  {
    hide TreeOk, Find;
    var es := t[d].entries;
    var k := Find(es, name, 0);
    FindHas(es, name);
    forall j | Finds(t, d, name, j) ensures k < |es| && j == es[k].inum {
      if k < |es| { FindsOne(t, d, name, es[k].inum, j); }
    }
  }

  /** After u the name leads to i, and every other name in every directory of t to what it led to before. */
  ghost predicate Named(t: Inodes, u: Inodes, dp: Inum, name: string, i: Inum) {
    && (forall j :: j in t ==> j in u && u[j].kind == t[j].kind)
    && forall d: Inum, m: string, j: Inum :: d in t ==>
         (Finds(u, d, m, j) <==> if d == dp && m == name then j == i else Finds(t, d, m, j))
  }

  /** create: besides, i is new and of the kind asked for; if it is a directory it has "." and "..", and nothing else.
      */
  ghost predicate Makes(t: Inodes, u: Inodes, dp: Inum, name: string, i: Inum, kind: Kind) {
    && i !in t && u.Keys == t.Keys + {i} && u[i].kind == kind && Named(t, u, dp, name, i)
    && forall m: string, j: Inum :: Finds(u, i, m, j) <==>
         kind.IsDir? && j != 0 && ((m == DOT && j == i) || (m == DOTDOT && j == dp))
  }

  /** unlink: the name is gone, and with it i if it was freed; all else is as before. */
  ghost predicate Dropped(t: Inodes, u: Inodes, dp: Inum, name: string, i: Inum) {
    && Finds(t, dp, name, i) && t.Keys - {i} <= u.Keys <= t.Keys && (forall j :: j in u ==> u[j].kind == t[j].kind)
    && forall d: Inum, m: string, j: Inum ::
         Finds(u, d, m, j) <==> d in u && !(d == dp && m == name) && Finds(t, d, m, j)
  }

  /** Entry and count of v are those of t, but for the new entry. */
  lemma NewEntry(t: Inodes, v: Inodes, dp: Inum, name: string, i: Inum)
    requires dp in t && i != 0 && Find(t[dp].entries, name, 0) == |t[dp].entries|
    requires forall j :: j in t ==> j in v && v[j].kind == t[j].kind && v[j].entries == t[j].entries
    ensures Named(t, WithEntry(v, dp, FreeAt(t[dp].entries, 0), Dirent(i, name)), dp, name, i)
  {
    var k := FreeAt(t[dp].entries, 0);
    var u := WithEntry(v, dp, k, Dirent(i, name));
    FindHas(t[dp].entries, name);
    forall d: Inum, m: string, j: Inum | d in t
      ensures Finds(u, d, m, j) <==> if d == dp && m == name then j == i else Finds(t, d, m, j)
    {
      PutHas(t[dp].entries, k, Dirent(i, name), m, j);
      hide PutEntry, Has;
    }
  }

  lemma CreatingMakes(t: Inodes, dp: Inum, name: string, i: Inum, kind: Kind)
    requires dp in t && i !in t && i != 0 && !kind.IsDir? && Find(t[dp].entries, name, 0) == |t[dp].entries|
    ensures Makes(t, Creating(t, dp, name, i, kind), dp, name, i, kind)
  {
    NewEntry(t, t[i := Node(kind, 1, [])], dp, name, i);
  }

  lemma MakingDirMakes(t: Inodes, dp: Inum, name: string, i: Inum)
    requires dp in t && dp != 0 && i !in t && i != 0 && Find(t[dp].entries, name, 0) == |t[dp].entries|
    ensures Makes(t, MakingDir(t, dp, name, i), dp, name, i, IsDir)
  {
    var own := [Dirent(i, DOT), Dirent(dp, DOTDOT)];
    var v := Relink(t, dp, Wrap(t[dp].nlink + 1))[i := Node(IsDir, 1, own)];
    NewEntry(t, v, dp, name, i);
    var u := MakingDir(t, dp, name, i);
    assert u[i].entries == own;
    hide Named, MakingDir;
    forall m: string, j: Inum
      ensures Finds(u, i, m, j) <==> j != 0 && ((m == DOT && j == i) || (m == DOTDOT && j == dp)) {
      assert own[0] == Dirent(i, DOT) && own[1] == Dirent(dp, DOTDOT);
    }
  }

  lemma LinkingNames(t: Inodes, dp: Inum, name: string, i: Inum)
    requires dp in t && i in t && dp != i && i != 0 && Find(t[dp].entries, name, 0) == |t[dp].entries|
    ensures Linking(t, dp, name, i).Keys == t.Keys && Named(t, Linking(t, dp, name, i), dp, name, i)
    ensures forall j :: !Finds(t, dp, name, j)
  {
    FindHas(t[dp].entries, name);
    NewEntry(t, Relink(t, i, Wrap(t[i].nlink + 1)), dp, name, i);
  }

  lemma ClearHas(d: Inum, es: seq<Dirent>, k: nat, name: string, i: Inum, m: string, j: Inum)
    requires DirOk(d, es) && k < |es| && es[k] == Dirent(i, name) && i != 0
    ensures Has(PutEntry(es, k, FREE), m, j) <==> Has(es, m, j) && m != name
  {
    var r := PutEntry(es, k, FREE);
    if Has(es, m, j) && m != name {
      var l :| 0 <= l < |es| && es[l] == Dirent(j, m);
      assert r[l] == es[l];
    }
    if Has(r, m, j) {
      var l :| 0 <= l < |r| && r[l] == Dirent(j, m);
      assert l != k && r[l] == es[l];
    }
  }

  lemma UnlinkingNames(t: Inodes, u: Inodes, dp: Inum, k: nat, name: string, i: Inum)
    requires dp in t && t[dp].kind.IsDir? && DirOk(dp, t[dp].entries) && k < |t[dp].entries|
    requires t[dp].entries[k] == Dirent(i, name) && i != 0
    requires i in t && dp != i && t[i].nlink > 0 && t[dp].nlink > 0
    requires u == Unlinking(t, dp, k, i) || u == Unlinking(t, dp, k, i) - {i}
    ensures Dropped(t, u, dp, name, i)
  {
    forall d: Inum, m: string, j: Inum
      ensures Finds(u, d, m, j) <==> d in u && !(d == dp && m == name) && Finds(t, d, m, j)
    {
      ClearHas(dp, t[dp].entries, k, name, i, m, j);
      hide Has, PutEntry, DirOk;
    }
  }
}
