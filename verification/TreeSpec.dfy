/** Directories and link counts: what create, link and unlink of sysfile.c do to the inodes. A directory's
    contents are its 16-byte entries in order; an entry with inode number 0 is free. */
module TreeSpec {

  type Inum = nat

  const ROOT: Inum := 1

  datatype Kind = IsFile | IsDir | IsDev

  datatype Dirent = Dirent(inum: Inum, name: string)

  /** A link count is a short (file.h:22, fs.h:31). */
  type Short = x: int | -0x8000 <= x < 0x8000

  const MAXLINK: Short := 0x7FFF

  function Wrap(n: int): Short {
    (n + 0x8000) % 0x1_0000 - 0x8000
  }

  datatype Node = Node(kind: Kind, nlink: Short, entries: seq<Dirent>)

  /** The inodes in use. */
  type Inodes = map<Inum, Node>

  const DOT := "."
  const DOTDOT := ".."
  const FREE := Dirent(0, "")

  /** A directory that can be reached: removed ones that are still open do not count. */
  predicate Linked(t: Inodes, d: Inum) {
    d in t && t[d].kind.IsDir? && t[d].nlink > 0
  }

  /** Entry k of the linked directory d names inode i; "." is not counted (sysfile.c:266). */
  predicate Names(t: Inodes, d: Inum, k: nat, i: Inum) {
    Linked(t, d) && k < |t[d].entries| && t[d].entries[k].inum == i && t[d].entries[k].name != DOT
  }

  /** All entries that name i. */
  function Links(t: Inodes, i: Inum): set<(Inum, nat)> {
    set d, k | d in t && 0 <= k < |t[d].entries| && Names(t, d, k, i) :: (d, k)
  }

  /** Where ".." leads. */
  function Parent(t: Inodes, d: Inum): Inum {
    if d in t && |t[d].entries| >= 2 then t[d].entries[1].inum else 0
  }

  /** "." and ".." come first and occur nowhere else; no name occurs twice. */
  predicate DirOk(d: Inum, es: seq<Dirent>) {
    && |es| >= 2 && es[0] == Dirent(d, DOT) && es[1].name == DOTDOT && es[1].inum != 0 && d != 0
    && (forall k :: 2 <= k < |es| && es[k].inum != 0 ==> es[k].name != DOT && es[k].name != DOTDOT)
    && (forall k, l :: 0 <= k < l < |es| && es[k].inum != 0 && es[l].inum != 0 ==> es[k].name != es[l].name)
  }

  predicate DirsOk(t: Inodes) {
    && 0 !in t && Linked(t, ROOT) && Parent(t, ROOT) == ROOT
    && (forall d :: d in t && t[d].kind.IsDir? ==> DirOk(d, t[d].entries))
    && RemovedEmpty(t)
  }

  /** rmdir removes empty directories only, and nothing is created in a removed one. */
  predicate RemovedEmpty(t: Inodes) {
    forall d :: d in t && t[d].kind.IsDir? && t[d].nlink == 0 ==> Empty(t[d].entries)
  }

  /** An entry other than "." and "..". */
  predicate Holds(t: Inodes, d: Inum, k: nat, i: Inum) {
    k >= 2 && i != 0 && Names(t, d, k, i)
  }

  /** Entries of linked directories name inodes in use. */
  ghost predicate Targets(t: Inodes) {
    forall d: Inum, k: nat, i: Inum :: Names(t, d, k, i) && i != 0 ==> i in t
  }

  /** A directory is named in its parent only, and once; the root is named nowhere. */
  ghost predicate OneName(t: Inodes) {
    && (forall d: Inum, k: nat, i: Inum :: Holds(t, d, k, i) && i in t && t[i].kind.IsDir? ==>
       i != ROOT && Parent(t, i) == d)
    && (forall d: Inum, k: nat, l: nat, i: Inum ::
          Holds(t, d, k, i) && Holds(t, d, l, i) && i in t && t[i].kind.IsDir? ==> k == l)
  }

  /** Every linked directory but the root is named in its parent. */
  ghost predicate Reached(t: Inodes) {
    forall c: Inum :: Linked(t, c) && c != ROOT ==> exists k: nat :: Holds(t, Parent(t, c), k, c)
  }

  /** From d it takes n steps up ".." to the root, through linked directories. */
  ghost predicate Climbs(t: Inodes, d: Inum, n: nat)
    decreases n
  {
    if n == 0 then d == ROOT else d != ROOT && Linked(t, d) && Climbs(t, Parent(t, d), n - 1)
  }

  /** From every linked directory ".." leads to the root. */
  ghost predicate Rooted(t: Inodes) {
    forall d: Inum :: Linked(t, d) ==> exists n: nat :: Climbs(t, d, n)
  }

  ghost predicate ShapeOk(t: Inodes) {
    Targets(t) && OneName(t) && Reached(t) && Rooted(t)
  }

  /** Every link count is the number of entries that name the inode. */
  predicate CountsOk(t: Inodes) {
    forall i :: i in t ==> t[i].nlink == |Links(t, i)|
  }

  ghost predicate TreeOk(t: Inodes) {
    DirsOk(t) && ShapeOk(t) && CountsOk(t)
  }

  // -------- Scanning a directory --------

  /** The entry with that name, or the length (fs.c:541-553). */
  function Find(es: seq<Dirent>, name: string, k: nat): (r: nat)
    requires k <= |es|
    ensures k <= r <= |es| && (r < |es| ==> es[r].inum != 0 && es[r].name == name)
    ensures forall j :: k <= j < r ==> es[j].inum == 0 || es[j].name != name
    decreases |es| - k
  {
    if k == |es| || (es[k].inum != 0 && es[k].name == name) then k else Find(es, name, k + 1)
  }

  /** The first free entry, or the length (fs.c:573-578). */
  function FreeAt(es: seq<Dirent>, k: nat): (r: nat)
    requires k <= |es|
    ensures k <= r <= |es| && (r < |es| ==> es[r].inum == 0)
    ensures forall j :: k <= j < r ==> es[j].inum != 0
    decreases |es| - k
  {
    if k == |es| || es[k].inum == 0 then k else FreeAt(es, k + 1)
  }

  predicate Empty(es: seq<Dirent>) {
    forall k :: 2 <= k < |es| ==> es[k].inum == 0
  }

  function PutEntry(es: seq<Dirent>, k: nat, e: Dirent): (r: seq<Dirent>)
    requires k <= |es|
    ensures |r| >= |es| && k < |r| && r[k] == e && forall j :: 0 <= j < |es| && j != k ==> r[j] == es[j]
    ensures |r| == if k < |es| then |es| else k + 1
  {
    if k < |es| then es[k := e] else es + [e]
  }

  // -------- The operations --------

  function WithEntry(t: Inodes, d: Inum, k: nat, e: Dirent): Inodes
    requires d in t && k <= |t[d].entries|
  {
    t[d := t[d].(entries := PutEntry(t[d].entries, k, e))]
  }

  function Relink(t: Inodes, i: Inum, n: Short): Inodes
    requires i in t
  {
    t[i := t[i].(nlink := n)]
  }

  /** link (sysfile.c:135-142): the inode gets a name in d. */
  function Linking(t: Inodes, d: Inum, name: string, i: Inum): Inodes
    requires d in t && i in t && d != i
  {
    WithEntry(Relink(t, i, Wrap(t[i].nlink + 1)), d, FreeAt(t[d].entries, 0), Dirent(i, name))
  }

  /** create of a file or device (sysfile.c:254-272). */
  function Creating(t: Inodes, d: Inum, name: string, i: Inum, kind: Kind): Inodes
    requires d in t && i !in t
  {
    WithEntry(t[i := Node(kind, 1, [])], d, FreeAt(t[d].entries, 0), Dirent(i, name))
  }

  /** create of a directory. */
  function MakingDir(t: Inodes, d: Inum, name: string, i: Inum): Inodes
    requires d in t && i !in t
  {
    var u := Relink(t, d, Wrap(t[d].nlink + 1))[i := Node(IsDir, 1, [Dirent(i, DOT), Dirent(d, DOTDOT)])];
    WithEntry(u, d, FreeAt(t[d].entries, 0), Dirent(i, name))
  }

  /** unlink (sysfile.c:211-221) of entry k of d, which names i. */
  function Unlinking(t: Inodes, d: Inum, k: nat, i: Inum): Inodes
    requires d in t && k <= |t[d].entries| && i in t && d != i && t[i].nlink > 0 && t[d].nlink > 0
  {
    var u := WithEntry(t, d, k, FREE);
    var v := if t[i].kind.IsDir? then Relink(u, d, t[d].nlink - 1) else u;
    Relink(v, i, t[i].nlink - 1)
  }

  // -------- Adding a name --------

  /** After the change, the names are those of t and `more`. */
  ghost predicate Gains(t: Inodes, u: Inodes, more: set<(Inum, nat, Inum)>) {
    forall d: Inum, k: nat, j: Inum :: j != 0 ==> (Names(u, d, k, j) <==> Names(t, d, k, j) || (d, k, j) in more)
  }

  /** Entry k of d was free, and d has no entry with that name. */
  predicate CanName(t: Inodes, d: Inum, k: nat, name: string, i: Inum) {
    && Linked(t, d) && k <= |t[d].entries| && (k < |t[d].entries| ==> t[d].entries[k].inum == 0)
    && name != DOT && name != DOTDOT && i != 0
    && forall j :: 0 <= j < |t[d].entries| && t[d].entries[j].inum != 0 ==> t[d].entries[j].name != name
  }

  lemma LinksOne(t: Inodes, u: Inodes, more: set<(Inum, nat, Inum)>, j: Inum)
    requires Gains(t, u, more) && j != 0 && forall x :: x in more ==> x.2 != j
    ensures Links(u, j) == Links(t, j)
  {
    forall x | x in Links(t, j) ensures x in Links(u, j) { assert Names(u, x.0, x.1, j); }
    forall x | x in Links(u, j) ensures x in Links(t, j) { assert Names(t, x.0, x.1, j); }
  }

  lemma LinksMore(t: Inodes, u: Inodes, more: set<(Inum, nat, Inum)>, d: Inum, k: nat, j: Inum)
    requires Gains(t, u, more) && j != 0 && (d, k, j) in more && !Names(t, d, k, j)
    requires forall x :: x in more && x.2 == j ==> x == (d, k, j)
    ensures Links(u, j) == Links(t, j) + {(d, k)} && |Links(u, j)| == |Links(t, j)| + 1
  {
    assert Names(u, d, k, j);
    forall x | x in Links(t, j) ensures x in Links(u, j) { assert Names(u, x.0, x.1, j); }
    forall x | x in Links(u, j)
      ensures x in Links(t, j) + {(d, k)} { assert Names(t, x.0, x.1, j) || (x.0, x.1, j) in more; }
    assert (d, k) !in Links(t, j);
  }

  /** A new name in d for an inode i that is not a directory. */
  lemma NamingGains(t: Inodes, v: Inodes, d: Inum, k: nat, name: string, i: Inum)
    requires CanName(t, d, k, name, i) && d in v && v[d].entries == t[d].entries && v[d].kind == t[d].kind
             && v[d].nlink > 0
    requires forall e :: e != d ==> (Linked(v, e) <==> Linked(t, e)) && (Linked(t, e) ==> v[e].entries == t[e].entries)
    ensures Gains(t, WithEntry(v, d, k, Dirent(i, name)), {(d, k, i)})
    ensures !Names(t, d, k, i)
  {
    var u := WithEntry(v, d, k, Dirent(i, name));
    forall e: Inum, l: nat, j: Inum | j != 0
      ensures Names(u, e, l, j) <==> Names(t, e, l, j) || (e, l, j) in {(d, k, i)} {
      if e != d { assert Linked(u, e) <==> Linked(v, e); }
    }
  }

  lemma DirPut(d: Inum, es: seq<Dirent>, k: nat, name: string, i: Inum)
    requires DirOk(d, es) && k <= |es| && (k < |es| ==> es[k].inum == 0) && name != DOT && name != DOTDOT
    requires forall j :: 0 <= j < |es| && es[j].inum != 0 ==> es[j].name != name
    ensures k >= 2 && DirOk(d, PutEntry(es, k, Dirent(i, name)))
  {
  }

  /** i, no directory, is given one more name and one more link. */
  predicate OneMore(t: Inodes, v: Inodes, i: Inum) {
    && v.Keys == t.Keys + {i} && !v[i].kind.IsDir? && (i in t ==> !t[i].kind.IsDir?)
    && forall j :: j in t && j != i ==> v[j] == t[j]
  }

  /** u is t with one more name, entry k of d, for the inode i. */
  ghost predicate NameStep(t: Inodes, u: Inodes, d: Inum, k: nat, i: Inum) {
    && Gains(t, u, {(d, k, i)}) && !Names(t, d, k, i) && i != 0 && k >= 2
    && u.Keys == t.Keys + {i} && !u[i].kind.IsDir? && (i in t ==> !t[i].kind.IsDir?)
    && forall e :: e in t && e != i ==>
       e in u && u[e].kind == t[e].kind && u[e].nlink == t[e].nlink && Parent(u, e) == Parent(t, e)
  }

  lemma NamedDirs(t: Inodes, v: Inodes, d: Inum, k: nat, name: string, i: Inum)
    requires DirsOk(t) && CanName(t, d, k, name, i) && OneMore(t, v, i)
    ensures d in v && DirsOk(WithEntry(v, d, k, Dirent(i, name)))
            && NameStep(t, WithEntry(v, d, k, Dirent(i, name)), d, k, i)
  {
    DirPut(d, t[d].entries, k, name, i);
    NamingGains(t, v, d, k, name, i);
  }

  lemma NamedTargets(t: Inodes, u: Inodes, d: Inum, k: nat, i: Inum)
    requires Targets(t) && NameStep(t, u, d, k, i)
    ensures Targets(u)
  {
    hide Names;
  }

  lemma NamedOnce(t: Inodes, u: Inodes, d: Inum, k: nat, i: Inum)
    requires OneName(t) && NameStep(t, u, d, k, i)
    ensures OneName(u)
  {
    forall e: Inum, l: nat, j: Inum | Holds(u, e, l, j) && j in u && u[j].kind.IsDir?
      ensures Holds(t, e, l, j) && j in t && t[j].kind.IsDir? && Parent(u, j) == Parent(t, j) {
      assert Names(t, e, l, j) || (e, l, j) in {(d, k, i)};
    }
    hide Names, Holds;
  }

  lemma NamedReached(t: Inodes, u: Inodes, d: Inum, k: nat, i: Inum)
    requires Reached(t) && NameStep(t, u, d, k, i)
    ensures Reached(u)
  {
    forall c: Inum | Linked(u, c) && c != ROOT ensures exists l: nat :: Holds(u, Parent(u, c), l, c) {
      assert Linked(t, c);
      var l: nat :| Holds(t, Parent(t, c), l, c);
      assert Holds(u, Parent(u, c), l, c);
    }
  }

  /** Where parents stay and every linked directory is still named, ".." leads to the root as before. */
  lemma {:induction false} ClimbsKept(t: Inodes, u: Inodes, c: Inum, n: nat)
    requires Climbs(t, c, n) && Linked(u, c) && Reached(u)
    requires forall e: Inum :: Linked(t, e) && Linked(u, e) ==> Parent(u, e) == Parent(t, e)
    ensures Climbs(u, c, n)
    decreases n
  {
    if n > 0 {
      ReachedAt(u, c);
      ClimbsKept(t, u, Parent(t, c), n - 1);
    }
  }

  lemma RootedKept(t: Inodes, u: Inodes)
    requires Rooted(t) && Reached(u)
    requires forall e: Inum :: Linked(u, e) ==> Linked(t, e) && Parent(u, e) == Parent(t, e)
    ensures Rooted(u)
  {
    hide Reached;
    forall c: Inum | Linked(u, c) ensures exists n: nat :: Climbs(u, c, n) {
      var n: nat :| Climbs(t, c, n);
      ClimbsKept(t, u, c, n);
    }
  }

  lemma ReachedAt(t: Inodes, c: Inum)
    requires Reached(t) && Linked(t, c) && c != ROOT
    ensures exists k: nat :: Holds(t, Parent(t, c), k, c)
    ensures Linked(t, Parent(t, c))
  {
  }

  lemma NamedRooted(t: Inodes, u: Inodes, d: Inum, k: nat, i: Inum)
    requires Rooted(t) && Reached(u) && NameStep(t, u, d, k, i)
    ensures Rooted(u)
  {
    hide Rooted, Reached, Gains, Parent, Names;
    RootedKept(t, u);
  }

  lemma NamedCounts(t: Inodes, u: Inodes, d: Inum, k: nat, i: Inum)
    requires CountsOk(t) && NameStep(t, u, d, k, i) && u[i].nlink == |Links(t, i)| + 1 && 0 !in t
    ensures CountsOk(u)
  {
    hide Names, Links;
    forall j | j in u ensures u[j].nlink == |Links(u, j)| {
      if j == i { LinksMore(t, u, {(d, k, i)}, d, k, i); } else { LinksOne(t, u, {(d, k, i)}, j); }
    }
  }

  lemma NamedOk(t: Inodes, v: Inodes, d: Inum, k: nat, name: string, i: Inum)
    requires TreeOk(t) && CanName(t, d, k, name, i) && OneMore(t, v, i) && v[i].nlink == |Links(t, i)| + 1
    ensures d in v && TreeOk(WithEntry(v, d, k, Dirent(i, name)))
  {
    NamedDirs(t, v, d, k, name, i);
    var u := WithEntry(v, d, k, Dirent(i, name));
    assert 0 !in t && d != i && u[i].nlink == v[i].nlink;
    hide Targets, OneName, Reached, Rooted, CountsOk, DirsOk, NameStep, Links;
    NamedShape(t, u, d, k, i);
    NamedCounts(t, u, d, k, i);
  }

  lemma NamedShape(t: Inodes, u: Inodes, d: Inum, k: nat, i: Inum)
    requires ShapeOk(t) && NameStep(t, u, d, k, i)
    ensures ShapeOk(u)
  {
    hide Targets, OneName, Reached, Rooted, NameStep;
    NamedTargets(t, u, d, k, i);
    NamedOnce(t, u, d, k, i);
    NamedReached(t, u, d, k, i);
    NamedRooted(t, u, d, k, i);
  }

  /** An inode that is not in use has no name. */
  lemma Unnamed(t: Inodes, i: Inum)
    requires ShapeOk(t) && i !in t && i != 0
    ensures Links(t, i) == {}
  {
  }

  // -------- Making a directory --------

  /** u is t with the new directory i, named by entry k of d; its own ".." names d. */
  ghost predicate DirStep(t: Inodes, u: Inodes, d: Inum, k: nat, i: Inum) {
    && Gains(t, u, {(d, k, i), (i, 1, d)}) && i != 0 && k >= 2 && d in t && d != 0
    && i !in t && u.Keys == t.Keys + {i} && u[i].kind.IsDir? && u[i].nlink == 1 && Parent(u, i) == d
    && (forall e :: e in t ==>
       u[e].kind == t[e].kind && Parent(u, e) == Parent(t, e) && (Linked(u, e) <==> Linked(t, e)))
    && forall e :: e in t ==> u[e].nlink == if e == d then t[d].nlink + 1 else t[e].nlink
  }

  lemma MadeDirs(t: Inodes, d: Inum, k: nat, name: string, i: Inum)
    requires DirsOk(t) && CanName(t, d, k, name, i) && i !in t && k == FreeAt(t[d].entries, 0) && t[d].nlink < MAXLINK
    ensures DirsOk(MakingDir(t, d, name, i)) && DirStep(t, MakingDir(t, d, name, i), d, k, i)
  {
    hide RemovedEmpty;
    var u := MakingDir(t, d, name, i);
    DirPut(d, t[d].entries, k, name, i);
    MadeEmpty(t, d, name, i);
    MadeNames(t, d, k, name, i);
  }

  lemma MadeEmpty(t: Inodes, d: Inum, name: string, i: Inum)
    requires RemovedEmpty(t) && Linked(t, d) && i !in t && t[d].nlink < MAXLINK
    ensures RemovedEmpty(MakingDir(t, d, name, i))
  {
  }

  lemma MadeNames(t: Inodes, d: Inum, k: nat, name: string, i: Inum)
    requires CanName(t, d, k, name, i) && i !in t && k == FreeAt(t[d].entries, 0) && t[d].nlink < MAXLINK
    requires |t[d].entries| >= 2
    ensures Gains(t, MakingDir(t, d, name, i), {(d, k, i), (i, 1, d)})
  {
    var u := MakingDir(t, d, name, i);
    assert |DOT| != |DOTDOT|;
    forall e: Inum, l: nat, j: Inum | j != 0
      ensures Names(u, e, l, j) <==> Names(t, e, l, j) || (e, l, j) in {(d, k, i), (i, 1, d)} {
      if e != d && e != i { assert Linked(u, e) <==> Linked(t, e); }
    }
  }

  lemma MadeShape(t: Inodes, u: Inodes, d: Inum, k: nat, i: Inum)
    requires ShapeOk(t) && DirStep(t, u, d, k, i) && Linked(t, d) && ROOT in t
    ensures ShapeOk(u)
  {
    hide Targets, OneName, Reached, Rooted, DirStep;
    MadeTargets(t, u, d, k, i);
    MadeOnce(t, u, d, k, i);
    MadeReached(t, u, d, k, i);
    MadeRooted(t, u, d, k, i);
  }

  /** A directory named in u is the new one, or was named in t. */
  lemma MadeHolds(t: Inodes, u: Inodes, d: Inum, k: nat, i: Inum, e: Inum, l: nat, j: Inum)
    requires DirStep(t, u, d, k, i) && Holds(u, e, l, j) && j in u && u[j].kind.IsDir?
    ensures (j == i && e == d && l == k) || (j != i && j in t && t[j].kind.IsDir? && Holds(t, e, l, j)
                                             && Parent(u, j) == Parent(t, j)) || (j == i && Holds(t, e, l, i))
  {
    assert Names(t, e, l, j) || (e, l, j) in {(d, k, i), (i, 1, d)};
  }

  lemma MadeOnce(t: Inodes, u: Inodes, d: Inum, k: nat, i: Inum)
    requires Targets(t) && OneName(t) && DirStep(t, u, d, k, i) && ROOT in t
    ensures OneName(u)
  {
    assert Parent(u, i) == d && i != ROOT;
    forall e: Inum, l: nat ensures !Holds(t, e, l, i) { NewUnnamed(t, e, l, i); }
    forall e: Inum, l: nat, j: Inum | Holds(u, e, l, j) && j in u && u[j].kind.IsDir?
      ensures (j == i && e == d && l == k)
              || (j != i && j in t && t[j].kind.IsDir? && Holds(t, e, l, j) && Parent(u, j) == Parent(t, j))
    {
      MadeHolds(t, u, d, k, i, e, l, j);
    }
    hide Names, Holds, DirStep, Parent, Targets;
  }

  lemma MadeRooted(t: Inodes, u: Inodes, d: Inum, k: nat, i: Inum)
    requires Rooted(t) && Reached(u) && DirStep(t, u, d, k, i) && Linked(t, d) && ROOT in t
    ensures Rooted(u)
  {
    hide Reached, Gains, Names, Parent;
    forall c: Inum | Linked(u, c) ensures exists n: nat :: Climbs(u, c, n) {
      var e := if c == i then d else c;
      var n: nat :| Climbs(t, e, n);
      ClimbsKept(t, u, e, n);
      if c == i { assert Climbs(u, i, n + 1); }
    }
  }

  lemma MadeTargets(t: Inodes, u: Inodes, d: Inum, k: nat, i: Inum)
    requires Targets(t) && DirStep(t, u, d, k, i)
    ensures Targets(u)
  {
    forall e: Inum, l: nat, j: Inum | Names(u, e, l, j) && j != 0 ensures j in u {
      assert Names(t, e, l, j) || (e, l, j) in {(d, k, i), (i, 1, d)};
    }
  }

  lemma MadeReached(t: Inodes, u: Inodes, d: Inum, k: nat, i: Inum)
    requires Reached(t) && DirStep(t, u, d, k, i)
    ensures Reached(u)
  {
    forall c: Inum | Linked(u, c) && c != ROOT ensures exists l: nat :: Holds(u, Parent(u, c), l, c) {
      if c == i {
        assert (d, k, i) in {(d, k, i), (i, 1, d)};
        assert Holds(u, d, k, i);
      } else {
        var l: nat :| Holds(t, Parent(t, c), l, c);
        assert Holds(u, Parent(u, c), l, c);
      }
    }
  }

  lemma NewUnnamed(t: Inodes, d: Inum, k: nat, i: Inum)
    requires Targets(t) && i !in t && i != 0
    ensures Links(t, i) == {} && !Names(t, d, k, i) && !Names(t, i, 1, d) && !Holds(t, d, k, i)
  {
  }

  lemma MadeCounts(t: Inodes, u: Inodes, d: Inum, k: nat, i: Inum)
    requires Targets(t) && CountsOk(t) && DirStep(t, u, d, k, i) && 0 !in t
    ensures CountsOk(u)
  {
    hide Names, Links, Targets, Linked;
    var more := {(d, k, i), (i, 1, d)};
    NewUnnamed(t, d, k, i);
    forall j | j in u ensures u[j].nlink == |Links(u, j)| {
      if j == i {
        LinksMore(t, u, more, d, k, i);
      } else if j == d {
        LinksMore(t, u, more, i, 1, d);
      } else {
        LinksOne(t, u, more, j);
      }
    }
  }

  // -------- Removing a name --------

  /** After the change, the names are those of t without `less`. */
  ghost predicate Loses(t: Inodes, u: Inodes, less: set<(Inum, nat, Inum)>) {
    forall d: Inum, k: nat, j: Inum :: j != 0 ==> (Names(u, d, k, j) <==> Names(t, d, k, j) && (d, k, j) !in less)
  }

  lemma LinksSame(t: Inodes, u: Inodes, less: set<(Inum, nat, Inum)>, j: Inum)
    requires Loses(t, u, less) && j != 0 && forall x :: x in less ==> x.2 != j
    ensures Links(u, j) == Links(t, j)
  {
    forall x | x in Links(t, j) ensures x in Links(u, j) { assert Names(u, x.0, x.1, j); }
    forall x | x in Links(u, j) ensures x in Links(t, j) { assert Names(t, x.0, x.1, j); }
  }

  lemma LinksFewer(t: Inodes, u: Inodes, less: set<(Inum, nat, Inum)>, d: Inum, k: nat, j: Inum)
    requires Loses(t, u, less) && j != 0 && (d, k, j) in less && Names(t, d, k, j)
    requires forall x :: x in less && x.2 == j ==> x == (d, k, j)
    ensures |Links(u, j)| == |Links(t, j)| - 1
  {
    forall x | x in Links(t, j) && x != (d, k) ensures x in Links(u, j) { assert Names(u, x.0, x.1, j); }
    forall x | x in Links(u, j) ensures x in Links(t, j) && x != (d, k) { assert Names(t, x.0, x.1, j); }
    assert Links(t, j) == Links(u, j) + {(d, k)} && (d, k) !in Links(u, j);
  }

  /** No ".." leads to a directory without entries. */
  lemma NoChild(t: Inodes, i: Inum, e: Inum)
    requires DirsOk(t) && Reached(t) && i in t && Empty(t[i].entries) && i != ROOT && Linked(t, e)
    ensures !Names(t, e, 1, i)
  {
    assert DirOk(e, t[e].entries);
  }

  lemma OnlyName(t: Inodes, d: Inum, k: nat, i: Inum, e: Inum, l: nat)
    requires DirsOk(t) && ShapeOk(t) && Holds(t, d, k, i) && i in t && t[i].kind.IsDir? && Empty(t[i].entries)
             && Names(t, e, l, i)
    ensures (e, l) == (d, k)
  {
    assert DirOk(e, t[e].entries) && i != ROOT;
    NoChild(t, i, e);
    hide Reached, Targets, Empty;
    assert l >= 2 && Holds(t, e, l, i);
  }

  /** A directory without entries has one link. */
  lemma EmptyDir(t: Inodes, d: Inum, k: nat, i: Inum)
    requires TreeOk(t) && Holds(t, d, k, i) && i in t && t[i].kind.IsDir? && Empty(t[i].entries)
    ensures t[i].nlink == 1 && Parent(t, i) == d && i != ROOT && i != d
  {
    hide DirsOk, Empty, Links, Names, Reached, Targets, OneName;
    InParent(t, d, k, i);
    OneLink(t, d, k, i);
  }

  lemma InParent(t: Inodes, d: Inum, k: nat, i: Inum)
    requires OneName(t) && Holds(t, d, k, i) && i in t && t[i].kind.IsDir? && Empty(t[i].entries)
    ensures Parent(t, i) == d && i != ROOT && i != d
  {
  }

  lemma OneLink(t: Inodes, d: Inum, k: nat, i: Inum)
    requires DirsOk(t) && ShapeOk(t) && Holds(t, d, k, i) && i in t && t[i].kind.IsDir? && Empty(t[i].entries)
    ensures Links(t, i) == {(d, k)}
  {
    hide ShapeOk, DirsOk, Empty;
    forall x | x in Links(t, i) ensures x == (d, k) { OnlyName(t, d, k, i, x.0, x.1); }
    assert (d, k) in Links(t, i);
  }

  /** Another entry than the ".." of i names d. */
  lemma OtherName(t: Inodes, d: Inum, i: Inum) returns (e: Inum, l: nat)
    requires DirsOk(t) && Reached(t) && Linked(t, d) && i != ROOT
    ensures Names(t, e, l, d) && (e, l) != (i, 1)
  {
    if d == ROOT {
      assert DirOk(ROOT, t[ROOT].entries);
      e, l := ROOT, 1;
    } else {
      var m: nat :| Holds(t, Parent(t, d), m, d);
      e, l := Parent(t, d), m;
    }
  }

  /** A directory that holds another has at least two links. */
  lemma StaysLinked(t: Inodes, d: Inum, i: Inum)
    requires TreeOk(t) && Linked(t, d) && Linked(t, i) && i != ROOT && Parent(t, i) == d
    ensures t[d].nlink >= 2 && Names(t, i, 1, d)
  {
    assert DirOk(i, t[i].entries);
    assert t[d].nlink == |Links(t, d)|;
    hide DirsOk, CountsOk, Reached, Targets, OneName;
    var e, l := OtherName(t, d, i);
    assert (i, 1) in Links(t, d) && (e, l) in Links(t, d);
    Two(Links(t, d), (i, 1), (e, l));
  }

  lemma Two(s: set<(Inum, nat)>, x: (Inum, nat), y: (Inum, nat))
    requires x in s && y in s && x != y
    ensures |s| >= 2
  {
    assert s == (s - {x} - {y}) + {x} + {y};
  }

  /** The names that go when i loses entry k of d: that one and, for a directory, its "..". */
  function Gone(t: Inodes, d: Inum, k: nat, i: Inum): set<(Inum, nat, Inum)>
    requires i in t
  {
    if t[i].kind.IsDir? then {(d, k, i), (i, 1, d)} else {(d, k, i)}
  }

  /** Entry k of d names i, and unlink may take it away. */
  predicate CanUnlink(t: Inodes, d: Inum, k: nat, i: Inum) {
    Holds(t, d, k, i) && i in t && (t[i].kind.IsDir? ==> Empty(t[i].entries))
  }

  ghost predicate UnlinkStep(t: Inodes, u: Inodes, d: Inum, k: nat, i: Inum) {
    && CanUnlink(t, d, k, i) && d != i && Loses(t, u, Gone(t, d, k, i)) && u.Keys == t.Keys && Names(t, d, k, i)
    && (t[i].kind.IsDir? ==> Names(t, i, 1, d) && !Linked(u, i) && i != ROOT)
    && (forall e :: e in t ==>
       u[e].kind == t[e].kind && Parent(u, e) == Parent(t, e) && (Linked(u, e) ==> Linked(t, e)))
    && forall e :: e in t ==> u[e].nlink == t[e].nlink - (if e == i || (e == d && t[i].kind.IsDir?) then 1 else 0)
  }

  /** What a name in a linked directory guarantees (sysfile.c:204-205 never panics). */
  lemma NamedCount(t: Inodes, d: Inum, k: nat, i: Inum)
    requires CountsOk(t) && Names(t, d, k, i) && i in t
    ensures t[i].nlink >= 1
  {
    assert (d, k) in Links(t, i);
  }

  lemma UnlinkFile(t: Inodes, d: Inum, k: nat, i: Inum)
    requires DirsOk(t) && CanUnlink(t, d, k, i) && !t[i].kind.IsDir? && t[i].nlink > 0
    ensures d != i && DirsOk(Unlinking(t, d, k, i)) && UnlinkStep(t, Unlinking(t, d, k, i), d, k, i)
  {
    assert DirOk(d, t[d].entries);
    UnlinkFileNames(t, d, k, i);
    hide Gone;
  }

  lemma UnlinkFileNames(t: Inodes, d: Inum, k: nat, i: Inum)
    requires CanUnlink(t, d, k, i) && !t[i].kind.IsDir? && t[i].nlink > 0
    ensures d != i && Loses(t, Unlinking(t, d, k, i), Gone(t, d, k, i))
  {
    var u := Unlinking(t, d, k, i);
    forall e: Inum, l: nat, j: Inum | j != 0
      ensures Names(u, e, l, j) <==> Names(t, e, l, j) && (e, l, j) !in Gone(t, d, k, i) {
      if e != d { assert Linked(u, e) <==> Linked(t, e); }
    }
  }

  lemma UnlinkDir(t: Inodes, d: Inum, k: nat, i: Inum)
    requires DirsOk(t) && CanUnlink(t, d, k, i) && t[i].kind.IsDir? && t[i].nlink == 1 && Parent(t, i) == d
             && i != ROOT && d != i && t[d].nlink >= 2
    ensures DirsOk(Unlinking(t, d, k, i)) && UnlinkStep(t, Unlinking(t, d, k, i), d, k, i)
  {
    hide RemovedEmpty;
    assert DirOk(d, t[d].entries) && DirOk(i, t[i].entries);
    UnlinkDirEmpty(t, d, k, i);
    UnlinkDirNames(t, d, k, i);
  }

  lemma UnlinkDirEmpty(t: Inodes, d: Inum, k: nat, i: Inum)
    requires RemovedEmpty(t) && CanUnlink(t, d, k, i) && t[i].kind.IsDir? && t[i].nlink == 1 && d != i
             && t[d].nlink >= 2
    ensures RemovedEmpty(Unlinking(t, d, k, i))
  {
  }

  lemma UnlinkDirNames(t: Inodes, d: Inum, k: nat, i: Inum)
    requires CanUnlink(t, d, k, i) && t[i].kind.IsDir? && t[i].nlink == 1 && d != i && t[d].nlink >= 2
    requires DirOk(i, t[i].entries) && Parent(t, i) == d
    ensures Loses(t, Unlinking(t, d, k, i), Gone(t, d, k, i))
  {
    var u := Unlinking(t, d, k, i);
    forall e: Inum, l: nat, j: Inum | j != 0
      ensures Names(u, e, l, j) <==> Names(t, e, l, j) && (e, l, j) !in Gone(t, d, k, i) {
      if e != d && e != i { assert Linked(u, e) <==> Linked(t, e); }
    }
  }

  lemma UnlinkShape(t: Inodes, u: Inodes, d: Inum, k: nat, i: Inum)
    requires ShapeOk(t) && UnlinkStep(t, u, d, k, i)
    ensures ShapeOk(u)
  {
    hide Targets, OneName, Reached, Rooted, UnlinkStep;
    UnlinkTargets(t, u, d, k, i);
    UnlinkReached(t, u, d, k, i);
    assert forall e: Inum :: Linked(u, e) ==> Linked(t, e) && Parent(u, e) == Parent(t, e) by {
      UnlinkParents(t, u, d, k, i);
    }
    RootedKept(t, u);
  }

  lemma UnlinkParents(t: Inodes, u: Inodes, d: Inum, k: nat, i: Inum)
    requires UnlinkStep(t, u, d, k, i)
    ensures forall e: Inum :: Linked(u, e) ==> Linked(t, e) && Parent(u, e) == Parent(t, e)
  {
    hide Parent, Loses, Names;
  }

  lemma UnlinkTargets(t: Inodes, u: Inodes, d: Inum, k: nat, i: Inum)
    requires Targets(t) && OneName(t) && UnlinkStep(t, u, d, k, i)
    ensures Targets(u) && OneName(u)
  {
    forall e: Inum, l: nat, j: Inum | j != 0 && Names(u, e, l, j) ensures Names(t, e, l, j) { }
    assert Targets(u) by { hide Names, Linked; }
    assert OneName(u) by {
      forall e: Inum, l: nat, j: Inum | Holds(u, e, l, j) ensures Holds(t, e, l, j) { }
      hide Names, Holds;
    }
  }

  lemma UnlinkReached(t: Inodes, u: Inodes, d: Inum, k: nat, i: Inum)
    requires Reached(t) && UnlinkStep(t, u, d, k, i)
    ensures Reached(u)
  {
    hide UnlinkStep, Holds;
    forall c: Inum | Linked(u, c) && c != ROOT ensures exists l: nat :: Holds(u, Parent(u, c), l, c) {
      UnlinkParents(t, u, d, k, i);
      var l: nat :| Holds(t, Parent(t, c), l, c);
      UnlinkHolds(t, u, d, k, i, Parent(t, c), l, c);
    }
  }

  /** A directory that stays keeps its name. */
  lemma UnlinkHolds(t: Inodes, u: Inodes, d: Inum, k: nat, i: Inum, e: Inum, l: nat, c: Inum)
    requires UnlinkStep(t, u, d, k, i) && Holds(t, e, l, c) && Linked(u, c)
    ensures Holds(u, e, l, c)
  {
    assert (e, l, c) !in Gone(t, d, k, i);
    hide Names, Linked, CanUnlink, Parent;
    assert Names(u, e, l, c);
  }

  lemma UnlinkCounts(t: Inodes, u: Inodes, d: Inum, k: nat, i: Inum)
    requires CountsOk(t) && UnlinkStep(t, u, d, k, i) && 0 !in t
    ensures CountsOk(u)
  {
    hide Names, Links, Linked;
    var less := Gone(t, d, k, i);
    forall j | j in u ensures u[j].nlink == |Links(u, j)| {
      if j == i { LinksFewer(t, u, less, d, k, i); }
      else if j == d && t[i].kind.IsDir? { LinksFewer(t, u, less, i, 1, d); }
      else { LinksSame(t, u, less, j); }
    }
  }

  /** unlink keeps every link count exact. */
  lemma UnlinkOk(t: Inodes, d: Inum, k: nat, i: Inum)
    requires TreeOk(t) && CanUnlink(t, d, k, i)
    ensures d in t && d != i && k < |t[d].entries| && t[i].nlink > 0 && t[d].nlink > 0
    ensures TreeOk(Unlinking(t, d, k, i))
  {
    NamedCount(t, d, k, i);
    assert 0 !in t;
    hide DirsOk, Targets, OneName, Reached, CountsOk;
    if t[i].kind.IsDir? {
      EmptyDir(t, d, k, i);
      StaysLinked(t, d, i);
      UnlinkDir(t, d, k, i);
    } else {
      UnlinkFile(t, d, k, i);
    }
    hide UnlinkStep;
    UnlinkShape(t, Unlinking(t, d, k, i), d, k, i);
    UnlinkCounts(t, Unlinking(t, d, k, i), d, k, i);
  }

  lemma {:induction false} LinkOk(t: Inodes, d: Inum, name: string, i: Inum)
    requires TreeOk(t) && Linked(t, d) && i in t && !t[i].kind.IsDir? && name != DOT && name != DOTDOT
    requires Find(t[d].entries, name, 0) == |t[d].entries| && t[i].nlink < MAXLINK
    ensures d != i && TreeOk(Linking(t, d, name, i))
  {
    hide Targets, OneName, Reached, Rooted, Links;
    assert i != 0 && t[i].nlink == |Links(t, i)|;
    NamedOk(t, Relink(t, i, Wrap(t[i].nlink + 1)), d, FreeAt(t[d].entries, 0), name, i);
  }

  lemma {:induction false} CreateOk(t: Inodes, d: Inum, name: string, i: Inum, kind: Kind)
    requires TreeOk(t) && Linked(t, d) && i !in t && i != 0 && !kind.IsDir? && name != DOT && name != DOTDOT
    requires Find(t[d].entries, name, 0) == |t[d].entries|
    ensures TreeOk(Creating(t, d, name, i, kind))
  {
    hide DirsOk, Targets, OneName, Reached, Rooted, CountsOk, Links;
    UnnamedNew(t, i);
    NamedOk(t, t[i := Node(kind, 1, [])], d, FreeAt(t[d].entries, 0), name, i);
  }

  lemma UnnamedNew(t: Inodes, i: Inum)
    requires ShapeOk(t) && i !in t && i != 0
    ensures |Links(t, i)| == 0
  {
    hide Links;
    Unnamed(t, i);
  }

  lemma Basics(t: Inodes)
    requires DirsOk(t)
    ensures 0 !in t && ROOT in t
  {
  }

  lemma {:induction false} MakeDirOk(t: Inodes, d: Inum, name: string, i: Inum)
    requires TreeOk(t) && Linked(t, d) && i !in t && i != 0 && name != DOT && name != DOTDOT
    requires Find(t[d].entries, name, 0) == |t[d].entries| && t[d].nlink < MAXLINK
    ensures TreeOk(MakingDir(t, d, name, i))
  {
    hide OneName, Reached, Rooted, Targets, CountsOk, DirStep, DirsOk, MakingDir;
    Basics(t);
    var k, u := FreeAt(t[d].entries, 0), MakingDir(t, d, name, i);
    MadeDirs(t, d, k, name, i);
    MadeShape(t, u, d, k, i);
    MadeCounts(t, u, d, k, i);
  }

  // -------- Freeing an inode --------

  ghost predicate FreeStep(t: Inodes, u: Inodes, i: Inum) {
    && i in t && t[i].nlink == 0 && u == t - {i}
    && forall e: Inum, l: nat, j: Inum :: Names(u, e, l, j) <==> Names(t, e, l, j)
  }

  lemma FreeNames(t: Inodes, i: Inum)
    requires i in t && t[i].nlink == 0
    ensures FreeStep(t, t - {i}, i)
  {
  }

  lemma FreeDirs(t: Inodes, u: Inodes, i: Inum)
    requires DirsOk(t) && FreeStep(t, u, i)
    ensures DirsOk(u)
  {
  }

  lemma FreeTargets(t: Inodes, u: Inodes, i: Inum)
    requires Targets(t) && FreeStep(t, u, i) && Links(t, i) == {}
    ensures Targets(u)
  {
    forall e: Inum, l: nat, j: Inum | Names(u, e, l, j) && j != 0 ensures j in u {
      assert Names(t, e, l, j);
      assert (e, l) in Links(t, j);
    }
  }

  lemma FreeShape(t: Inodes, u: Inodes, i: Inum)
    requires OneName(t) && Reached(t) && Rooted(t) && FreeStep(t, u, i)
    ensures OneName(u) && Reached(u) && Rooted(u)
  {
    FreeReached(t, u, i);
    assert Rooted(u) by {
      hide Reached, Rooted, Names;
      RootedKept(t, u);
    }
    assert OneName(u) by {
      forall e: Inum, l: nat, j: Inum | Holds(u, e, l, j) && j in u
        ensures Holds(t, e, l, j) && Parent(u, j) == Parent(t, j) { }
      hide Names, Holds;
    }
  }

  lemma FreeReached(t: Inodes, u: Inodes, i: Inum)
    requires Reached(t) && FreeStep(t, u, i)
    ensures Reached(u)
  {
    forall c: Inum | Linked(u, c) && c != ROOT ensures exists l: nat :: Holds(u, Parent(u, c), l, c) {
      assert Linked(t, c);
      var l: nat :| Holds(t, Parent(t, c), l, c);
      assert Holds(u, Parent(u, c), l, c);
    }
  }

  lemma FreeCounts(t: Inodes, u: Inodes, i: Inum)
    requires CountsOk(t) && FreeStep(t, u, i) && 0 !in t
    ensures CountsOk(u)
  {
    assert Loses(t, u, {});
    hide Names, Links;
    forall j | j in u ensures u[j].nlink == |Links(u, j)| { LinksSame(t, u, {}, j); }
  }

  /** iput frees an inode without links: no entry names it, and everything else stays (fs.c:321-333). */
  lemma FreeOk(t: Inodes, i: Inum)
    requires TreeOk(t) && i in t && t[i].nlink == 0
    ensures Links(t, i) == {} && TreeOk(t - {i})
  {
    assert Links(t, i) == {} && 0 !in t;
    hide DirsOk, Targets, OneName, Reached, Rooted, CountsOk, Links, FreeStep;
    FreeNames(t, i);
    FreeDirs(t, t - {i}, i);
    FreeTargets(t, t - {i}, i);
    FreeShape(t, t - {i}, i);
    FreeCounts(t, t - {i}, i);
  }

  /** In a directory that has been removed but is still open, create makes an inode whose count no entry
      backs: the counts stay exact if and only if the parent directory is linked. */
  lemma {:induction false} CreateExact(t: Inodes, d: Inum, name: string, i: Inum, kind: Kind)
    requires TreeOk(t) && d in t && t[d].kind.IsDir? && i !in t && i != 0 && !kind.IsDir? && name != DOT
             && name != DOTDOT
    requires Find(t[d].entries, name, 0) == |t[d].entries|
    ensures TreeOk(Creating(t, d, name, i, kind)) <==> Linked(t, d)
  {
    hide DirsOk, OneName, Reached, Rooted;
    if Linked(t, d) {
      CreateOk(t, d, name, i, kind);
    } else {
      var u := Creating(t, d, name, i, kind);
      assert forall e: Inum, l: nat :: Names(u, e, l, i) ==> Names(t, e, l, i);
      assert Links(u, i) == {} && u[i].nlink == 1;
    }
  }

  /** So it is for link, which also overflows the count of an inode with 32767 links. */
  lemma {:induction false} LinkExact(t: Inodes, d: Inum, name: string, i: Inum)
    requires TreeOk(t) && d in t && t[d].kind.IsDir? && i in t && !t[i].kind.IsDir? && name != DOT && name != DOTDOT
    requires Find(t[d].entries, name, 0) == |t[d].entries|
    ensures d != i && (TreeOk(Linking(t, d, name, i)) <==> Linked(t, d) && t[i].nlink < MAXLINK)
  {
    hide DirsOk, OneName, Reached, Rooted, Targets, Links, Linking;
    LinkedCount(t, d, name, i);
    if !Linked(t, d) {
      LinkedSame(t, d, name, i);
    } else if t[i].nlink < MAXLINK {
      LinkOk(t, d, name, i);
    }
  }

  lemma LinkedCount(t: Inodes, d: Inum, name: string, i: Inum)
    requires d in t && i in t && d != i
    ensures i in Linking(t, d, name, i) && Linking(t, d, name, i)[i].nlink == Wrap(t[i].nlink + 1)
  {
  }

  lemma LinkedSame(t: Inodes, d: Inum, name: string, i: Inum)
    requires d in t && t[d].kind.IsDir? && !Linked(t, d) && i in t && !t[i].kind.IsDir?
    ensures Links(Linking(t, d, name, i), i) == Links(t, i)
  {
    var u := Linking(t, d, name, i);
    forall e: Inum ensures Linked(u, e) <==> Linked(t, e) { }
    forall e: Inum, l: nat ensures Names(u, e, l, i) <==> Names(t, e, l, i) { }
    hide Names, Linking;
    assert Links(u, i) == Links(t, i);
  }

  /** And for mkdir, which gives a removed directory a link from ".." again, though no entry leads to it, and
      overflows the count of a parent with 32767 links. */
  lemma {:induction false} MakeDirExact(t: Inodes, d: Inum, name: string, i: Inum)
    requires TreeOk(t) && d in t && t[d].kind.IsDir? && i !in t && i != 0 && name != DOT && name != DOTDOT
    requires Find(t[d].entries, name, 0) == |t[d].entries|
    ensures TreeOk(MakingDir(t, d, name, i)) <==> Linked(t, d) && t[d].nlink < MAXLINK
  {
    hide Targets, OneName, Reached, Rooted, Links;
    if !Linked(t, d) {
      MadeInRemoved(t, d, name, i);
    } else if t[d].nlink < MAXLINK {
      MakeDirOk(t, d, name, i);
    } else {
      assert MakingDir(t, d, name, i)[d].nlink == -0x8000;
    }
  }

  lemma MadeInRemoved(t: Inodes, d: Inum, name: string, i: Inum)
    requires TreeOk(t) && d in t && t[d].kind.IsDir? && !Linked(t, d) && i !in t && i != 0 && name != DOT
    requires Find(t[d].entries, name, 0) == |t[d].entries|
    ensures !TreeOk(MakingDir(t, d, name, i))
  {
    hide OneName, Targets, Links, MakingDir, Reached, Rooted;
    MadeLinks(t, d, name, i);
    var u, p := MakingDir(t, d, name, i), Parent(t, d);
    if p == d {
      Two(Links(u, d), (d, 1), (i, 1));
    } else if Reached(u) {
      ReachedAt(u, d);
      var l: nat :| Holds(u, p, l, d);
      assert Names(t, p, l, d);
      NamedCount(t, p, l, d);
    }
  }

  lemma MadeLinks(t: Inodes, d: Inum, name: string, i: Inum)
    requires DirsOk(t) && d in t && t[d].kind.IsDir? && t[d].nlink == 0 && i !in t && i != 0
    ensures var u := MakingDir(t, d, name, i);
            && d in u && u[d].nlink == 1 && Linked(u, d) && d != ROOT && Parent(u, d) == Parent(t, d)
            && (i, 1) in Links(u, d) && (Parent(t, d) == d ==> (d, 1) in Links(u, d))
            && forall p: Inum, l: nat :: p != d && Holds(u, p, l, d) ==> Names(t, p, l, d)
  {
    var u := MakingDir(t, d, name, i);
    assert DirOk(d, t[d].entries);
    NotFree(t[d].entries, 0, 2);
    assert Names(u, i, 1, d);
    if Parent(t, d) == d { assert Names(u, d, 1, d); }
  }

  lemma {:induction false} NotFree(es: seq<Dirent>, k: nat, n: nat)
    requires k <= n <= |es| && forall j :: k <= j < n ==> es[j].inum != 0
    ensures FreeAt(es, k) >= n
  {
  }

  /** rmdir leaves such a directory behind while it is open. */
  lemma RemovedStays(t: Inodes, d: Inum, k: nat, i: Inum)
    requires TreeOk(t) && CanUnlink(t, d, k, i) && t[i].kind.IsDir?
    ensures d in t && d != i && k < |t[d].entries| && t[i].nlink > 0 && t[d].nlink > 0
    ensures var u := Unlinking(t, d, k, i); TreeOk(u) && i in u && u[i].kind.IsDir? && !Linked(u, i)
  {
    UnlinkOk(t, d, k, i);
    EmptyDir(t, d, k, i);
  }

  /** The root, a removed directory and a removed file, both still open. */
  function Leftover(): (t: Inodes)
    ensures t.Keys == {ROOT, 2, 3}
  {
    map[ROOT := Node(IsDir, 1, [Dirent(ROOT, DOT), Dirent(ROOT, DOTDOT)]),
        2 := Node(IsDir, 0, [Dirent(2, DOT), Dirent(ROOT, DOTDOT)]),
        3 := Node(IsFile, 0, [])]
  }

  lemma LeftoverOk()
    ensures TreeOk(Leftover())
  {
    var t := Leftover();
    assert |DOT| != |DOTDOT|;
    assert DirOk(ROOT, t[ROOT].entries) && DirOk(2, t[2].entries);
    forall d: Inum, k: nat, i: Inum | Names(t, d, k, i) ensures d == ROOT && k == 1 && i == ROOT { }
    assert Names(t, ROOT, 1, ROOT);
    assert Climbs(t, ROOT, 0);
    hide Names;
    assert Links(t, ROOT) == {(ROOT, 1)} && Links(t, 2) == {} && Links(t, 3) == {};
  }

  /** There, creating a file or a directory, or giving the file a name, breaks the counts. */
  lemma {:induction false} RemovedParent(name: string)
    requires name != DOT && name != DOTDOT
    ensures var t := Leftover();
            && TreeOk(t) && !TreeOk(Creating(t, 2, name, 4, IsFile))
            && !TreeOk(MakingDir(t, 2, name, 4)) && !TreeOk(Linking(t, 2, name, 3))
  {
    var t := Leftover();
    LeftoverOk();
    hide TreeOk;
    NotFound(t[2].entries, name, 0);
    CreateExact(t, 2, name, 4, IsFile);
    MakeDirExact(t, 2, name, 4);
    LinkExact(t, 2, name, 3);
  }

  lemma {:induction false} NotFound(es: seq<Dirent>, name: string, k: nat)
    requires k <= |es| && forall j :: k <= j < |es| ==> es[j].inum == 0 || es[j].name != name
    ensures Find(es, name, k) == |es|
  {
  }

  // -------- The directories form a tree --------

  /** k steps up "..". */
  function Up(t: Inodes, d: Inum, k: nat): Inum {
    if k == 0 then d else Parent(t, Up(t, d, k - 1))
  }

  lemma {:induction false} UpFrom(t: Inodes, d: Inum, k: nat)
    requires k > 0
    ensures Up(t, d, k) == Up(t, Parent(t, d), k - 1)
  {
    if k > 1 { UpFrom(t, d, k - 1); }
  }

  lemma {:induction false} UpClimbs(t: Inodes, d: Inum, n: nat, k: nat)
    requires Climbs(t, d, n) && k <= n
    ensures Climbs(t, Up(t, d, k), n - k)
    decreases n
  {
    if k > 0 {
      UpFrom(t, d, k);
      UpClimbs(t, Parent(t, d), n - 1, k - 1);
    }
  }

  lemma {:induction false} ClimbOnce(t: Inodes, d: Inum, m: nat, n: nat)
    requires Climbs(t, d, m) && Climbs(t, d, n)
    ensures m == n
    decreases m
  {
    if m > 0 { ClimbOnce(t, Parent(t, d), m - 1, n - 1); }
  }

  lemma {:induction false} UpAtRoot(t: Inodes, d: Inum, n: nat, k: nat)
    requires Parent(t, ROOT) == ROOT && Climbs(t, d, n) && n <= k
    ensures Up(t, d, k) == ROOT
    decreases k
  {
    if k == n { UpClimbs(t, d, n, n); } else { UpAtRoot(t, d, n, k - 1); }
  }

  /** In every consistent tree ".." leads from each linked directory to the root, and from none but the root
      back to itself. */
  lemma {:induction false} NoCycle(t: Inodes, d: Inum) returns (n: nat)
    requires TreeOk(t) && Linked(t, d)
    ensures Up(t, d, n) == ROOT && Climbs(t, d, n)
    ensures forall k: nat :: k > 0 && Up(t, d, k) == d ==> d == ROOT
  {
    hide DirsOk, Targets, OneName, Reached, CountsOk, Climbs, Up;
    RootUp(t);
    n :| Climbs(t, d, n);
    UpAtRoot(t, d, n, n);
    forall k: nat | k > 0 && Up(t, d, k) == d ensures d == ROOT { BackAtRoot(t, d, n, k); }
  }

  lemma RootUp(t: Inodes)
    requires DirsOk(t)
    ensures Parent(t, ROOT) == ROOT
  {
  }

  lemma BackAtRoot(t: Inodes, d: Inum, n: nat, k: nat)
    requires Parent(t, ROOT) == ROOT && Climbs(t, d, n) && k > 0 && Up(t, d, k) == d
    ensures d == ROOT
  {
    hide Climbs, Up;
    if k <= n {
      UpClimbs(t, d, n, k);
      ClimbOnce(t, d, n, n - k);
    } else {
      UpAtRoot(t, d, n, k);
    }
  }

  // -------- Counts that have wrapped around --------

  /** Every link count is the number of entries that name the inode, up to multiples of 65536. */
  predicate CountsWrap(t: Inodes) {
    forall i :: i in t ==> t[i].nlink == Wrap(|Links(t, i)|)
  }

  ghost predicate WrapOk(t: Inodes) {
    DirsOk(t) && ShapeOk(t) && CountsWrap(t)
  }

  /** Counts are exact as long as no inode has more than 32767 links. */
  lemma WrapExact(t: Inodes)
    requires WrapOk(t)
    ensures TreeOk(t) <==> forall i :: i in t ==> |Links(t, i)| <= MAXLINK
  {
    hide DirsOk, ShapeOk, Links;
  }

  lemma WrapNext(n: nat)
    ensures Wrap(Wrap(n) + 1) == Wrap(n + 1)
  {
  }

  /** link goes on in this way whatever the count. */
  lemma {:induction false} LinkWraps(t: Inodes, d: Inum, name: string, i: Inum)
    requires WrapOk(t) && Linked(t, d) && i in t && !t[i].kind.IsDir? && name != DOT && name != DOTDOT
    requires Find(t[d].entries, name, 0) == |t[d].entries|
    ensures d != i && WrapOk(Linking(t, d, name, i))
    ensures |Links(Linking(t, d, name, i), i)| == |Links(t, i)| + 1
  {
    hide Targets, OneName, Reached, Rooted, Links, Wrap;
    assert i != 0;
    WrapNext(|Links(t, i)|);
    NamedWrapOk(t, Relink(t, i, Wrap(t[i].nlink + 1)), d, FreeAt(t[d].entries, 0), name, i);
  }

  lemma NamedWrapOk(t: Inodes, v: Inodes, d: Inum, k: nat, name: string, i: Inum)
    requires WrapOk(t) && CanName(t, d, k, name, i) && OneMore(t, v, i) && v[i].nlink == Wrap(|Links(t, i)| + 1)
    ensures d in v && WrapOk(WithEntry(v, d, k, Dirent(i, name)))
    ensures |Links(WithEntry(v, d, k, Dirent(i, name)), i)| == |Links(t, i)| + 1
  {
    hide Wrap;
    NamedDirs(t, v, d, k, name, i);
    var u := WithEntry(v, d, k, Dirent(i, name));
    assert 0 !in t && d != i && u[i].nlink == v[i].nlink;
    hide Targets, OneName, Reached, Rooted, CountsWrap, DirsOk, NameStep, Links;
    NamedShape(t, u, d, k, i);
    NamedWraps(t, u, d, k, i);
  }

  lemma NamedWraps(t: Inodes, u: Inodes, d: Inum, k: nat, i: Inum)
    requires CountsWrap(t) && NameStep(t, u, d, k, i) && u[i].nlink == Wrap(|Links(t, i)| + 1) && 0 !in t
    ensures CountsWrap(u) && |Links(u, i)| == |Links(t, i)| + 1
  {
    hide Names, Links, Wrap;
    LinksMore(t, u, {(d, k, i)}, d, k, i);
    forall j | j in u ensures u[j].nlink == Wrap(|Links(u, j)|) {
      if j != i { LinksOne(t, u, {(d, k, i)}, j); }
    }
  }

  /** Names of five letters, 65536 of them. */
  function Name(n: nat): string {
    ['f', Letter(n / 4096 % 16), Letter(n / 256 % 16), Letter(n / 16 % 16), Letter(n % 16)]
  }

  function Letter(k: nat): char
    requires k < 16
  {
    "abcdefghijklmnop"[k]
  }

  lemma LetterOnce(a: nat, b: nat)
    requires a < 16 && b < 16 && Letter(a) == Letter(b)
    ensures a == b
  {
  }

  lemma NameOnce(m: nat, n: nat)
    requires m < 0x1_0000 && n < 0x1_0000 && Name(m) == Name(n)
    ensures m == n
  {
    assert Name(m)[1] == Name(n)[1] && Name(m)[2] == Name(n)[2] && Name(m)[3] == Name(n)[3] && Name(m)[4] == Name(n)[4];
    LetterOnce(m / 4096 % 16, n / 4096 % 16);
    LetterOnce(m / 256 % 16, n / 256 % 16);
    LetterOnce(m / 16 % 16, n / 16 % 16);
    LetterOnce(m % 16, n % 16);
    NameDigits(m);
    NameDigits(n);
  }

  lemma NameDigits(n: nat)
    requires n < 0x1_0000
    ensures n == 4096 * (n / 4096 % 16) + 256 * (n / 256 % 16) + 16 * (n / 16 % 16) + n % 16
  {
  }

  /** A file, inode 2, with n names in the root directory. */
  function ManyEntries(n: nat): (es: seq<Dirent>)
    ensures |es| == n + 2
  {
    [Dirent(ROOT, DOT), Dirent(ROOT, DOTDOT)] + seq(n, j requires 0 <= j < n => Dirent(2, Name(j)))
  }

  function Many(n: nat): Inodes {
    map[ROOT := Node(IsDir, 1, ManyEntries(n)), 2 := Node(IsFile, Wrap(n), [])]
  }

  lemma ManyFresh(n: nat)
    requires n < 0x1_0000
    ensures Find(ManyEntries(n), Name(n), 0) == n + 2 && FreeAt(ManyEntries(n), 0) == n + 2
    ensures Name(n) != DOT && Name(n) != DOTDOT
  {
    hide Name;
    var es := ManyEntries(n);
    NameLong(n);
    forall k | 0 <= k < |es| ensures es[k].inum != 0 && es[k].name != Name(n) {
      if k >= 2 && es[k].name == Name(n) { NameOnce(k - 2, n); }
    }
    hide ManyEntries;
    NotFound(es, Name(n), 0);
    NotFree(es, 0, |es|);
  }

  lemma NameLong(n: nat)
    ensures |Name(n)| == 5 && Name(n) != DOT && Name(n) != DOTDOT
  {
    assert |Name(n)| == 5 && |DOT| == 1 && |DOTDOT| == 2;
  }

  /** One more link gives one more name. */
  lemma LinkMany(n: nat)
    requires n < 0x1_0000
    ensures Linking(Many(n), ROOT, Name(n), 2) == Many(n + 1)
  {
    hide Name, ManyEntries, Wrap, FreeAt;
    ManyFresh(n);
    MoreEntries(n);
    WrapNext(n);
    var u := Relink(Many(n), 2, Wrap(n + 1));
    assert u == map[ROOT := Node(IsDir, 1, ManyEntries(n)), 2 := Node(IsFile, Wrap(n + 1), [])];
  }

  lemma MoreEntries(n: nat)
    ensures PutEntry(ManyEntries(n), n + 2, Dirent(2, Name(n))) == ManyEntries(n + 1)
  {
    hide Name;
    assert ManyEntries(n + 1) == ManyEntries(n) + [Dirent(2, Name(n))];
  }

  lemma {:induction false} ManyOk(n: nat)
    requires n <= 0x1_0000
    ensures WrapOk(Many(n)) && |Links(Many(n), 2)| == n
  {
    if n == 0 {
      NoneOk();
    } else {
      ManyOk(n - 1);
      ManyFresh(n - 1);
      LinkMany(n - 1);
      hide WrapOk, Links, ManyEntries, Name;
      LinkWraps(Many(n - 1), ROOT, Name(n - 1), 2);
    }
  }

  lemma NoneOk()
    ensures WrapOk(Many(0)) && Links(Many(0), 2) == {}
  {
    var t := Many(0);
    assert |DOT| != |DOTDOT|;
    assert DirOk(ROOT, t[ROOT].entries);
    forall d: Inum, k: nat, i: Inum | Names(t, d, k, i) ensures d == ROOT && k == 1 && i == ROOT { }
    assert Names(t, ROOT, 1, ROOT);
    assert Climbs(t, ROOT, 0);
    hide Names;
    assert Links(t, ROOT) == {(ROOT, 1)} && Links(t, 2) == {};
  }

  /** The 32768th link makes the count negative: the panic of sysfile.c:204 awaits every unlink of the file. */
  lemma UnlinkPanics()
    ensures TreeOk(Many(0x7FFF)) && Linked(Many(0x7FFF), ROOT)
    ensures Linking(Many(0x7FFF), ROOT, Name(0x7FFF), 2) == Many(0x8000) && !TreeOk(Many(0x8000))
    ensures Many(0x8000)[2].nlink < 1 && |Links(Many(0x8000), 2)| == 0x8000
  {
    hide Many, WrapOk, TreeOk, Links, Name;
    ManyOk(0x7FFF);
    ManyOk(0x8000);
    LinkMany(0x7FFF);
    ManyNodes(0x7FFF);
    ManyNodes(0x8000);
    WrapExact(Many(0x7FFF));
    WrapExact(Many(0x8000));
    RootLinks(0x7FFF);
  }

  lemma ManyNodes(n: nat)
    ensures Many(n).Keys == {ROOT, 2} && Many(n)[2].nlink == Wrap(n) && Linked(Many(n), ROOT)
  {
  }

  lemma RootLinks(n: nat)
    requires n <= 0x1_0000
    ensures |Links(Many(n), ROOT)| <= 1
  {
    var t := Many(n);
    hide Name;
    forall x | x in Links(t, ROOT) ensures x == (ROOT, 1) {
      assert Names(t, x.0, x.1, ROOT);
    }
    hide Many;
    OneAtMost(Links(t, ROOT), (ROOT, 1));
  }

  lemma OneAtMost(s: set<(Inum, nat)>, x: (Inum, nat))
    requires forall y :: y in s ==> y == x
    ensures |s| <= 1
  {
    if s != {} { assert s == {x}; }
  }

  /** With the 65536th the count is 0: when link gives up its reference, iput (fs.c:321) frees an inode that all
      these entries still name. */
  lemma FreedNamed()
    ensures Linking(Many(0xFFFF), ROOT, Name(0xFFFF), 2) == Many(0x1_0000)
    ensures Many(0x1_0000)[2].nlink == 0 && |Links(Many(0x1_0000), 2)| == 0x1_0000
    ensures !Targets(Many(0x1_0000) - {2})
  {
    hide Many, WrapOk, Links, Name, Targets;
    LinkMany(0xFFFF);
    ManyOk(0x1_0000);
    ManyNodes(0x1_0000);
    StillNamed(0x1_0000);
  }

  lemma StillNamed(n: nat)
    requires n > 0
    ensures !Targets(Many(n) - {2})
  {
    var u := Many(n) - {2};
    assert u[ROOT].entries[2] == Dirent(2, Name(0)) && |Name(0)| == 5;
    hide Many, Name;
    assert Names(u, ROOT, 2, 2);
  }
}
