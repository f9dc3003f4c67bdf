/** The redo log of log.c as sequences of sector writes, and its recovery from a crash
    after any one of them. Sector writes are atomic. */
module LogSpec {
  import opened Blocks

  const LOGSIZE := 10

  /** A disk cut along the log: the home sectors below log.start, the header sector as
      read_head reads it (the list lh.sector[0..n)), and the log blocks behind the header. */
  datatype Disk = Disk(home: seq<Block>, head: seq<nat>, area: seq<Block>)

  /** The header names home sectors, and no more than there are log blocks. */
  predicate WellFormed(d: Disk) {
    |d.head| <= |d.area| <= LOGSIZE && Below(d.head, |d.home|)
  }

  predicate Below(lh: seq<nat>, bound: nat) {
    forall i :: 0 <= i < |lh| ==> lh[i] < bound
  }

  predicate Clean(d: Disk) {
    WellFormed(d) && d.head == []
  }

  /** One sector write. */
  datatype Write = ToHome(sector: nat, data: Block) | ToHead(lh: seq<nat>) | ToArea(slot: nat, data: Block)

  predicate Fits(d: Disk, w: Write) {
    match w
    case ToHome(s, _) => s < |d.home|
    case ToHead(lh) => |lh| <= |d.area| && Below(lh, |d.home|)
    case ToArea(i, _) => i < |d.area|
  }

  predicate AllFit(d: Disk, ws: seq<Write>) {
    forall i :: 0 <= i < |ws| ==> Fits(d, ws[i])
  }

  function Apply1(d: Disk, w: Write): Disk
    requires Fits(d, w)
  {
    match w
    case ToHome(s, b) => d.(home := d.home[s := b])
    case ToHead(lh) => d.(head := lh)
    case ToArea(i, b) => d.(area := d.area[i := b])
  }

  /** The disk after the first k of some sector writes. */
  function Apply(d: Disk, ws: seq<Write>, k: nat): (r: Disk)
    requires WellFormed(d) && AllFit(d, ws) && k <= |ws|
    ensures WellFormed(r) && |r.home| == |d.home| && |r.area| == |d.area|
  {
    if k == 0 then d else Apply1(Apply(d, ws, k - 1), ws[k - 1])
  }

  // -------- Updates of home sectors --------

  /** An update of one home sector: what log_write is asked to make durable. */
  datatype Update = Update(sector: nat, data: Block)

  predicate Within(us: seq<Update>, bound: nat) {
    forall i :: 0 <= i < |us| ==> us[i].sector < bound
  }

  /** The effect of the first k updates in order: the later one of two on a sector counts. */
  function Redo(home: seq<Block>, us: seq<Update>, k: nat): (r: seq<Block>)
    requires Within(us, |home|) && k <= |us|
    ensures |r| == |home|
  {
    if k == 0 then home else Redo(home, us, k - 1)[us[k - 1].sector := us[k - 1].data]
  }

  function RedoAll(home: seq<Block>, us: seq<Update>): (r: seq<Block>)
    requires Within(us, |home|)
    ensures |r| == |home|
  {
    Redo(home, us, |us|)
  }

  /** The updates a header and log area describe. */
  function Described(lh: seq<nat>, area: seq<Block>): (us: seq<Update>)
    requires |lh| <= |area|
    ensures |us| == |lh|
  {
    seq(|lh|, i requires 0 <= i < |lh| => Update(lh[i], area[i]))
  }

  // -------- log.c --------

  function Installs(us: seq<Update>): (ws: seq<Write>)
    ensures |ws| == |us|
  {
    seq(|us|, i requires 0 <= i < |us| => ToHome(us[i].sector, us[i].data))
  }

  /** install_trans, then the write_head that clears the header (log.c:69-82, 141-142). */
  function InstallAndErase(us: seq<Update>): (ws: seq<Write>)
    ensures |ws| == |us| + 1
  {
    Installs(us) + [ToHead([])]
  }

  /** recover_from_log: install the described updates, then clear the header (log.c:115-122). */
  function RecoverWrites(d: Disk): (ws: seq<Write>)
    requires WellFormed(d)
    ensures AllFit(d, ws) && |ws| == |d.head| + 1
  {
    InstallAndErase(Described(d.head, d.area))
  }

  /** The in-memory header, the sector writes issued so far, and whether log_write has panicked. */
  datatype Logged = Logged(lh: seq<nat>, out: seq<Write>, panicked: bool)

  /** The slot log_write uses for a sector: its earlier slot (absorption) or a new one. */
  function Slot(lh: seq<nat>, s: nat): (i: nat)
    ensures i <= |lh|
    ensures i < |lh| ==> lh[i] == s
    ensures i == |lh| <==> s !in lh
  {
    if |lh| == 0 then 0
    else if lh[0] == s then 0
    else 1 + Slot(lh[1..], s)
  }

  lemma {:induction false} SlotFirst(lh: seq<nat>, s: nat, i: nat)
    requires i <= |lh| && (i < |lh| ==> lh[i] == s) && forall k :: 0 <= k < i ==> lh[k] != s
    ensures Slot(lh, s) == i
  {
    if |lh| > 0 && i > 0 { SlotFirst(lh[1..], s, i - 1); }
  }

  predicate LogFull(room: nat, n: nat) {
    n >= LOGSIZE || n >= room
  }

  function NextHeader(lh: seq<nat>, s: nat): seq<nat> {
    if Slot(lh, s) == |lh| then lh + [s] else lh
  }

  /** log_write with `room` = log.size-1 log blocks (log.c:159-182). */
  function LogWrite(room: nat, t: Logged, u: Update): Logged {
    if t.panicked || LogFull(room, |t.lh|) then t.(panicked := true)
    else Logged(NextHeader(t.lh, u.sector), t.out + [ToArea(Slot(t.lh, u.sector), u.data)], false)
  }

  /** The first k of a transaction's log_write calls. */
  function LogFirst(room: nat, us: seq<Update>, k: nat): Logged
    requires k <= |us|
  {
    if k == 0 then Logged([], [], false) else LogWrite(room, LogFirst(room, us, k - 1), us[k - 1])
  }

  function LogAll(room: nat, us: seq<Update>): Logged {
    LogFirst(room, us, |us|)
  }

  /** commit_trans: write the header, install, erase the header (log.c:138-143). */
  function CommitWrites(lh: seq<nat>, area: seq<Block>): (ws: seq<Write>)
    requires |lh| <= |area|
    ensures |ws| == if |lh| == 0 then 0 else |lh| + 2
  {
    if |lh| == 0 then [] else [ToHead(lh)] + InstallAndErase(Described(lh, area))
  }

  // -------- Lemmas about write sequences --------

  lemma {:induction false} ApplyLeft(d: Disk, a: seq<Write>, b: seq<Write>, k: nat)
    requires WellFormed(d) && AllFit(d, a + b) && AllFit(d, a) && k <= |a|
    ensures Apply(d, a + b, k) == Apply(d, a, k)
  {
    if k > 0 { ApplyLeft(d, a, b, k - 1); }
  }

  lemma {:induction false} ApplyRight(d: Disk, a: seq<Write>, b: seq<Write>, k: nat)
    requires WellFormed(d) && AllFit(d, a) && AllFit(d, b) && k <= |b|
    ensures AllFit(d, a + b) && AllFit(Apply(d, a, |a|), b)
    ensures Apply(d, a + b, |a| + k) == Apply(Apply(d, a, |a|), b, k)
  {
    if k == 0 { ApplyLeft(d, a, b, |a|); } else { ApplyRight(d, a, b, k - 1); }
  }

  lemma {:induction false} ApplyInstalls(d: Disk, us: seq<Update>, k: nat)
    requires WellFormed(d) && Within(us, |d.home|) && k <= |us|
    ensures AllFit(d, InstallAndErase(us))
    ensures Apply(d, InstallAndErase(us), k) == d.(home := Redo(d.home, us, k))
  {
    if k > 0 { ApplyInstalls(d, us, k - 1); }
  }

  lemma {:induction false} RedoUntouched(home: seq<Block>, us: seq<Update>, k: nat, s: nat)
    requires Within(us, |home|) && k <= |us| && s < |home| && forall i :: 0 <= i < |us| ==> us[i].sector != s
    ensures Redo(home, us, k)[s] == home[s]
  {
    if k > 0 { RedoUntouched(home, us, k - 1, s); }
  }

  /** A sector that is updated ends up independent of what it held. */
  lemma {:induction false} RedoForgets(home: seq<Block>, home': seq<Block>, us: seq<Update>, k: nat, s: nat)
    requires Within(us, |home|) && k <= |us| && |home| == |home'| && s < |home|
    requires home[s] == home'[s] || exists i :: 0 <= i < k && us[i].sector == s
    ensures Redo(home, us, k)[s] == Redo(home', us, k)[s]
  {
    if k > 0 && us[k - 1].sector != s { RedoForgets(home, home', us, k - 1, s); }
  }

  /** Redo is idempotent: some of the updates and then all of them is all of them. */
  lemma {:induction false} RedoAgain(home: seq<Block>, us: seq<Update>, k: nat)
    requires Within(us, |home|) && k <= |us|
    ensures RedoAll(Redo(home, us, k), us) == RedoAll(home, us)
  {
    var some := Redo(home, us, k);
    forall s | 0 <= s < |home| ensures RedoAll(some, us)[s] == RedoAll(home, us)[s] {
      if forall i :: 0 <= i < |us| ==> us[i].sector != s { RedoUntouched(home, us, k, s); }
      RedoForgets(some, home, us, |us|, s);
    }
  }

  // -------- Recovery --------

  function Recovered(d: Disk): Disk
    requires WellFormed(d)
  {
    Disk(RedoAll(d.home, Described(d.head, d.area)), [], d.area)
  }

  lemma NothingPending(d: Disk)
    requires Clean(d)
    ensures Recovered(d) == d
  {
  }

  lemma RecoveredClean(d: Disk)
    requires WellFormed(d)
    ensures Clean(Recovered(d)) && |Recovered(d).area| == |d.area|
    ensures Recovered(Recovered(d)) == Recovered(d)
  {
    NothingPending(Recovered(d));
  }

  /** Recovery cut after k of its writes can still be completed to the same home sectors. */
  lemma {:induction false} RecoverPrefix(d: Disk, k: nat)
    requires WellFormed(d) && k <= |RecoverWrites(d)|
    ensures var dk := Apply(d, RecoverWrites(d), k);
            && Recovered(dk).home == Recovered(d).home
            && (k == |RecoverWrites(d)| ==> dk == Recovered(d))
  {
    var us := Described(d.head, d.area);
    if k <= |us| {
      ApplyInstalls(d, us, k);
      RedoAgain(d.home, us, k);
    } else {
      ApplyInstalls(d, us, |us|);
      RecoveredClean(d);
    }
  }

  // -------- Logging --------

  predicate Distinct(lh: seq<nat>) {
    forall i, j :: 0 <= i < j < |lh| ==> lh[i] != lh[j]
  }

  /** The log blocks hold a transaction's updates: one slot per sector, the same effect. */
  predicate Describes(lh: seq<nat>, home: seq<Block>, area: seq<Block>, effect: seq<Block>) {
    && |lh| <= |area| && Below(lh, |home|) && Distinct(lh)
    && RedoAll(home, Described(lh, area)) == effect
  }

  lemma {:induction false} RedoPrefix(home: seq<Block>, us: seq<Update>, vs: seq<Update>, k: nat)
    requires Within(us, |home|) && Within(vs, |home|) && k <= |us| && k <= |vs|
    requires forall i :: 0 <= i < k ==> us[i] == vs[i]
    ensures Redo(home, us, k) == Redo(home, vs, k)
  {
    if k > 0 { RedoPrefix(home, us, vs, k - 1); }
  }

  /** With one slot per sector, replacing a slot acts as one more update. */
  lemma {:induction false} RedoReplace(home: seq<Block>, us: seq<Update>, vs: seq<Update>, i: nat, data: Block, k: nat)
    requires Within(us, |home|) && i < k <= |us| && vs == us[i := Update(us[i].sector, data)]
    requires forall j, l :: 0 <= j < l < |us| ==> us[j].sector != us[l].sector
    ensures Redo(home, vs, k) == Redo(home, us, k)[us[i].sector := data]
  {
    if i < k - 1 { RedoReplace(home, us, vs, i, data, k - 1); } else { RedoPrefix(home, us, vs, i); }
  }

  lemma AbsorbDescribes(lh: seq<nat>, home: seq<Block>, area: seq<Block>, effect: seq<Block>, i: nat, data: Block)
    requires Describes(lh, home, area, effect) && i < |lh|
    ensures Describes(lh, home, area[i := data], effect[lh[i] := data])
  {
    var ds := Described(lh, area);
    RedoReplace(home, ds, Described(lh, area[i := data]), i, data, |lh|);
  }

  lemma AppendDescribes(lh: seq<nat>, home: seq<Block>, area: seq<Block>, effect: seq<Block>, u: Update)
    requires Describes(lh, home, area, effect) && |lh| < |area| && u.sector < |home| && u.sector !in lh
    ensures Describes(lh + [u.sector], home, area[|lh| := u.data], effect[u.sector := u.data])
  {
    var ds, ds' := Described(lh, area), Described(lh + [u.sector], area[|lh| := u.data]);
    RedoPrefix(home, ds, ds', |lh|);
  }

  /** A run of log_write calls keeps, in one slot per sector, the last data logged for it. */
  ghost predicate Faithful(d: Disk, t: Logged, effect: seq<Block>)
    requires WellFormed(d)
  {
    && AllFit(d, t.out)
    && (forall i :: 0 <= i < |t.out| ==> t.out[i].ToArea?)
    && Describes(t.lh, d.home, Apply(d, t.out, |t.out|).area, effect)
  }

  lemma LogWriteFaithful(d: Disk, t: Logged, effect: seq<Block>, u: Update)
    requires WellFormed(d) && Faithful(d, t, effect) && u.sector < |d.home|
    requires !t.panicked && !LogFull(|d.area|, |t.lh|)
    ensures Faithful(d, LogWrite(|d.area|, t, u), effect[u.sector := u.data])
  {
    var t' := LogWrite(|d.area|, t, u);
    var i := Slot(t.lh, u.sector);
    var area := Apply(d, t.out, |t.out|).area;
    ApplyLeft(d, t.out, [ToArea(i, u.data)], |t.out|);
    assert Apply(d, t'.out, |t'.out|).area == area[i := u.data];
    hide Describes, Apply;
    if i < |t.lh| {
      AbsorbDescribes(t.lh, d.home, area, effect, i, u.data);
    } else {
      AppendDescribes(t.lh, d.home, area, effect, u);
    }
  }

  lemma FaithfulNil(d: Disk)
    requires WellFormed(d)
    ensures Faithful(d, Logged([], [], false), d.home)
  {
  }

  lemma {:induction false} LogFaithful(d: Disk, us: seq<Update>, k: nat)
    requires WellFormed(d) && Within(us, |d.home|) && k <= |us|
    ensures var t := LogFirst(|d.area|, us, k);
            && AllFit(d, t.out) && (forall i :: 0 <= i < |t.out| ==> t.out[i].ToArea?)
            && (!t.panicked ==> Faithful(d, t, Redo(d.home, us, k)))
            && (!t.panicked && k > 0 ==> t.lh != [])
  {
    if k == 0 {
      FaithfulNil(d);
    } else {
      LogFaithful(d, us, k - 1);
      var t := LogFirst(|d.area|, us, k - 1);
      if !t.panicked && !LogFull(|d.area|, |t.lh|) {
        LogWriteFaithful(d, t, Redo(d.home, us, k - 1), us[k - 1]);
      }
    }
  }

  /** Log blocks are the only thing a transaction writes before its header. */
  lemma {:induction false} AreaOnly(d: Disk, ws: seq<Write>, k: nat)
    requires WellFormed(d) && AllFit(d, ws) && k <= |ws| && forall i :: 0 <= i < |ws| ==> ws[i].ToArea?
    ensures Apply(d, ws, k).home == d.home && Apply(d, ws, k).head == d.head
  {
    if k > 0 { AreaOnly(d, ws, k - 1); }
  }

  // -------- One transaction, cut after any of its writes --------

  lemma CommitFits(d: Disk, lh: seq<nat>, area: seq<Block>)
    requires |lh| <= |area| == |d.area| && Below(lh, |d.home|)
    ensures AllFit(d, CommitWrites(lh, area))
  {
  }

  /** Every sector write of a transaction that does not panic. */
  function TxWrites(d: Disk, us: seq<Update>): (ws: seq<Write>)
    requires WellFormed(d) && Within(us, |d.home|) && !LogAll(|d.area|, us).panicked
    ensures AllFit(d, ws)
    ensures us != [] ==> |ws| > |LogAll(|d.area|, us).out|
  {
    LogFaithful(d, us, |us|);
    var t := LogAll(|d.area|, us);
    var area := Apply(d, t.out, |t.out|).area;
    CommitFits(d, t.lh, area);
    t.out + CommitWrites(t.lh, area)
  }

  /** The header write decides: cut before it the transaction never happened, cut after it
      recovery completes the transaction, and its last write leaves nothing pending. */
  lemma {:induction false} TxAtomic(d: Disk, us: seq<Update>, k: nat)
    requires Clean(d) && Within(us, |d.home|) && !LogAll(|d.area|, us).panicked
    requires k <= |TxWrites(d, us)|
    ensures var dk := Apply(d, TxWrites(d, us), k);
            && (k <= |LogAll(|d.area|, us).out| ==> Recovered(dk).home == d.home)
            && (k > |LogAll(|d.area|, us).out| ==> Recovered(dk).home == RedoAll(d.home, us))
            && (k == |TxWrites(d, us)| ==> dk.head == [] && dk.home == RedoAll(d.home, us))
  {
    if k <= |LogAll(|d.area|, us).out| {
      TxUncommitted(d, us, k);
    } else {
      TxCommitted(d, us, k);
    }
  }

  lemma {:induction false} TxUncommitted(d: Disk, us: seq<Update>, k: nat)
    requires Clean(d) && Within(us, |d.home|) && !LogAll(|d.area|, us).panicked
    requires k <= |LogAll(|d.area|, us).out|
    ensures var dk := Apply(d, TxWrites(d, us), k); dk.home == d.home && dk.head == [] && Recovered(dk) == dk
    ensures k == |TxWrites(d, us)| ==> us == []
  {
    LogFaithful(d, us, |us|);
    var t := LogAll(|d.area|, us);
    ApplyLeft(d, t.out, CommitWrites(t.lh, Apply(d, t.out, |t.out|).area), k);
    AreaOnly(d, t.out, k);
    NothingPending(Apply(d, TxWrites(d, us), k));
  }

  lemma {:induction false} TxCommitted(d: Disk, us: seq<Update>, k: nat)
    requires Clean(d) && Within(us, |d.home|) && !LogAll(|d.area|, us).panicked
    requires |LogAll(|d.area|, us).out| < k <= |TxWrites(d, us)|
    ensures Recovered(Apply(d, TxWrites(d, us), k)).home == RedoAll(d.home, us)
    ensures k == |TxWrites(d, us)| ==>
              var dk := Apply(d, TxWrites(d, us), k); dk.head == [] && dk.home == RedoAll(d.home, us)
  {
    hide Apply, Recovered, Described, Redo, CommitWrites, LogFirst;
    LogFaithful(d, us, |us|);
    var t := LogAll(|d.area|, us);
    AreaOnly(d, t.out, |t.out|);
    var full := Apply(d, t.out, |t.out|);
    CommitFits(d, t.lh, full.area);
    ApplyRight(d, t.out, CommitWrites(t.lh, full.area), k - |t.out|);
    CommitPrefix(full, t.lh, k - |t.out|);
  }

  /** After its header write, commit_trans issues the very writes recovery would. */
  lemma {:induction false} CommitIsRecover(full: Disk, lh: seq<nat>, k: nat)
    requires WellFormed(full) && 0 < |lh| <= |full.area| && Below(lh, |full.home|)
    requires 1 <= k <= |CommitWrites(lh, full.area)|
    ensures AllFit(full, CommitWrites(lh, full.area))
    ensures var d1 := full.(head := lh);
            Apply(full, CommitWrites(lh, full.area), k) == Apply(d1, RecoverWrites(d1), k - 1)
  {
    CommitFits(full, lh, full.area);
    var d1 := full.(head := lh);
    assert Apply(full, [ToHead(lh)], 1) == d1;
    ApplyRight(full, [ToHead(lh)], RecoverWrites(d1), k - 1);
  }

  /** From the header write on, recovery finishes what commit_trans started. */
  lemma {:induction false} CommitPrefix(full: Disk, lh: seq<nat>, k: nat)
    requires WellFormed(full) && 0 < |lh| <= |full.area| && Below(lh, |full.home|)
    requires 1 <= k <= |CommitWrites(lh, full.area)|
    ensures AllFit(full, CommitWrites(lh, full.area))
    ensures var dk := Apply(full, CommitWrites(lh, full.area), k);
            && Recovered(dk).home == RedoAll(full.home, Described(lh, full.area))
            && (k == |CommitWrites(lh, full.area)| ==> dk.head == [] && dk.home == Recovered(dk).home)
  {
    hide Apply, Described, Redo, InstallAndErase;
    var d1 := full.(head := lh);
    CommitIsRecover(full, lh, k);
    RecoverPrefix(d1, k - 1);
    RecoveredClean(d1);
  }

  lemma {:induction false} RedoDistinct(home: seq<Block>, us: seq<Update>, k: nat, i: nat)
    requires Within(us, |home|) && i < k <= |us|
    requires forall j, l :: 0 <= j < l < |us| ==> us[j].sector != us[l].sector
    ensures Redo(home, us, k)[us[i].sector] == us[i].data
  {
    if i < k - 1 { RedoDistinct(home, us, k - 1, i); }
  }

  /** A finished transaction leaves in log block i the sector it lists there: what else had been kept in that
      block is gone, and the first log block is always used. */
  lemma {:induction false} AreaHolds(d: Disk, us: seq<Update>, i: nat)
    requires Clean(d) && Within(us, |d.home|) && !LogAll(|d.area|, us).panicked && i < |LogAll(|d.area|, us).lh|
    ensures var lh, ws := LogAll(|d.area|, us).lh, TxWrites(d, us);
            && lh[i] < |d.home| && i < |d.area|
            && Apply(d, ws, |ws|).area[i] == RedoAll(d.home, us)[lh[i]]
  {
    hide Recovered, CommitWrites, LogFirst, RecoverWrites, Apply, Redo, Described;
    LogFaithful(d, us, |us|);
    var t := LogAll(|d.area|, us);
    AreaOnly(d, t.out, |t.out|);
    var full := Apply(d, t.out, |t.out|);
    DescribesAt(t.lh, d.home, full.area, RedoAll(d.home, us), i);
    hide Describes;
    CommitFits(d, t.lh, full.area);
    ApplyRight(d, t.out, CommitWrites(t.lh, full.area), |t.lh| + 2);
    CommitArea(full, t.lh);
  }

  lemma DescribesAt(lh: seq<nat>, home: seq<Block>, area: seq<Block>, effect: seq<Block>, i: nat)
    requires Describes(lh, home, area, effect) && i < |lh|
    ensures lh[i] < |home| == |effect| && area[i] == effect[lh[i]]
  {
    RedoDistinct(home, Described(lh, area), |lh|, i);
  }

  lemma CommitArea(full: Disk, lh: seq<nat>)
    requires WellFormed(full) && 0 < |lh| <= |full.area| && Below(lh, |full.home|)
    ensures AllFit(full, CommitWrites(lh, full.area))
            && Apply(full, CommitWrites(lh, full.area), |lh| + 2).area == full.area
  {
    hide Apply, Described, Redo, InstallAndErase;
    var d1 := full.(head := lh);
    CommitIsRecover(full, lh, |lh| + 2);
    RecoverPrefix(d1, |lh| + 1);
  }

  // -------- Whole runs --------

  /** The kernel is running on a disk, or has stopped and left one. */
  datatype Machine = Up(disk: Disk) | Down(disk: Disk)

  /** A boot, or a transaction given by its log_write calls, with power failing after `cut`
      sector writes; a cut beyond the last write is no failure. */
  datatype Event = Boot(cut: nat) | Tx(us: seq<Update>, cut: nat)

  predicate MachineOk(m: Machine) {
    WellFormed(m.disk) && (m.Up? ==> Clean(m.disk))
  }

  /** Transactions run only while the machine is up, and log home sectors only. */
  predicate Enabled(m: Machine, e: Event) {
    e.Tx? ==> m.Up? && Within(e.us, |m.disk.home|)
  }

  predicate Panics(m: Machine, e: Event) {
    e.Tx? && LogAll(|m.disk.area|, e.us).panicked
  }

  /** The sector writes an event issues when power does not fail. */
  function EventWrites(m: Machine, e: Event): (ws: seq<Write>)
    requires MachineOk(m) && Enabled(m, e)
    ensures AllFit(m.disk, ws)
  {
    match e
    case Boot(_) => RecoverWrites(m.disk)
    case Tx(us, _) =>
      LogFaithful(m.disk, us, |us|);
      if Panics(m, e) then LogAll(|m.disk.area|, us).out else TxWrites(m.disk, us)
  }

  /** A "too big a transaction" panic stops the machine as a power failure does. */
  function Step(m: Machine, e: Event): Machine
    requires MachineOk(m) && Enabled(m, e)
  {
    var ws := EventWrites(m, e);
    if e.cut < |ws| then Down(Apply(m.disk, ws, e.cut))
    else if Panics(m, e) then Down(Apply(m.disk, ws, |ws|))
    else Up(Apply(m.disk, ws, |ws|))
  }

  /** The event is a transaction whose header write completed. */
  predicate Commits(room: nat, e: Event) {
    e.Tx? && !LogAll(room, e.us).panicked && e.cut > |LogAll(room, e.us).out|
  }

  lemma StepRefines(m: Machine, e: Event)
    requires MachineOk(m) && Enabled(m, e)
    ensures MachineOk(Step(m, e)) && |Step(m, e).disk.area| == |m.disk.area|
    ensures Commits(|m.disk.area|, e) ==> Recovered(Step(m, e).disk).home == RedoAll(Recovered(m.disk).home, e.us)
    ensures !Commits(|m.disk.area|, e) ==> Recovered(Step(m, e).disk).home == Recovered(m.disk).home
  {
    var ws := EventWrites(m, e);
    var k := if e.cut < |ws| then e.cut else |ws|;
    hide Apply, RedoAll, Recovered, RecoverWrites, TxWrites, LogAll;
    match e {
      case Boot(_) =>
        RecoverPrefix(m.disk, k);
        RecoveredClean(m.disk);
      case Tx(us, _) =>
        NothingPending(m.disk);
        if Panics(m, e) {
          PanicHarmless(m.disk, us, k);
        } else {
          TxAtomic(m.disk, us, k);
        }
    }
  }

  lemma {:induction false} PanicHarmless(d: Disk, us: seq<Update>, k: nat)
    requires Clean(d) && Within(us, |d.home|) && k <= |LogAll(|d.area|, us).out|
    ensures AllFit(d, LogAll(|d.area|, us).out)
    ensures var dk := Apply(d, LogAll(|d.area|, us).out, k); Clean(dk) && Recovered(dk).home == d.home
  {
    LogFaithful(d, us, |us|);
    AreaOnly(d, LogAll(|d.area|, us).out, k);
    NothingPending(Apply(d, LogAll(|d.area|, us).out, k));
  }

  /** A run: each event is enabled where it happens. */
  ghost predicate IsRun(ms: seq<Machine>, es: seq<Event>) {
    && |ms| == |es| + 1
    && MachineOk(ms[0])
    && forall i :: 0 <= i < |es| ==>
         MachineOk(ms[i]) && Enabled(ms[i], es[i]) && ms[i + 1] == Step(ms[i], es[i])
  }

  ghost predicate AllWithin(es: seq<Event>, bound: nat) {
    forall i :: 0 <= i < |es| && es[i].Tx? ==> Within(es[i].us, bound)
  }

  /** The home sectors with exactly the committed ones of the first k transactions applied, in order. */
  ghost function Committed(room: nat, home: seq<Block>, es: seq<Event>, k: nat): (r: seq<Block>)
    requires AllWithin(es, |home|) && k <= |es|
    ensures |r| == |home|
  {
    if k == 0 then home
    else
      var before := Committed(room, home, es, k - 1);
      if Commits(room, es[k - 1]) then RedoAll(before, es[k - 1].us) else before
  }

  lemma {:induction false} RunSizes(ms: seq<Machine>, es: seq<Event>, k: nat)
    requires IsRun(ms, es) && k <= |es|
    ensures MachineOk(ms[k]) && |ms[k].disk.home| == |ms[0].disk.home| && |ms[k].disk.area| == |ms[0].disk.area|
  {
    if k > 0 {
      RunSizes(ms, es, k - 1);
      assert ms[k - 1 + 1] == Step(ms[k - 1], es[k - 1]);
      StepRefines(ms[k - 1], es[k - 1]);
    }
  }

  lemma RunWithin(ms: seq<Machine>, es: seq<Event>)
    requires IsRun(ms, es)
    ensures AllWithin(es, |ms[0].disk.home|)
  {
    forall i | 0 <= i < |es| && es[i].Tx? ensures Within(es[i].us, |ms[0].disk.home|) { RunSizes(ms, es, i); }
  }

  /** Crash atomicity over whole runs: whatever boots and transactions happen and wherever power
      fails, recovery included, the recovered home sectors are at every point the initial ones with
      exactly the transactions whose header write completed applied in order; a running machine
      shows them. */
  lemma {:induction false} CrashAtomicity(ms: seq<Machine>, es: seq<Event>, k: nat)
    requires IsRun(ms, es) && k <= |es|
    ensures AllWithin(es, |ms[0].disk.home|)
    ensures MachineOk(ms[k]) &&
            Recovered(ms[k].disk).home == Committed(|ms[0].disk.area|, Recovered(ms[0].disk).home, es, k)
    ensures ms[k].Up? ==> ms[k].disk.home == Recovered(ms[k].disk).home
  {
    RunWithin(ms, es);
    RunSizes(ms, es, k);
    if k > 0 {
      CrashAtomicity(ms, es, k - 1);
      RunSizes(ms, es, k - 1);
      assert ms[k - 1 + 1] == Step(ms[k - 1], es[k - 1]);
      StepRefines(ms[k - 1], es[k - 1]);
    }
    if ms[k].Up? { NothingPending(ms[k].disk); }
  }
}
