/** The process table of proc.c: what each operation does while it holds ptable.lock, and what every run
    of them keeps. A process is named by its slot. */
module ProcSpec {

  datatype PState = Unused | Embryo | Sleeping | Runnable | Running | Zombie

  type Slot = nat

  const NONE: int := -1

  /** A process asleep in wait sleeps on its own address. */
  datatype Chan = OnProc(slot: int) | Other(addr: int)

  datatype Proc = Proc(state: PState, pid: nat, parent: int, chan: Chan, killed: bool,
                       ctime: nat, retime: nat, rutime: nat, stime: nat)

  type Table = seq<Proc>

  predicate Live(st: PState) {
    st.Sleeping? || st.Runnable? || st.Running?
  }

  // -------- The scans of the table --------

  /** wakeup1 (proc.c:401-409) */
  function WakeAll(ps: Table, chan: Chan): (r: Table)
    ensures |r| == |ps|
  {
    seq(|ps|, i requires 0 <= i < |ps| => if ps[i].state.Sleeping? && ps[i].chan == chan then ps[i].(state := Runnable)
      else ps[i])
  }

  /** The first free slot, or the length of the table (proc.c:42-44). */
  function FirstUnused(ps: Table, k: nat): (r: nat)
    requires k <= |ps|
    ensures k <= r <= |ps| && (r < |ps| ==> ps[r].state.Unused?)
    ensures forall i :: k <= i < r ==> !ps[i].state.Unused?
    decreases |ps| - k
  {
    if k == |ps| || ps[k].state.Unused? then k else FirstUnused(ps, k + 1)
  }

  predicate IsChild(ps: Table, me: Slot, i: Slot) {
    i < |ps| && ps[i].parent == me
  }

  predicate ZombieChild(ps: Table, me: Slot, i: Slot) {
    IsChild(ps, me, i) && ps[i].state.Zombie?
  }

  /** The first zombie child, or the length of the table (proc.c:232-236). */
  function FirstZombie(ps: Table, me: Slot, k: nat): (r: nat)
    requires k <= |ps|
    ensures k <= r <= |ps| && (r < |ps| ==> ZombieChild(ps, me, r))
    ensures forall i :: k <= i < r ==> !ZombieChild(ps, me, i)
    decreases |ps| - k
  {
    if k == |ps| || ZombieChild(ps, me, k) then k else FirstZombie(ps, me, k + 1)
  }

  predicate HasChild(ps: Table, me: Slot) {
    exists i :: 0 <= i < |ps| && IsChild(ps, me, i)
  }

  predicate HasZombie(ps: Table, me: Slot) {
    exists i :: 0 <= i < |ps| && ZombieChild(ps, me, i)
  }

  /** The first slot with that pid (proc.c:429-430). */
  function FirstPid(ps: Table, pid: nat, k: nat): (r: nat)
    requires k <= |ps|
    ensures k <= r <= |ps| && (r < |ps| ==> ps[r].pid == pid)
    ensures forall i :: k <= i < r ==> ps[i].pid != pid
    decreases |ps| - k
  {
    if k == |ps| || ps[k].pid == pid then k else FirstPid(ps, pid, k + 1)
  }

  // -------- The operations --------

  /** proc.c:48-54 */
  function Allocated(ps: Table, np: Slot, pid: nat, ticks: nat): Table
    requires np < |ps|
  {
    ps[np := ps[np].(state := Embryo, pid := pid, ctime := ticks, retime := 0, rutime := 0, stime := 0)]
  }

  /** Children of me become children of init (proc.c:206-208). */
  function Adopted(ps: Table, me: Slot, init: Slot): (r: Table)
    ensures |r| == |ps|
  {
    seq(|ps|, i requires 0 <= i < |ps| => if ps[i].parent == me then ps[i].(parent := init) else ps[i])
  }

  /** exit, once it has the lock (proc.c:203-215). */
  function Exited(ps: Table, me: Slot, init: Slot): (r: Table)
    requires me < |ps|
    ensures |r| == |ps|
  {
    var woken := WakeAll(ps, OnProc(ps[me].parent));
    var adopted := Adopted(woken, me, init);
    var told := if HasZombie(ps, me) then WakeAll(adopted, OnProc(init)) else adopted;
    told[me := told[me].(state := Zombie)]
  }

  /** The slot a parent has reaped (proc.c:242-246), and what wait2 clears besides (proc.c:511-514). */
  function Reaped(p: Proc, two: bool): Proc {
    var q := p.(state := Unused, pid := 0, parent := NONE, killed := false);
    if two then q.(ctime := 0, retime := 0, rutime := 0, stime := 0) else q
  }

  datatype WaitResult = Reap(child: Slot, pid: nat, retime: nat, rutime: nat, stime: nat) | NoChild | WaitSleeps

  /** One turn of the loop of wait or wait2 (proc.c:229-260, proc.c:490-529). */
  function Waited(ps: Table, me: Slot, two: bool): (Table, WaitResult)
    requires me < |ps|
  {
    var z := FirstZombie(ps, me, 0);
    if z < |ps| then (ps[z := Reaped(ps[z], two)], Reap(z, ps[z].pid, ps[z].retime, ps[z].rutime, ps[z].stime))
    else if !HasChild(ps, me) || ps[me].killed then (ps, NoChild)
    else (ps[me := ps[me].(state := Sleeping, chan := OnProc(me))], WaitSleeps)
  }

  /** kill (proc.c:428-440) */
  function Killed(ps: Table, pid: nat): (Table, bool) {
    var i := FirstPid(ps, pid, 0);
    if i == |ps| then (ps, false)
    else (ps[i := ps[i].(killed := true, state := if ps[i].state.Sleeping? then Runnable else ps[i].state)], true)
  }

  /** One pass of updatestatistics over a slot (proc.c:536-548). */
  function Counted(p: Proc): Proc {
    match p.state
    case Sleeping => p.(stime := p.stime + 1)
    case Runnable => p.(retime := p.retime + 1)
    case Running => p.(rutime := p.rutime + 1)
    case _ => p
  }

  function Pass(ps: Table): (r: Table)
    ensures |r| == |ps|
  {
    seq(|ps|, i requires 0 <= i < |ps| => Counted(ps[i]))
  }

  // -------- The system --------

  /** forking: which embryo a process in fork is filling in; pending: ticks was incremented and the pass
      over the table has not been made yet (trap.c:50-57). */
  datatype Sys = Sys(ps: Table, init: Slot, nextpid: nat, ticks: nat, pending: bool, forking: map<Slot, Slot>)

  datatype Event =
    | ForkAlloc(me: Slot) | ForkFail(me: Slot) | ForkParent(me: Slot) | ForkPublish(me: Slot)
    | Exit(me: Slot) | Wait(me: Slot, two: bool) | SleepOn(me: Slot, addr: int) | Wakeup(addr: int) | Kill(pid: nat)
    | Schedule(me: Slot) | Yield(me: Slot) | Tick | TickPass

  predicate Runs(s: Sys, me: Slot) {
    me < |s.ps| && s.ps[me].state.Running?
  }

  /** What a process can be doing: fork, exit, wait and sleep are called by a running process, one call
      at a time, and nothing inside fork sleeps. */
  predicate Enabled(s: Sys, e: Event) {
    match e
    case ForkAlloc(me) => Runs(s, me) && me !in s.forking && FirstUnused(s.ps, 0) < |s.ps|
    case ForkFail(me) => Runs(s, me) && me in s.forking && s.forking[me] < |s.ps| && s.ps[s.forking[me]].parent == NONE
    case ForkParent(me) => Runs(s, me) && me in s.forking && s.forking[me] < |s.ps|
    case ForkPublish(me) => Runs(s, me) && me in s.forking && s.forking[me] < |s.ps| && s.ps[s.forking[me]].parent == me
    case Exit(me) => Runs(s, me) && me !in s.forking && me != s.init
    case Wait(me, two) => Runs(s, me) && me !in s.forking
    case SleepOn(me, addr) => Runs(s, me) && me !in s.forking
    case Schedule(me) => me < |s.ps| && s.ps[me].state.Runnable?
    case Yield(me) => Runs(s, me)
    case Tick => !s.pending
    case TickPass => s.pending
    case _ => true
  }

  function SetState(ps: Table, i: Slot, st: PState): Table
    requires i < |ps|
  {
    ps[i := ps[i].(state := st)]
  }

  function Step(s: Sys, e: Event): Sys
    requires Enabled(s, e)
  {
    match e
    case ForkAlloc(me) =>
      var np := FirstUnused(s.ps, 0);
      s.(ps := Allocated(s.ps, np, s.nextpid, s.ticks), nextpid := s.nextpid + 1, forking := s.forking[me := np])
    case ForkFail(me) => s.(ps := SetState(s.ps, s.forking[me], Unused), forking := s.forking - {me})
    case ForkParent(me) => s.(ps := s.ps[s.forking[me] := s.ps[s.forking[me]].(parent := me)])
    case ForkPublish(me) => s.(ps := SetState(s.ps, s.forking[me], Runnable), forking := s.forking - {me})
    case Exit(me) => s.(ps := Exited(s.ps, me, s.init))
    case Wait(me, two) => s.(ps := Waited(s.ps, me, two).0)
    case SleepOn(me, addr) => s.(ps := s.ps[me := s.ps[me].(state := Sleeping, chan := Other(addr))])
    case Wakeup(addr) => s.(ps := WakeAll(s.ps, Other(addr)))
    case Kill(pid) => s.(ps := Killed(s.ps, pid).0)
    case Schedule(me) => s.(ps := SetState(s.ps, me, Running))
    case Yield(me) => s.(ps := SetState(s.ps, me, Runnable))
    case Tick => s.(ticks := s.ticks + 1, pending := true)
    case TickPass => s.(ps := Pass(s.ps), pending := false)
  }

  // -------- The forest --------

  /** The parent of slot i is alive and older, or is the process now forking it. */
  predicate ParentOk(s: Sys, i: Slot)
    requires i < |s.ps|
  {
    var p := s.ps[i].parent;
    match s.ps[i].state
    case Unused => p == NONE
    case Embryo => p == NONE || (0 <= p < |s.ps| && p in s.forking && s.forking[p] == i)
    case _ => i == s.init || (0 <= p < |s.ps| && Live(s.ps[p].state) && s.ps[p].pid < s.ps[i].pid)
  }

  /** Nobody sleeps in wait beside a zombie child. */
  predicate WaitOk(s: Sys, i: Slot)
    requires i < |s.ps|
  {
    var p := s.ps[i].parent;
    s.ps[i].state.Zombie? && 0 <= p < |s.ps| ==> !(s.ps[p].state.Sleeping? && s.ps[p].chan == OnProc(p))
  }

  predicate PidOk(s: Sys, i: Slot)
    requires i < |s.ps|
  {
    s.ps[i].pid < s.nextpid && (i != s.init && !s.ps[i].state.Unused? ==> s.ps[i].pid > 1)
  }

  predicate InitOk(s: Sys) {
    s.init < |s.ps| && Live(s.ps[s.init].state) && s.ps[s.init].pid == 1 && s.ps[s.init].parent == NONE && s.nextpid > 1
  }

  /** Processes in fork are alive, each with an embryo of its own. */
  predicate ForkOk(s: Sys) {
    && (forall m :: m in s.forking ==> Forks(s, m, s.forking[m]))
    && forall m, k :: m in s.forking && k in s.forking && s.forking[k] == s.forking[m] ==> k == m
  }

  predicate Forks(s: Sys, m: Slot, np: Slot) {
    && m < |s.ps| && Live(s.ps[m].state) && np < |s.ps| && s.ps[np].state.Embryo?
    && s.ps[np].pid > s.ps[m].pid && s.ps[np].parent in {NONE, m}
  }

  predicate ForestOk(s: Sys) {
    && InitOk(s) && ForkOk(s)
    && forall i :: 0 <= i < |s.ps| ==> ParentOk(s, i) && WaitOk(s, i) && PidOk(s, i)
  }

  /** A slot that keeps its pid and parent, stays alive if it was, and does not fall asleep in wait. */
  predicate QuietSlot(x: Proc, y: Proc, i: Slot) {
    && y.pid == x.pid && y.parent == x.parent
    && (if Live(x.state) then Live(y.state) else y.state == x.state)
    && (y.state.Sleeping? && y.chan == OnProc(i) ==> x.state.Sleeping? && x.chan == OnProc(i))
  }

  predicate Quiet(s: Sys, t: Sys) {
    && |t.ps| == |s.ps| && t.init == s.init && t.nextpid == s.nextpid && t.forking == s.forking
    && forall i :: 0 <= i < |s.ps| ==> QuietSlot(s.ps[i], t.ps[i], i)
  }

  lemma QuietKeeps(s: Sys, t: Sys)
    requires ForestOk(s) && Quiet(s, t)
    ensures ForestOk(t)
  {
    forall m | m in s.forking ensures Forks(t, m, t.forking[m]) {
      assert Forks(s, m, s.forking[m]);
      assert QuietSlot(s.ps[m], t.ps[m], m) && QuietSlot(s.ps[s.forking[m]], t.ps[s.forking[m]], s.forking[m]);
    }
    assert InitOk(t) by { assert QuietSlot(s.ps[s.init], t.ps[s.init], s.init); }
    forall i | 0 <= i < |t.ps| ensures ParentOk(t, i) && WaitOk(t, i) && PidOk(t, i) {
      assert ParentOk(s, i) && WaitOk(s, i) && PidOk(s, i);
      QuietOne(s, t, i);
    }
  }

  lemma QuietOne(s: Sys, t: Sys, i: Slot)
    requires i < |s.ps| && ParentOk(s, i) && WaitOk(s, i) && PidOk(s, i) && Quiet(s, t)
    ensures ParentOk(t, i) && WaitOk(t, i) && PidOk(t, i)
  {
    var p := s.ps[i].parent;
    assert QuietSlot(s.ps[i], t.ps[i], i);
    if 0 <= p < |s.ps| { assert QuietSlot(s.ps[p], t.ps[p], p); }
  }

  predicate IsQuiet(e: Event) {
    e.SleepOn? || e.Wakeup? || e.Kill? || e.Schedule? || e.Yield? || e.Tick? || e.TickPass?
  }

  lemma StepQuiet(s: Sys, e: Event)
    requires Enabled(s, e) && IsQuiet(e)
    ensures Quiet(s, Step(s, e))
  {
  }

  lemma AllocForest(s: Sys, me: Slot)
    requires ForestOk(s) && Enabled(s, ForkAlloc(me))
    ensures ForestOk(Step(s, ForkAlloc(me)))
  {
    var t, np := Step(s, ForkAlloc(me)), FirstUnused(s.ps, 0);
    assert ParentOk(s, np) && PidOk(s, me);
    forall m | m in t.forking ensures Forks(t, m, t.forking[m]) {
      if m != me { assert Forks(s, m, s.forking[m]); }
    }
    forall i | 0 <= i < |t.ps| ensures ParentOk(t, i) && WaitOk(t, i) && PidOk(t, i) { AllocSlot(s, me, i); }
  }

  lemma AllocSlot(s: Sys, me: Slot, i: Slot)
    requires ForestOk(s) && Enabled(s, ForkAlloc(me)) && i < |s.ps|
    ensures var t := Step(s, ForkAlloc(me)); |t.ps| == |s.ps| && ParentOk(t, i) && WaitOk(t, i) && PidOk(t, i)
  {
    var np := FirstUnused(s.ps, 0);
    assert ParentOk(s, np) && ParentOk(s, i) && WaitOk(s, i) && PidOk(s, i);
  }

  lemma FailForest(s: Sys, me: Slot)
    requires ForestOk(s) && Enabled(s, ForkFail(me))
    ensures ForestOk(Step(s, ForkFail(me)))
  {
    var t := Step(s, ForkFail(me));
    forall m | m in t.forking ensures Forks(t, m, t.forking[m]) {
      assert Forks(s, m, s.forking[m]) && Forks(s, me, s.forking[me]);
    }
    forall i | 0 <= i < |t.ps| ensures ParentOk(t, i) && WaitOk(t, i) && PidOk(t, i) {
      assert ParentOk(s, i) && WaitOk(s, i) && PidOk(s, i);
    }
  }

  lemma ParentForest(s: Sys, me: Slot)
    requires ForestOk(s) && Enabled(s, ForkParent(me))
    ensures ForestOk(Step(s, ForkParent(me)))
  {
    var t := Step(s, ForkParent(me));
    forall m | m in t.forking ensures Forks(t, m, t.forking[m]) {
      assert Forks(s, m, s.forking[m]) && Forks(s, me, s.forking[me]);
    }
    forall i | 0 <= i < |t.ps| ensures ParentOk(t, i) && WaitOk(t, i) && PidOk(t, i) {
      assert ParentOk(s, i) && WaitOk(s, i) && PidOk(s, i);
    }
  }

  lemma PublishForest(s: Sys, me: Slot)
    requires ForestOk(s) && Enabled(s, ForkPublish(me))
    ensures ForestOk(Step(s, ForkPublish(me)))
  {
    var t := Step(s, ForkPublish(me));
    forall m | m in t.forking ensures Forks(t, m, t.forking[m]) {
      assert Forks(s, m, s.forking[m]) && Forks(s, me, s.forking[me]);
    }
    forall i | 0 <= i < |t.ps| ensures ParentOk(t, i) && WaitOk(t, i) && PidOk(t, i) {
      assert ParentOk(s, i) && WaitOk(s, i) && PidOk(s, i);
    }
  }

  lemma ReapForest(s: Sys, t: Sys, z: Slot, two: bool)
    requires ForestOk(s) && z < |s.ps| && s.ps[z].state.Zombie? && z != s.init
    requires t == s.(ps := s.ps[z := Reaped(s.ps[z], two)])
    ensures ForestOk(t)
  {
    forall m | m in t.forking ensures Forks(t, m, t.forking[m]) {
      assert Forks(s, m, s.forking[m]);
    }
    forall i | 0 <= i < |t.ps| ensures ParentOk(t, i) && WaitOk(t, i) && PidOk(t, i) {
      assert ParentOk(s, i) && WaitOk(s, i) && PidOk(s, i);
    }
  }

  lemma WaitSleepForest(s: Sys, t: Sys, me: Slot)
    requires ForestOk(s) && me < |s.ps| && s.ps[me].state.Running? && !HasZombie(s.ps, me)
    requires t == s.(ps := s.ps[me := s.ps[me].(state := Sleeping, chan := OnProc(me))])
    ensures ForestOk(t)
  {
    forall m | m in t.forking ensures Forks(t, m, t.forking[m]) {
      assert Forks(s, m, s.forking[m]);
    }
    forall i | 0 <= i < |t.ps| ensures ParentOk(t, i) && WaitOk(t, i) && PidOk(t, i) {
      assert ParentOk(s, i) && WaitOk(s, i) && PidOk(s, i);
      assert !ZombieChild(s.ps, me, i);
    }
  }

  lemma WaitForest(s: Sys, me: Slot, two: bool)
    requires ForestOk(s) && Enabled(s, Wait(me, two))
    ensures ForestOk(Step(s, Wait(me, two)))
  {
    var t, z := Step(s, Wait(me, two)), FirstZombie(s.ps, me, 0);
    assert InitOk(s);
    hide ForestOk;
    if z < |s.ps| {
      ReapForest(s, t, z, two);
    } else if t != s {
      WaitSleepForest(s, t, me);
    }
  }

  /** What exit does to each slot. */
  predicate ExitSlot(ps: Table, me: Slot, init: Slot, i: Slot, y: Proc)
    requires me < |ps| && i < |ps|
  {
    var x := ps[i];
    && y.pid == x.pid && y.parent == (if x.parent == me then init else x.parent)
    && (if i == me then y.state.Zombie? else if Live(x.state) then Live(y.state) else y.state == x.state)
    && (y.state.Sleeping? ==> x.state.Sleeping? && y.chan == x.chan && y.chan != OnProc(ps[me].parent))
    && (y.state.Sleeping? && HasZombie(ps, me) ==> y.chan != OnProc(init))
  }

  lemma ExitSlots(ps: Table, me: Slot, init: Slot, i: Slot)
    requires me < |ps| && i < |ps|
    ensures ExitSlot(ps, me, init, i, Exited(ps, me, init)[i])
  {
  }

  lemma ExitForest(s: Sys, me: Slot)
    requires ForestOk(s) && Enabled(s, Exit(me))
    ensures ForestOk(Step(s, Exit(me)))
  {
    var t := Step(s, Exit(me));
    assert t.forking == s.forking && t.init == s.init && t.nextpid == s.nextpid;
    forall i | 0 <= i < |s.ps| ensures ExitSlot(s.ps, me, s.init, i, t.ps[i]) { ExitSlots(s.ps, me, s.init, i); }
    hide Step, ExitSlot, HasZombie;
    forall m | m in t.forking ensures Forks(t, m, t.forking[m]) {
      assert Forks(s, m, s.forking[m]);
      ExitFork(s, t, me, m);
    }
    assert InitOk(t) by { ExitInit(s, t, me); }
    forall i | 0 <= i < |t.ps| ensures ParentOk(t, i) && WaitOk(t, i) && PidOk(t, i) {
      assert ParentOk(s, i) && WaitOk(s, i) && PidOk(s, i) && ParentOk(s, me) && PidOk(s, me);
      ExitOne(s, t, me, i);
    }
  }

  predicate ExitTable(s: Sys, t: Sys, me: Slot) {
    && me < |s.ps| && s.ps[me].state.Running? && me != s.init && me !in s.forking && InitOk(s) && ParentOk(s, me)
    && |t.ps| == |s.ps| && t.forking == s.forking && t.init == s.init && t.nextpid == s.nextpid
    && forall i :: 0 <= i < |s.ps| ==> ExitSlot(s.ps, me, s.init, i, t.ps[i])
  }

  lemma ExitInit(s: Sys, t: Sys, me: Slot)
    requires ExitTable(s, t, me)
    ensures InitOk(t)
  {
    assert ExitSlot(s.ps, me, s.init, s.init, t.ps[s.init]);
  }

  lemma ExitFork(s: Sys, t: Sys, me: Slot, m: Slot)
    requires ExitTable(s, t, me) && m in s.forking && Forks(s, m, s.forking[m])
    ensures Forks(t, m, t.forking[m])
  {
    assert ExitSlot(s.ps, me, s.init, m, t.ps[m]) && ExitSlot(s.ps, me, s.init, s.forking[m], t.ps[s.forking[m]]);
  }

  lemma ExitOne(s: Sys, t: Sys, me: Slot, i: Slot)
    requires ExitTable(s, t, me) && i < |s.ps| && ParentOk(s, i) && WaitOk(s, i) && PidOk(s, i)
    ensures ParentOk(t, i) && WaitOk(t, i) && PidOk(t, i)
  {
    var p := s.ps[i].parent;
    assert ExitSlot(s.ps, me, s.init, i, t.ps[i]);
    assert ExitSlot(s.ps, me, s.init, s.init, t.ps[s.init]);
    if 0 <= p < |s.ps| { assert ExitSlot(s.ps, me, s.init, p, t.ps[p]); }
    if p == me && s.ps[i].state.Zombie? { assert ZombieChild(s.ps, me, i) && HasZombie(s.ps, me); }
  }

  lemma StepForest(s: Sys, e: Event)
    requires ForestOk(s) && Enabled(s, e)
    ensures ForestOk(Step(s, e))
  {
    hide ForestOk, Quiet;
    match e
    case ForkAlloc(me) => AllocForest(s, me);
    case ForkFail(me) => FailForest(s, me);
    case ForkParent(me) => ParentForest(s, me);
    case ForkPublish(me) => PublishForest(s, me);
    case Exit(me) => ExitForest(s, me);
    case Wait(me, two) => WaitForest(s, me, two);
    case _ => StepQuiet(s, e); QuietKeeps(s, Step(s, e));
  }

  // -------- Clock ticks --------

  function Times(p: Proc): nat {
    p.retime + p.rutime + p.stime
  }

  /** A process has been counted at most once for each tick since it was made, and once more for a tick
      under way when it was made. */
  predicate TickOk(s: Sys, i: Slot)
    requires i < |s.ps|
  {
    !s.ps[i].state.Unused? ==>
      s.ps[i].ctime <= s.ticks && Times(s.ps[i]) <= s.ticks - s.ps[i].ctime + if s.pending then 0 else 1
  }

  predicate TicksOk(s: Sys) {
    forall i :: 0 <= i < |s.ps| ==> TickOk(s, i)
  }

  /** A slot that keeps its times, and does not come into use. */
  predicate SameTimes(x: Proc, y: Proc) {
    y.state.Unused?
      || (!x.state.Unused? && y.ctime == x.ctime && y.retime == x.retime && y.rutime == x.rutime && y.stime == x.stime)
  }

  /** What a step does to the times of a slot. */
  predicate TimesStep(s: Sys, e: Event, i: Slot, y: Proc)
    requires i < |s.ps|
  {
    if e.TickPass? then y == Counted(s.ps[i])
    else if e.ForkAlloc? && i == FirstUnused(s.ps, 0) then y.ctime == s.ticks && Times(y) == 0
    else SameTimes(s.ps[i], y)
  }

  lemma ForkTimes(s: Sys, e: Event, i: Slot)
    requires ForkOk(s) && Enabled(s, e) && i < |s.ps|
             && (e.ForkAlloc? || e.ForkFail? || e.ForkParent? || e.ForkPublish?)
    ensures |Step(s, e).ps| == |s.ps| && TimesStep(s, e, i, Step(s, e).ps[i])
  {
    if !e.ForkAlloc? { assert Forks(s, e.me, s.forking[e.me]); }
  }

  lemma ExitTimes(s: Sys, e: Event, i: Slot)
    requires Enabled(s, e) && i < |s.ps| && e.Exit?
    ensures |Step(s, e).ps| == |s.ps| && TimesStep(s, e, i, Step(s, e).ps[i])
  {
    hide HasZombie;
  }

  lemma WaitTimes(s: Sys, e: Event, i: Slot)
    requires Enabled(s, e) && i < |s.ps| && e.Wait?
    ensures |Step(s, e).ps| == |s.ps| && TimesStep(s, e, i, Step(s, e).ps[i])
  {
    hide HasChild;
  }

  lemma OtherTimes(s: Sys, e: Event, i: Slot)
    requires Enabled(s, e) && i < |s.ps| && (e.Kill? || e.Wakeup? || e.TickPass?)
    ensures |Step(s, e).ps| == |s.ps| && TimesStep(s, e, i, Step(s, e).ps[i])
  {
  }

  lemma StepTimes(s: Sys, e: Event, i: Slot)
    requires ForkOk(s) && Enabled(s, e) && i < |s.ps|
    ensures |Step(s, e).ps| == |s.ps| && TimesStep(s, e, i, Step(s, e).ps[i])
  {
    hide ForkOk, Exited, Waited, Killed, Pass, WakeAll, Allocated;
    if e.ForkAlloc? || e.ForkFail? || e.ForkParent? || e.ForkPublish? {
      ForkTimes(s, e, i);
    } else if e.Exit? {
      ExitTimes(s, e, i);
    } else if e.Wait? {
      WaitTimes(s, e, i);
    } else if e.Kill? || e.Wakeup? || e.TickPass? {
      OtherTimes(s, e, i);
    }
  }

  lemma StepTicks(s: Sys, e: Event)
    requires ForestOk(s) && TicksOk(s) && Enabled(s, e)
    ensures TicksOk(Step(s, e))
  {
    var t := Step(s, e);
    forall i | 0 <= i < |t.ps| ensures TickOk(t, i) {
      assert |t.ps| == |s.ps| by { StepSize(s, e); }
      StepTimes(s, e, i);
      assert TickOk(s, i);
      assert t.ticks == (if e.Tick? then s.ticks + 1
             else s.ticks) && t.pending == (e.Tick? || (s.pending && !e.TickPass?));
      hide Step, ForestOk;
    }
  }

  lemma StepSize(s: Sys, e: Event)
    requires Enabled(s, e)
    ensures |Step(s, e).ps| == |s.ps|
  {
  }

  // -------- Runs --------

  const FRESH := Proc(Unused, 0, NONE, Other(0), false, 0, 0, 0, 0)

  /** The table after userinit (proc.c:92-117). */
  function Initial(n: nat): Sys {
    Sys(seq(n + 1, i => if i == 0 then FRESH.(state := Runnable, pid := 1) else FRESH), 0, 2, 0, false, map[])
  }

  ghost predicate IsRun(s: Sys, es: seq<Event>, t: Sys)
    decreases |es|
  {
    if es == [] then s == t else Enabled(s, es[0]) && IsRun(Step(s, es[0]), es[1..], t)
  }

  predicate SysOk(s: Sys) {
    ForestOk(s) && TicksOk(s) && Unique(s)
  }

  lemma {:induction false} RunOk(s: Sys, es: seq<Event>, t: Sys)
    requires SysOk(s) && IsRun(s, es, t)
    ensures SysOk(t) && |t.ps| == |s.ps| && t.init == s.init
    decreases |es|
  {
    hide ForestOk, TicksOk, Unique;
    if es != [] {
      StepForest(s, es[0]);
      StepUnique(s, es[0]);
      StepTicks(s, es[0]);
      StepSize(s, es[0]);
      RunOk(Step(s, es[0]), es[1..], t);
    }
  }

  /** In every run, a process past EMBRYO other than init has a living, older parent. */
  lemma {:induction false} Forest(n: nat, es: seq<Event>, t: Sys, i: Slot)
    requires IsRun(Initial(n), es, t) && i < |t.ps|
    ensures t.ps[i].state.Unused? ==> t.ps[i].parent == NONE
    ensures i != t.init && !t.ps[i].state.Unused? && !t.ps[i].state.Embryo? ==>
      0 <= t.ps[i].parent < |t.ps| && Live(t.ps[t.ps[i].parent].state) && t.ps[t.ps[i].parent].pid < t.ps[i].pid
  {
    RunOk(Initial(n), es, t);
    assert ParentOk(t, i);
  }

  /** In every run, no process asleep in wait or wait2 has a zombie child. */
  lemma {:induction false} NoForgottenZombie(n: nat, es: seq<Event>, t: Sys, p: Slot, z: Slot)
    requires IsRun(Initial(n), es, t) && p < |t.ps| && z < |t.ps| && t.ps[p].state.Sleeping?
             && t.ps[p].chan == OnProc(p)
    ensures !ZombieChild(t.ps, p, z)
  {
    RunOk(Initial(n), es, t);
    assert WaitOk(t, z);
  }

  /** The processes from i up to init, each the parent of the one before. */
  function Line(s: Sys, i: Slot): (r: seq<Slot>)
    requires ForestOk(s) && i < |s.ps| && (Live(s.ps[i].state) || s.ps[i].state.Zombie?)
    ensures |r| > 0 && r[0] == i && r[|r| - 1] == s.init
    ensures forall k :: 0 <= k < |r| - 1 ==> r[k] < |s.ps| && s.ps[r[k]].parent == r[k + 1]
    decreases s.ps[i].pid
  {
    if i == s.init then [i]
    else
      assert ParentOk(s, i);
      [i] + Line(s, s.ps[i].parent)
  }

  /** In every run, the times of a process never exceed the ticks since it was made by more than one. */
  lemma {:induction false} TickBound(n: nat, es: seq<Event>, t: Sys, i: Slot)
    requires IsRun(Initial(n), es, t) && i < |t.ps| && !t.ps[i].state.Unused?
    ensures Times(t.ps[i]) <= t.ticks - t.ps[i].ctime + if t.pending then 0 else 1
  {
    RunOk(Initial(n), es, t);
    assert TickOk(t, i);
  }

  /** How many passes of a run from s see slot i in state st. */
  ghost function Seen(s: Sys, es: seq<Event>, i: Slot, st: PState): nat
    requires i < |s.ps|
    decreases |es|
  {
    if es == [] || !Enabled(s, es[0]) then 0
    else
      StepSize(s, es[0]);
      (if es[0].TickPass? && s.ps[i].state == st then 1 else 0) + Seen(Step(s, es[0]), es[1..], i, st)
  }

  /** The slot stays in use all along the run. */
  ghost predicate InUse(s: Sys, es: seq<Event>, i: Slot)
    decreases |es|
  {
    && i < |s.ps| && !s.ps[i].state.Unused?
    && (es != [] ==> Enabled(s, es[0]) && InUse(Step(s, es[0]), es[1..], i))
  }

  /** Each of the three times counts the passes made while the process was in its state. */
  lemma {:induction false} TimesCount(s: Sys, es: seq<Event>, t: Sys, i: Slot)
    requires ForestOk(s) && IsRun(s, es, t) && InUse(s, es, i)
    ensures |t.ps| == |s.ps|
    ensures t.ps[i].retime == s.ps[i].retime + Seen(s, es, i, Runnable)
    ensures t.ps[i].rutime == s.ps[i].rutime + Seen(s, es, i, Running)
    ensures t.ps[i].stime == s.ps[i].stime + Seen(s, es, i, Sleeping)
    decreases |es|
  {
    if es != [] {
      var u := Step(s, es[0]);
      StepForest(s, es[0]);
      StepSize(s, es[0]);
      StepTimes(s, es[0], i);
      assert !u.ps[i].state.Unused?;
      hide ForestOk, Step;
      TimesCount(u, es[1..], t, i);
    }
  }

  // -------- Process ids --------

  /** No two slots have the same pid, unless it is 0. */
  predicate Unique(s: Sys) {
    && (forall i :: 0 <= i < |s.ps| ==> s.ps[i].pid < s.nextpid)
    && forall i, j :: 0 <= i < j < |s.ps| && s.ps[i].pid == s.ps[j].pid ==> s.ps[i].pid == 0
  }

  /** Each pid stays, is cleared, or, in slot np only, is the next one. */
  predicate PidsMove(s: Sys, t: Sys, np: int) {
    && |t.ps| == |s.ps| && s.nextpid <= t.nextpid
    && forall i {:trigger t.ps[i]} :: 0 <= i < |s.ps| ==>
         if i == np then t.ps[i].pid == s.nextpid < t.nextpid else t.ps[i].pid == s.ps[i].pid || t.ps[i].pid == 0
  }

  lemma UniqueKept(s: Sys, t: Sys, np: int)
    requires Unique(s) && PidsMove(s, t, np)
    ensures Unique(t)
  {
  }

  lemma StepPids(s: Sys, e: Event)
    requires Enabled(s, e)
    ensures PidsMove(s, Step(s, e), if e.ForkAlloc? then FirstUnused(s.ps, 0) else NONE)
  {
  }

  lemma StepUnique(s: Sys, e: Event)
    requires Unique(s) && Enabled(s, e)
    ensures Unique(Step(s, e))
  {
    hide Step, PidsMove, Unique;
    StepPids(s, e);
    UniqueKept(s, Step(s, e), if e.ForkAlloc? then FirstUnused(s.ps, 0) else NONE);
  }

  /** In every run, kill can mark only one process: no two have the same pid. */
  lemma {:induction false} PidsUnique(n: nat, es: seq<Event>, t: Sys, i: Slot, j: Slot)
    requires IsRun(Initial(n), es, t) && i < |t.ps| && j < |t.ps| && i != j && !t.ps[i].state.Unused?
    ensures t.ps[i].pid != t.ps[j].pid
  {
    RunOk(Initial(n), es, t);
    assert PidOk(t, i);
  }

  /** A slot not in use is not marked killed. */
  predicate CleanSlots(ps: Table) {
    forall i :: 0 <= i < |ps| && ps[i].state.Unused? ==> !ps[i].killed
  }

  /** The two ways a slot not in use gets marked: kill of a pid whose first slot is not in use, and fork giving
      up (proc.c:66-69, 153-157) an embryo that was killed meanwhile. */
  predicate MarksFree(s: Sys, e: Event)
    requires Enabled(s, e)
  {
    || (e.Kill? && FirstPid(s.ps, e.pid, 0) < |s.ps| && s.ps[FirstPid(s.ps, e.pid, 0)].state.Unused?)
    || (e.ForkFail? && s.ps[s.forking[e.me]].killed)
  }

  /** A step leaves the slots not in use unmarked if and only if it is neither of these. */
  lemma {:induction false} StepClean(s: Sys, e: Event)
    requires CleanSlots(s.ps) && Enabled(s, e)
    ensures CleanSlots(Step(s, e).ps) <==> !MarksFree(s, e)
  {
    StepSize(s, e);
    var t := Step(s, e);
    if MarksFree(s, e) {
      var i := if e.Kill? then FirstPid(s.ps, e.pid, 0) else s.forking[e.me];
      assert t.ps[i].state.Unused? && t.ps[i].killed;
    } else {
      forall i | 0 <= i < |t.ps| && t.ps[i].state.Unused? ensures !t.ps[i].killed { SlotClean(s, e, i); }
    }
  }

  lemma {:induction false} SlotClean(s: Sys, e: Event, i: Slot)
    requires CleanSlots(s.ps) && Enabled(s, e) && !MarksFree(s, e) && i < |s.ps|
    ensures |Step(s, e).ps| == |s.ps| && (Step(s, e).ps[i].state.Unused? ==> !Step(s, e).ps[i].killed)
  {
  }

  /** No event of the run marks a slot not in use. */
  ghost predicate Harmless(s: Sys, es: seq<Event>)
    decreases |es|
  {
    es == [] || (Enabled(s, es[0]) && !MarksFree(s, es[0]) && Harmless(Step(s, es[0]), es[1..]))
  }

  lemma {:induction false} RunClean(s: Sys, es: seq<Event>, t: Sys)
    requires CleanSlots(s.ps) && IsRun(s, es, t) && Harmless(s, es)
    ensures CleanSlots(t.ps)
    decreases |es|
  {
    if es != [] {
      StepClean(s, es[0]);
      RunClean(Step(s, es[0]), es[1..], t);
    }
  }

  /** After every run without such an event the next process forked is not born killed. allocproc does not
      clear the mark, so after one that left the first free slot marked it is. */
  lemma {:induction false} BornKilled(n: nat, es: seq<Event>, t: Sys, me: Slot)
    requires IsRun(Initial(n), es, t) && Enabled(t, ForkAlloc(me))
    ensures FirstUnused(t.ps, 0) < |t.ps| == |Step(t, ForkAlloc(me)).ps|
    ensures Step(t, ForkAlloc(me)).ps[FirstUnused(t.ps, 0)].killed ==> !Harmless(Initial(n), es)
  {
    if Harmless(Initial(n), es) { RunClean(Initial(n), es, t); }
  }

  lemma {:induction false} ExtendRun(s: Sys, es: seq<Event>, t: Sys, e: Event)
    requires IsRun(s, es, t) && Enabled(t, e)
    ensures IsRun(s, es + [e], Step(t, e))
    decreases |es|
  {
    if es != [] {
      assert (es + [e])[1..] == es[1..] + [e];
      ExtendRun(Step(s, es[0]), es[1..], t, e);
    }
  }

  /** The second process is being forked by the first, and is marked. */
  predicate BornMarked(t: Sys) {
    && |t.ps| == 2 && t.ps[1].state.Embryo? && t.ps[1].killed && t.forking == map[0 := 1] && t.ps[0].state.Running?
  }

  /** kill(0) on a fresh system: it succeeds, and the first process forked is born killed. */
  lemma {:induction false} KillZero() returns (es: seq<Event>, t: Sys)
    ensures IsRun(Initial(1), es, t) && BornMarked(t) && es == [Kill(0), Schedule(0), ForkAlloc(0)]
  {
    hide IsRun;
    t := Initial(1);
    es := [];
    assert IsRun(t, es, t) by { EmptyRun(t); }
    ExtendRun(Initial(1), es, t, Kill(0));
    assert FirstPid(t.ps, 0, 0) == 1;
    es, t := es + [Kill(0)], Step(t, Kill(0));
    ExtendRun(Initial(1), es, t, Schedule(0));
    es, t := es + [Schedule(0)], Step(t, Schedule(0));
    ExtendRun(Initial(1), es, t, ForkAlloc(0));
    es, t := es + [ForkAlloc(0)], Step(t, ForkAlloc(0));
  }

  lemma {:induction false} EmptyRun(s: Sys)
    ensures IsRun(s, [], s)
  {
  }

  /** Process 2 is killed while it is an embryo. */
  lemma {:induction false} EmbryoKilled() returns (es: seq<Event>, t: Sys)
    ensures IsRun(Initial(1), es, t) && BornMarked(t) && t.nextpid == 3 && t.ps[1].parent == NONE
    ensures es == [Schedule(0), ForkAlloc(0), Kill(2)]
  {
    hide IsRun;
    t := Initial(1);
    es := [];
    assert IsRun(t, es, t) by { EmptyRun(t); }
    ExtendRun(Initial(1), es, t, Schedule(0));
    es, t := es + [Schedule(0)], Step(t, Schedule(0));
    ExtendRun(Initial(1), es, t, ForkAlloc(0));
    es, t := es + [ForkAlloc(0)], Step(t, ForkAlloc(0));
    assert FirstPid(t.ps, 2, 0) == 1;
    ExtendRun(Initial(1), es, t, Kill(2));
    es, t := es + [Kill(2)], Step(t, Kill(2));
  }

  /** The second way: then its fork fails, and the next process forked, with another pid, is born killed. */
  lemma {:induction false} KilledForkFails() returns (es: seq<Event>, t: Sys)
    ensures IsRun(Initial(1), es, t) && BornMarked(t) && t.ps[1].pid == 3
    ensures es == [Schedule(0), ForkAlloc(0), Kill(2), ForkFail(0), ForkAlloc(0)]
  {
    hide IsRun;
    es, t := EmbryoKilled();
    ExtendRun(Initial(1), es, t, ForkFail(0));
    es, t := es + [ForkFail(0)], Step(t, ForkFail(0));
    ExtendRun(Initial(1), es, t, ForkAlloc(0));
    es, t := es + [ForkAlloc(0)], Step(t, ForkAlloc(0));
  }
}
