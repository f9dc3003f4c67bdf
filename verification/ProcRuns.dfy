/** What the calls of proc.c return, over whole runs: which processes wait reaps, with which times, and where every
    process ever made has gone. */
module ProcRuns {
  import opened ProcSpec

  /** Process p is in the table. */
  predicate Used(s: Sys, p: nat) {
    exists i :: 0 <= i < |s.ps| && Holds(s, p, i)
  }

  predicate Holds(s: Sys, p: nat, i: Slot)
    requires i < |s.ps|
  {
    s.ps[i].pid == p && !s.ps[i].state.Unused?
  }

  /** p was given out, and no slot has it any more. */
  predicate Gone(s: Sys, p: nat) {
    0 < p < s.nextpid && forall i :: 0 <= i < |s.ps| ==> s.ps[i].pid != p
  }

  lemma GoneStep(s: Sys, e: Event, p: nat)
    requires Unique(s) && Enabled(s, e) && Gone(s, p)
    ensures Gone(Step(s, e), p)
  {
    StepPids(s, e);
    hide Step;
  }

  // -------- Times --------

  function TimeIn(x: Proc, st: PState): nat {
    match st
    case Runnable => x.retime
    case Running => x.rutime
    case Sleeping => x.stime
    case _ => 0
  }

  predicate InState(s: Sys, p: nat, st: PState) {
    exists i :: 0 <= i < |s.ps| && s.ps[i].pid == p && s.ps[i].state == st
  }

  /** How many passes of updatestatistics in a run from s are made while process p is in state st. */
  ghost function Passes(s: Sys, es: seq<Event>, p: nat, st: PState): nat
    decreases |es|
  {
    if es == [] || !Enabled(s, es[0]) then 0
    else (if es[0].TickPass? && InState(s, p, st) then 1 else 0) + Passes(Step(s, es[0]), es[1..], p, st)
  }

  /** The time process p has spent in state st before, none if it does not exist. */
  function Before(s: Sys, p: nat, st: PState): nat {
    var i := FirstPid(s.ps, p, 0);
    if i < |s.ps| && !s.ps[i].state.Unused? then TimeIn(s.ps[i], st) else 0
  }

  lemma BeforeIs(s: Sys, p: nat, st: PState, i: Slot)
    requires Unique(s) && 0 < p && i < |s.ps| && s.ps[i].pid == p
    ensures FirstPid(s.ps, p, 0) == i
    ensures InState(s, p, st) <==> s.ps[i].state == st
  {
  }

  /** One step: what a process has that is in the table afterwards. */
  lemma BeforeStep(s: Sys, e: Event, p: nat, st: PState)
    requires SysOk(s) && Enabled(s, e) && 0 < p && Used(Step(s, e), p) && Live(st)
    ensures Before(Step(s, e), p, st) == Before(s, p, st) + if e.TickPass? && InState(s, p, st) then 1 else 0
  {
    var u := Step(s, e);
    var i :| 0 <= i < |u.ps| && Holds(u, p, i);
    StepSize(s, e);
    StepUnique(s, e);
    StepTimes(s, e, i);
    StepPids(s, e);
    BeforeIs(u, p, st, i);
    hide Step, Waited, Exited, FirstPid;
    if s.ps[i].pid == p {
      BeforeIs(s, p, st, i);
    } else {
      NotThere(s, p);
    }
  }

  lemma NotThere(s: Sys, p: nat)
    requires forall i :: 0 <= i < |s.ps| ==> s.ps[i].pid != p
    ensures FirstPid(s.ps, p, 0) == |s.ps|
  {
  }

  /** A process in the table at the end of a step was there before, or is new. */
  lemma UsedBefore(s: Sys, e: Event, p: nat)
    requires SysOk(s) && Enabled(s, e) && 0 < p && Used(Step(s, e), p)
    ensures Used(s, p) || p == s.nextpid
  {
    var u := Step(s, e);
    var i :| 0 <= i < |u.ps| && Holds(u, p, i);
    StepSize(s, e);
    StepTimes(s, e, i);
    StepPids(s, e);
    hide Step, Waited, Exited;
    if s.ps[i].pid == p { assert Holds(s, p, i); }
  }

  /** A process that has left the table does not come back. */
  lemma {:induction false} StaysAway(s: Sys, es: seq<Event>, t: Sys, p: nat)
    requires SysOk(s) && IsRun(s, es, t) && 0 < p < s.nextpid && !Used(s, p)
    ensures !Used(t, p)
    decreases |es|
  {
    hide SysOk;
    if es != [] {
      StepSys(s, es[0]);
      if Used(Step(s, es[0]), p) { UsedBefore(s, es[0], p); }
      StaysAway(Step(s, es[0]), es[1..], t, p);
    }
  }

  lemma StepSys(s: Sys, e: Event)
    requires SysOk(s) && Enabled(s, e)
    ensures SysOk(Step(s, e)) && s.nextpid <= Step(s, e).nextpid
  {
    hide ForestOk, TicksOk, Unique;
    StepForest(s, e);
    StepUnique(s, e);
    StepTicks(s, e);
  }

  /** The times of a process are the passes made while it was in each state, all along the run. */
  lemma {:induction false} RunTimes(s: Sys, es: seq<Event>, t: Sys, p: nat, st: PState)
    requires SysOk(s) && IsRun(s, es, t) && 0 < p && Used(t, p) && Live(st)
    ensures Before(t, p, st) == Before(s, p, st) + Passes(s, es, p, st)
    decreases |es|
  {
    hide SysOk, Before, InState, Used;
    if es != [] {
      var u := Step(s, es[0]);
      StepSys(s, es[0]);
      RunTimes(u, es[1..], t, p, st);
      if Used(u, p) {
        BeforeStep(s, es[0], p, st);
      } else {
        NotYet(s, es, t, p, st);
      }
    }
  }

  /** Nor is it counted as long as it has not been made. */
  lemma NotYet(s: Sys, es: seq<Event>, t: Sys, p: nat, st: PState)
    requires SysOk(s) && IsRun(s, es, t) && es != [] && 0 < p && Used(t, p) && Live(st) && !Used(Step(s, es[0]), p)
    ensures Before(s, p, st) == 0 == Before(Step(s, es[0]), p, st) && !InState(s, p, st)
  {
    var u := Step(s, es[0]);
    StepSys(s, es[0]);
    if p < u.nextpid { StaysAway(u, es[1..], t, p); }
    hide Step, IsRun;
    Unborn(s, p, st);
    Unborn(u, p, st);
  }

  lemma Unborn(s: Sys, p: nat, st: PState)
    requires SysOk(s) && p >= s.nextpid && Live(st)
    ensures Before(s, p, st) == 0 && !InState(s, p, st)
  {
  }

  // -------- wait --------

  /** The pids that wait and wait2 return in a run, in order. */
  ghost function Reaps(s: Sys, es: seq<Event>): seq<nat>
    decreases |es|
  {
    if es == [] || !Enabled(s, es[0]) then []
    else (if es[0].Wait? then Pid(Waited(s.ps, es[0].me, es[0].two).1) else []) + Reaps(Step(s, es[0]), es[1..])
  }

  function Pid(r: WaitResult): seq<nat> {
    if r.Reap? then [r.pid] else []
  }

  /** wait returns the pid of a zombie child of the caller, which then is in no slot; it gives up exactly if there is
      no such child and no child at all, or the caller has been killed; otherwise it sleeps. */
  lemma WaitMeans(s: Sys, me: Slot, two: bool)
    requires SysOk(s) && Enabled(s, Wait(me, two))
    ensures var r, u := Waited(s.ps, me, two).1, Step(s, Wait(me, two));
      && (r.Reap? <==> exists i :: 0 <= i < |s.ps| && s.ps[i].parent == me && s.ps[i].state.Zombie?)
      && (r.NoChild? <==>
            && (forall i :: 0 <= i < |s.ps| && s.ps[i].parent == me ==> !s.ps[i].state.Zombie?)
            && ((forall i :: 0 <= i < |s.ps| ==> s.ps[i].parent != me) || s.ps[me].killed))
      && (r.Reap? ==>
            && r.child < |s.ps| && s.ps[r.child].parent == me && s.ps[r.child].state.Zombie?
            && r.pid == s.ps[r.child].pid > 1 && Gone(u, r.pid)
            && (forall i :: 0 <= i < |s.ps| && i != r.child ==> u.ps[i] == s.ps[i]))
      && (r.NoChild? ==> u == s)
      && (r.WaitSleeps? ==> u.ps[me].state.Sleeping? && u.ps[me].chan == OnProc(me))
  {
    var r := Waited(s.ps, me, two).1;
    assert ForestOk(s) && InitOk(s);
    if r.Reap? {
      assert PidOk(s, r.child) && r.child != s.init;
    } else {
      assert forall i :: 0 <= i < |s.ps| && s.ps[i].parent == me ==> IsChild(s.ps, me, i) && !ZombieChild(s.ps, me, i);
      assert forall i :: 0 <= i < |s.ps| && IsChild(s.ps, me, i) ==> s.ps[i].parent == me;
    }
  }

  /** In every run, wait and wait2 return the pid of a zombie child of the caller, and wait2 the passes that were made
      while that process was RUNNABLE, RUNNING and SLEEPING, from its making to its end. */
  lemma {:induction false} WaitReturns(n: nat, es: seq<Event>, t: Sys, me: Slot, two: bool)
    requires IsRun(Initial(n), es, t) && Enabled(t, Wait(me, two))
    ensures var r := Waited(t.ps, me, two).1; r.Reap? ==>
      && r.child < |t.ps| && ZombieChild(t.ps, me, r.child) && r.pid == t.ps[r.child].pid
      && r.retime == Passes(Initial(n), es, r.pid, Runnable)
      && r.rutime == Passes(Initial(n), es, r.pid, Running)
      && r.stime == Passes(Initial(n), es, r.pid, Sleeping)
  {
    var s, r := Initial(n), Waited(t.ps, me, two).1;
    RunOk(s, es, t);
    WaitMeans(t, me, two);
    if r.Reap? {
      assert Holds(t, r.pid, r.child);
      hide SysOk, IsRun;
      ReapTime(n, es, t, r.child, Runnable);
      ReapTime(n, es, t, r.child, Running);
      ReapTime(n, es, t, r.child, Sleeping);
    }
  }

  lemma ReapTime(n: nat, es: seq<Event>, t: Sys, i: Slot, st: PState)
    requires IsRun(Initial(n), es, t) && SysOk(Initial(n)) && SysOk(t) && i < |t.ps| && Holds(t, t.ps[i].pid, i)
    requires t.ps[i].pid > 0 && Live(st)
    ensures TimeIn(t.ps[i], st) == Passes(Initial(n), es, t.ps[i].pid, st)
  {
    var p := t.ps[i].pid;
    RunTimes(Initial(n), es, t, p, st);
    BeforeIs(t, p, st, i);
    assert Before(Initial(n), p, st) == 0;
  }

  lemma {:induction false} NeverAgain(s: Sys, es: seq<Event>, p: nat)
    requires SysOk(s) && Gone(s, p)
    ensures p !in Reaps(s, es)
    decreases |es|
  {
    hide SysOk, Gone, Waited;
    if es != [] && Enabled(s, es[0]) {
      StepSys(s, es[0]);
      assert Gone(Step(s, es[0]), p) by { assert Unique(s) by { assert SysOk(s); UniqueOf(s); } GoneStep(s, es[0], p); }
      NeverAgain(Step(s, es[0]), es[1..], p);
      if es[0].Wait? { NotReaped(s, es[0].me, es[0].two, p); }
    }
  }

  lemma UniqueOf(s: Sys)
    requires SysOk(s)
    ensures Unique(s)
  {
  }

  lemma NotReaped(s: Sys, me: Slot, two: bool, p: nat)
    requires Enabled(s, Wait(me, two)) && Gone(s, p)
    ensures p !in Pid(Waited(s.ps, me, two).1)
  {
  }

  /** Each process is reaped at most once. */
  lemma {:induction false} ReapedOnce(s: Sys, es: seq<Event>, i: nat, j: nat)
    requires SysOk(s) && i < j < |Reaps(s, es)|
    ensures Reaps(s, es)[i] != Reaps(s, es)[j]
    decreases |es|
  {
    hide SysOk, Waited;
    if es != [] && Enabled(s, es[0]) {
      var u, rest := Step(s, es[0]), Reaps(Step(s, es[0]), es[1..]);
      StepSys(s, es[0]);
      if es[0].Wait? && Waited(s.ps, es[0].me, es[0].two).1.Reap? {
        WaitMeans(s, es[0].me, es[0].two);
        if i == 0 {
          NeverAgain(u, es[1..], Reaps(s, es)[0]);
          assert rest[j - 1] in rest;
        } else {
          ReapedOnce(u, es[1..], i - 1, j - 1);
        }
      } else {
        ReapedOnce(u, es[1..], i, j);
      }
    }
  }

  // -------- Where processes go --------

  /** The pids of the forks that fail in a run. */
  ghost function Fails(s: Sys, es: seq<Event>): seq<nat>
    decreases |es|
  {
    if es == [] || !Enabled(s, es[0]) then []
    else (if es[0].ForkFail? then [s.ps[s.forking[es[0].me]].pid] else []) + Fails(Step(s, es[0]), es[1..])
  }

  /** Slot i is reaped by the step, or its fork fails. */
  predicate Removes(s: Sys, e: Event, i: Slot)
    requires Enabled(s, e)
  {
    || (e.Wait? && var r := Waited(s.ps, e.me, e.two).1; r.Reap? && r.child == i)
    || (e.ForkFail? && s.forking[e.me] == i)
  }

  lemma Stays(s: Sys, e: Event, p: nat, i: Slot)
    requires SysOk(s) && Enabled(s, e) && i < |s.ps| && Holds(s, p, i) && !Removes(s, e, i)
    ensures |Step(s, e).ps| == |s.ps| && Holds(Step(s, e), p, i)
  {
    StepSize(s, e);
    if e.Exit? {
      ExitSlots(s.ps, e.me, s.init, i);
    } else if IsQuiet(e) {
      StepQuiet(s, e);
      assert QuietSlot(s.ps[i], Step(s, e).ps[i], i);
    }
  }

  /** A process leaves the table by being reaped, or when its fork fails. */
  lemma Leaves(s: Sys, e: Event, p: nat)
    requires SysOk(s) && Enabled(s, e) && 0 < p && Used(s, p)
    ensures || Used(Step(s, e), p) || (e.Wait? && p in Pid(Waited(s.ps, e.me, e.two).1))
            || (e.ForkFail? && p == s.ps[s.forking[e.me]].pid)
  {
    var i :| 0 <= i < |s.ps| && Holds(s, p, i);
    hide SysOk, Step;
    if !Removes(s, e, i) { Stays(s, e, p, i); }
  }

  lemma {:induction false} Accounted(s: Sys, es: seq<Event>, t: Sys, p: nat)
    requires SysOk(s) && IsRun(s, es, t) && 0 < p && (Used(s, p) || s.nextpid <= p < t.nextpid)
    ensures Used(t, p) || p in Reaps(s, es) || p in Fails(s, es)
    decreases |es|
  {
    hide SysOk, Used, Waited;
    if es != [] {
      var u := Step(s, es[0]);
      StepSys(s, es[0]);
      if Used(s, p) && !Used(u, p) {
        Leaves(s, es[0], p);
      } else {
        if !Used(s, p) && p < u.nextpid { Born(s, es[0], p); }
        Accounted(u, es[1..], t, p);
      }
    }
  }

  lemma Born(s: Sys, e: Event, p: nat)
    requires Enabled(s, e) && s.nextpid <= p < Step(s, e).nextpid
    ensures e.ForkAlloc? && p == s.nextpid && Used(Step(s, e), p)
  {
    assert e.ForkAlloc?;
    var np := FirstUnused(s.ps, 0);
    assert Holds(Step(s, e), p, np);
  }

  /** In every run, every pid ever given out is that of a process in the table, was returned by wait, or belongs to
      a fork that failed; one returned by wait is no longer in the table. */
  lemma {:induction false} WhereTheyGo(n: nat, es: seq<Event>, t: Sys, p: nat)
    requires IsRun(Initial(n), es, t) && 0 < p < t.nextpid
    ensures Used(t, p) || p in Reaps(Initial(n), es) || p in Fails(Initial(n), es)
    ensures p in Reaps(Initial(n), es) ==> !Used(t, p)
  {
    var s := Initial(n);
    RunOk(s, [], s);
    if p == 1 { assert Holds(s, 1, 0); }
    Accounted(s, es, t, p);
    if p in Reaps(s, es) { ReapedGone(s, es, t, p); }
  }

  lemma {:induction false} ReapedGone(s: Sys, es: seq<Event>, t: Sys, p: nat)
    requires SysOk(s) && IsRun(s, es, t) && p in Reaps(s, es)
    ensures !Used(t, p) && p < t.nextpid
    decreases |es|
  {
    hide SysOk, Used, Waited;
    var u := Step(s, es[0]);
    StepSys(s, es[0]);
    if p in Reaps(u, es[1..]) {
      ReapedGone(u, es[1..], t, p);
    } else {
      WaitMeans(s, es[0].me, es[0].two);
      assert !Used(u, p) by { GoneUnused(u, p); }
      StaysAway(u, es[1..], t, p);
      PidsGrow(u, es[1..], t);
    }
  }

  lemma GoneUnused(s: Sys, p: nat)
    requires Gone(s, p)
    ensures !Used(s, p)
  {
  }

  lemma {:induction false} PidsGrow(s: Sys, es: seq<Event>, t: Sys)
    requires SysOk(s) && IsRun(s, es, t)
    ensures s.nextpid <= t.nextpid
    decreases |es|
  {
    hide SysOk;
    if es != [] {
      StepSys(s, es[0]);
      PidsGrow(Step(s, es[0]), es[1..], t);
    }
  }

  // -------- fork, exit and kill --------

  /** fork makes a runnable child of the caller; its pid is new, neither in the table nor ever returned by wait. */
  lemma {:induction false} ForkMakes(n: nat, es: seq<Event>, t: Sys, me: Slot)
    requires IsRun(Initial(n), es, t) && Enabled(t, ForkAlloc(me))
    ensures var np, a := FirstUnused(t.ps, 0), Step(t, ForkAlloc(me));
      && Enabled(a, ForkParent(me)) && Enabled(Step(a, ForkParent(me)), ForkPublish(me))
      && var u := Step(Step(a, ForkParent(me)), ForkPublish(me));
         && |u.ps| == |t.ps| && t.ps[np].state.Unused? && u.forking == t.forking
         && u.ps[np].state.Runnable? && u.ps[np].parent == me && u.ps[np].pid == t.nextpid
         && (forall i :: 0 <= i < |t.ps| && i != np ==> u.ps[i] == t.ps[i])
    ensures !Used(t, t.nextpid) && t.nextpid !in Reaps(Initial(n), es)
  {
    RunOk(Initial(n), [], Initial(n));
    RunOk(Initial(n), es, t);
    if t.nextpid in Reaps(Initial(n), es) { ReapedGone(Initial(n), es, t, t.nextpid); }
    assert Step(t, ForkAlloc(me)).forking - {me} == t.forking;
  }

  /** exit leaves a zombie, its children with init, and the parent awake if it was in wait. */
  lemma ExitMeans(s: Sys, me: Slot)
    requires SysOk(s) && Enabled(s, Exit(me))
    ensures var u := Step(s, Exit(me));
      && |u.ps| == |s.ps| && u.ps[me].state.Zombie? && u.ps[me].pid == s.ps[me].pid
      && (forall i :: 0 <= i < |s.ps| ==> u.ps[i].parent == if s.ps[i].parent == me then s.init else s.ps[i].parent)
      && 0 <= s.ps[me].parent < |s.ps|
      && var p := s.ps[me].parent;
         s.ps[p].state.Sleeping? && s.ps[p].chan == OnProc(p) ==> u.ps[p].state.Runnable?
  {
    assert ParentOk(s, me);
  }

  /** kill marks the process with that pid, which is awake from then on, and touches no other; it fails exactly if
      no slot has the pid. */
  lemma KillMeans(s: Sys, pid: nat)
    requires SysOk(s)
    ensures var u, found := Step(s, Kill(pid)), Killed(s.ps, pid).1;
      && |u.ps| == |s.ps| && (found <==> exists i :: 0 <= i < |s.ps| && s.ps[i].pid == pid)
      && (forall i :: 0 <= i < |s.ps| && pid > 0 && s.ps[i].pid == pid ==>
            && u.ps[i].killed && u.ps[i].pid == pid
            && u.ps[i].state == if s.ps[i].state.Sleeping? then Runnable else s.ps[i].state)
      && (forall i :: 0 <= i < |s.ps| && s.ps[i].pid != pid ==> u.ps[i] == s.ps[i])
  {
  }

  predicate Doomed(s: Sys, p: nat) {
    forall i :: 0 <= i < |s.ps| && Holds(s, p, i) ==> s.ps[i].killed
  }

  lemma DoomedStep(s: Sys, e: Event, p: nat)
    requires SysOk(s) && Enabled(s, e) && 0 < p < s.nextpid && Doomed(s, p)
    ensures Doomed(Step(s, e), p)
  {
    var u := Step(s, e);
    StepSize(s, e);
    forall i | 0 <= i < |u.ps| && Holds(u, p, i) ensures u.ps[i].killed {
      StepPids(s, e);
      StepTimes(s, e, i);
      assert Holds(s, p, i);
    }
  }

  /** A process that has been killed stays marked as long as it is in the table. */
  lemma {:induction false} KilledForGood(s: Sys, es: seq<Event>, t: Sys, p: nat)
    requires SysOk(s) && IsRun(s, es, t) && 0 < p < s.nextpid && Doomed(s, p)
    ensures Doomed(t, p)
    decreases |es|
  {
    hide SysOk, Doomed;
    if es != [] {
      StepSys(s, es[0]);
      DoomedStep(s, es[0], p);
      KilledForGood(Step(s, es[0]), es[1..], t, p);
    }
  }
}
