/** The process table in place: each scan of proc.c computes what ProcSpec says of the whole table. */
module ProcTable {
  import opened ProcSpec

  /** The children among the first k slots have been passed to init (proc.c:206-208). */
  function AdoptedTo(ps: Table, me: Slot, init: Slot, k: nat): (r: Table)
    ensures |r| == |ps|
  {
    seq(|ps|, i requires 0 <= i < |ps| => if i < k && ps[i].parent == me then ps[i].(parent := init) else ps[i])
  }

  predicate ZombieBelow(ps: Table, me: Slot, k: nat) {
    exists i :: 0 <= i < k && ZombieChild(ps, me, i)
  }

  /** The table after k turns of the loop of exit. */
  function ToldTo(ps: Table, me: Slot, init: Slot, k: nat): (r: Table)
    ensures |r| == |ps|
  {
    var a := AdoptedTo(ps, me, init, k);
    if ZombieBelow(ps, me, k) then WakeAll(a, OnProc(init)) else a
  }

  lemma WakeTwice(ps: Table, chan: Chan)
    ensures WakeAll(WakeAll(ps, chan), chan) == WakeAll(ps, chan)
  {
  }

  /** The wakeups that exit repeats for each zombie child add up to one. */
  lemma ToldNext(ps: Table, me: Slot, init: Slot, k: nat)
    requires k < |ps|
    ensures ps[k].parent != me ==> ToldTo(ps, me, init, k + 1) == ToldTo(ps, me, init, k)
    ensures ps[k].parent == me ==>
      var now := ToldTo(ps, me, init, k);
      var adopted := now[k := now[k].(parent := init)];
      ToldTo(ps, me, init, k + 1) == if ps[k].state.Zombie? then WakeAll(adopted, OnProc(init)) else adopted
  {
    assert ZombieBelow(ps, me, k + 1) <==> ZombieBelow(ps, me, k) || ZombieChild(ps, me, k);
    hide ZombieBelow;
    var a, b := AdoptedTo(ps, me, init, k), AdoptedTo(ps, me, init, k + 1);
    if ps[k].parent == me {
      assert b == a[k := a[k].(parent := init)];
      assert WakeAll(b, OnProc(init)) == WakeAll(a, OnProc(init))[k := WakeAll(a, OnProc(init))[k].(parent := init)];
      WakeTwice(b, OnProc(init));
    } else {
      assert b == a;
    }
  }

  lemma ToldAll(ps: Table, me: Slot, init: Slot)
    requires me < |ps|
    ensures var w := WakeAll(ps, OnProc(ps[me].parent)); var t := ToldTo(w, me, init, |w|);
      t[me := t[me].(state := Zombie)] == Exited(ps, me, init)
  {
    var w := WakeAll(ps, OnProc(ps[me].parent));
    assert AdoptedTo(w, me, init, |w|) == Adopted(w, me, init);
    assert forall i :: 0 <= i < |ps| ==> (ZombieChild(w, me, i) <==> ZombieChild(ps, me, i));
    assert ZombieBelow(w, me, |w|) <==> HasZombie(ps, me);
  }

  class Ptable {
    const proc: array<Proc>
    const initproc: Slot
    var nextpid: nat

    constructor (n: nat)
      ensures fresh(proc) && proc[..] == Initial(n).ps && initproc == Initial(n).init && nextpid == Initial(n).nextpid
    {
      proc := new Proc[n + 1](i => if i == 0 then FRESH.(state := Runnable, pid := 1) else FRESH);
      initproc, nextpid := 0, 2;
    }

    /** allocproc under the lock (proc.c:41-63); NONE when the table is full. */
    method AllocProc(ticks: nat) returns (np: int)
      modifies proc, `nextpid
      ensures np == NONE <==> FirstUnused(old(proc[..]), 0) == proc.Length
      ensures np == NONE ==> proc[..] == old(proc[..]) && nextpid == old(nextpid)
      ensures np != NONE ==> np == FirstUnused(old(proc[..]), 0) < proc.Length && nextpid == old(nextpid) + 1
      ensures np != NONE ==> proc[..] == Allocated(old(proc[..]), np, old(nextpid), ticks)
    {
      np := 0;
      while np < proc.Length
        invariant 0 <= np <= proc.Length && FirstUnused(proc[..], 0) == FirstUnused(proc[..], np)
      {
        if proc[np].state == Unused { break; }
        np := np + 1;
      }
      if np == proc.Length { return NONE; }
      proc[np] := proc[np].(state := Embryo, pid := nextpid, ctime := ticks, retime := 0, rutime := 0, stime := 0);
      nextpid := nextpid + 1;
    }

    /** wakeup1 (proc.c:401-409) */
    method Wakeup1(chan: Chan)
      modifies proc
      ensures proc[..] == WakeAll(old(proc[..]), chan)
    {
      var p := 0;
      while p < proc.Length
        invariant 0 <= p <= proc.Length
        invariant forall i :: 0 <= i < p ==> proc[i] == WakeAll(old(proc[..]), chan)[i]
        invariant forall i :: p <= i < proc.Length ==> proc[i] == old(proc[i])
      {
        if proc[p].state == Sleeping && proc[p].chan == chan {
          proc[p] := proc[p].(state := Runnable);
        }
        p := p + 1;
      }
    }

    /** exit under the lock (proc.c:200-215) */
    method Exit(me: Slot)
      requires me < proc.Length
      modifies proc
      ensures proc[..] == Exited(old(proc[..]), me, initproc)
    {
      hide ToldTo, Exited;
      ghost var ps := proc[..];
      Wakeup1(OnProc(proc[me].parent));
      PassChildren(me);
      ToldAll(ps, me, initproc);
      proc[me] := proc[me].(state := Zombie);
    }

    /** proc.c:206-212 */
    method PassChildren(me: Slot)
      requires me < proc.Length
      modifies proc
      ensures proc[..] == ToldTo(old(proc[..]), me, initproc, proc.Length)
    {
      ghost var w := proc[..];
      assert ToldTo(w, me, initproc, 0) == w;
      hide ToldTo;
      var p := 0;
      while p < proc.Length
        invariant 0 <= p <= proc.Length && proc[..] == ToldTo(w, me, initproc, p)
      {
        ToldNext(w, me, initproc, p);
        ToldHere(w, me, initproc, p);
        if proc[p].parent == me {
          proc[p] := proc[p].(parent := initproc);
          if proc[p].state == Zombie { Wakeup1(OnProc(initproc)); }
        }
        p := p + 1;
      }
    }

    /** One turn of the loop of wait, or of wait2, under the lock (proc.c:231-259, proc.c:492-528). */
    method Wait(me: Slot, two: bool) returns (r: WaitResult)
      requires me < proc.Length
      modifies proc
      ensures (proc[..], r) == Waited(old(proc[..]), me, two)
      ensures r.Reap? ==>
                && r.child < proc.Length && ZombieChild(old(proc[..]), me, r.child)
                && var z := old(proc[..])[r.child];
                   r.pid == z.pid && r.retime == z.retime && r.rutime == z.rutime && r.stime == z.stime
    {
      var havekids, p := false, 0;
      while p < proc.Length
        invariant 0 <= p <= proc.Length && FirstZombie(proc[..], me, 0) == FirstZombie(proc[..], me, p)
        invariant havekids <==> exists i :: 0 <= i < p && IsChild(proc[..], me, i)
      {
        if proc[p].parent == me {
          havekids := true;
          assert IsChild(proc[..], me, p);
          if proc[p].state == Zombie {
            r := Reap(p, proc[p].pid, proc[p].retime, proc[p].rutime, proc[p].stime);
            proc[p] := proc[p].(state := Unused, pid := 0, parent := NONE, killed := false);
            if two { proc[p] := proc[p].(ctime := 0, retime := 0, rutime := 0, stime := 0); }
            assert proc[..] == old(proc[..])[p := Reaped(old(proc[p]), two)];
            return;
          }
        }
        p := p + 1;
      }
      if !havekids || proc[me].killed { return NoChild; }
      proc[me] := proc[me].(chan := OnProc(me), state := Sleeping);
      return WaitSleeps;
    }

    /** kill (proc.c:423-441) */
    method Kill(pid: nat) returns (found: bool)
      modifies proc
      ensures (proc[..], found) == Killed(old(proc[..]), pid)
    {
      var p := 0;
      while p < proc.Length
        invariant 0 <= p <= proc.Length && FirstPid(proc[..], pid, 0) == FirstPid(proc[..], pid, p)
      {
        if proc[p].pid == pid {
          proc[p] := proc[p].(killed := true);
          if proc[p].state == Sleeping { proc[p] := proc[p].(state := Runnable); }
          assert proc[..] == Killed(old(proc[..]), pid).0;
          return true;
        }
        p := p + 1;
      }
      return false;
    }

    /** updatestatistics (proc.c:532-551) */
    method UpdateStatistics()
      modifies proc
      ensures proc[..] == Pass(old(proc[..]))
    {
      var p := 0;
      while p < proc.Length
        invariant 0 <= p <= proc.Length
        invariant forall i :: 0 <= i < p ==> proc[i] == Counted(old(proc[i]))
        invariant forall i :: p <= i < proc.Length ==> proc[i] == old(proc[i])
      {
        match proc[p].state {
          case Sleeping => proc[p] := proc[p].(stime := proc[p].stime + 1);
          case Runnable => proc[p] := proc[p].(retime := proc[p].retime + 1);
          case Running => proc[p] := proc[p].(rutime := proc[p].rutime + 1);
          case _ =>
        }
        p := p + 1;
      }
    }
  }

  /** The loop of exit has not touched what it looks at next. */
  lemma ToldHere(ps: Table, me: Slot, init: Slot, k: nat)
    requires k < |ps|
    ensures ToldTo(ps, me, init, k)[k].parent == ps[k].parent
    ensures ToldTo(ps, me, init, k)[k].state.Zombie? <==> ps[k].state.Zombie?
  {
    hide ZombieBelow;
  }
}
