/** sleep and wakeup (proc.c:363-418) as a machine of small steps: any number of processes, one lock lk
    that guards a condition, one channel, and ptable.lock. Each step does what one CPU does between two
    points at which another CPU may act. */
module Sleep {

  type Pid = nat

  datatype Lock = Free | Held(owner: Pid)

  datatype Run = Running | Sleeping | Runnable

  /** Where a process is.
      Outside    not using lk
      Inside     holds lk; may test or change the condition, or leave
      MustWake   holds lk, has made the condition true, and is about to call wakeup
      Waking(i)  holds lk and ptable.lock, in the loop of wakeup1 at slot i
      Falling    holds lk, found the condition false, and has called sleep
      Dropping   holds both locks (proc.c:380)
      Marking    holds ptable.lock, has released lk (proc.c:384-385)
      Leaving    holds ptable.lock, is marked SLEEPING, and is about to call sched
      Parked     has given up the CPU; the scheduler released ptable.lock
      Back       the scheduler runs it again, and it holds ptable.lock (proc.c:389-393)
      Again      is about to take lk again (proc.c:394) */
  datatype Pc =
    | Outside | Inside | MustWake | Waking(i: nat) | Falling | Dropping | Marking | Leaving | Parked | Back | Again

  datatype Proc = Proc(pc: Pc, run: Run, onChan: bool)

  datatype State = State(procs: seq<Proc>, lk: Lock, ptable: Lock, cond: bool)

  predicate HoldsLk(pc: Pc) {
    pc.Inside? || pc.MustWake? || pc.Waking? || pc.Falling? || pc.Dropping?
  }

  predicate HoldsTable(pc: Pc) {
    pc.Waking? || pc.Dropping? || pc.Marking? || pc.Leaving? || pc.Back?
  }

  /** What a process may do next; Clear, Raise and Leave are choices of the code around the calls. */
  datatype Action = Enter | Clear | Raise | Leave | Go | Kill(victim: Pid)

  predicate Enabled(s: State, p: Pid, a: Action) {
    && p < |s.procs|
    && match a
       case Enter => s.procs[p].pc.Outside? && s.lk.Free?
       case Clear => s.procs[p].pc.Inside?
       case Raise => s.procs[p].pc.Inside?
       case Leave => s.procs[p].pc.Inside?
       case Kill(v) => s.procs[p].pc.Outside? && v < |s.procs| && s.ptable.Free?
       case Go =>
         match s.procs[p].pc
         case Outside => false
         case Inside => !s.cond
         case MustWake => s.ptable.Free?
         case Falling => s.ptable.Free?
         case Parked => s.procs[p].run.Runnable? && s.ptable.Free?
         case Again => s.lk.Free?
         case _ => true
  }

  function To(s: State, p: Pid, pc: Pc): State
    requires p < |s.procs|
  {
    s.(procs := s.procs[p := s.procs[p].(pc := pc)])
  }

  /** One slot of wakeup1 (proc.c:407-408), and of kill for its process (proc.c:433-434). */
  function WakeSlot(s: State, i: Pid): State
    requires i < |s.procs|
  {
    if s.procs[i].run.Sleeping? && s.procs[i].onChan then s.(procs := s.procs[i := s.procs[i].(run := Runnable)]) else s
  }

  function Step(s: State, p: Pid, a: Action): State
    requires Enabled(s, p, a)
  {
    match a
    case Enter => To(s, p, Inside).(lk := Held(p))
    case Clear => s.(cond := false)
    case Raise => To(s, p, MustWake).(cond := true)
    case Leave => To(s, p, Outside).(lk := Free)
    case Kill(v) => if s.procs[v].run.Sleeping? then s.(procs := s.procs[v := s.procs[v].(run := Runnable)]) else s
    case Go =>
      match s.procs[p].pc
      case Inside => To(s, p, Falling)
      case MustWake => To(s, p, Waking(0)).(ptable := Held(p))
      case Waking(i) => if i < |s.procs| then To(WakeSlot(s, i), p, Waking(i + 1))
        else To(s, p, Inside).(ptable := Free)
      case Falling => To(s, p, Dropping).(ptable := Held(p))
      case Dropping => To(s, p, Marking).(lk := Free)
      case Marking => s.(procs := s.procs[p := Proc(Leaving, Sleeping, true)])
      case Leaving => To(s, p, Parked).(ptable := Free)
      case Parked => s.(procs := s.procs[p := s.procs[p].(pc := Back, run := Running)], ptable := Held(p))
      case Back => s.(procs := s.procs[p := s.procs[p].(pc := Again, onChan := false)], ptable := Free)
      case Again => To(s, p, Inside).(lk := Held(p))
  }

  // -------- The invariant --------

  predicate Locks(s: State) {
    && (forall p :: 0 <= p < |s.procs| ==> (HoldsLk(s.procs[p].pc) <==> s.lk == Held(p)))
    && (forall p :: 0 <= p < |s.procs| ==> (HoldsTable(s.procs[p].pc) <==> s.ptable == Held(p)))
    && (s.lk.Held? ==> s.lk.owner < |s.procs|) && (s.ptable.Held? ==> s.ptable.owner < |s.procs|)
  }

  /** SLEEPING is set on the way off the CPU; sleep is only called with the condition false. */
  predicate Mark(x: Proc, cond: bool) {
    && (x.run.Sleeping? ==> x.onChan && (x.pc.Leaving? || x.pc.Parked?))
    && (x.run.Runnable? ==> x.pc.Parked?) && (x.pc.Leaving? ==> x.run.Sleeping?) && (x.pc.Parked? ==> !x.run.Running?)
    && (x.pc.Falling? || x.pc.Dropping? ==> !cond)
  }

  predicate Marks(s: State) {
    forall p :: 0 <= p < |s.procs| ==> Mark(s.procs[p], s.cond)
  }

  /** The holder of lk has yet to wake process p. */
  predicate WillWake(s: State, p: Pid) {
    && s.lk.Held? && s.lk.owner < |s.procs|
    && (s.procs[s.lk.owner].pc.MustWake? || (s.procs[s.lk.owner].pc.Waking? && s.procs[s.lk.owner].pc.i <= p))
  }

  /** Whoever sleeps, or is past releasing lk on the way to sleep, while the condition holds, will be woken. */
  predicate Heard(s: State) {
    forall p :: 0 <= p < |s.procs| && s.cond && (s.procs[p].run.Sleeping? || s.procs[p].pc.Marking?) ==> WillWake(s, p)
  }

  predicate Ok(s: State) {
    Locks(s) && Marks(s) && Heard(s)
  }

  /** A step moves one process. */
  lemma StepOthers(s: State, p: Pid, a: Action)
    requires Enabled(s, p, a)
    ensures |Step(s, p, a).procs| == |s.procs|
    ensures forall q {:trigger Step(s, p, a).procs[q]} :: 0 <= q < |s.procs| && q != p ==>
              Step(s, p, a).procs[q].pc == s.procs[q].pc
  {
  }

  /** A lock stays with its owner, or passes between being free and p. */
  predicate Passes(l: Lock, l': Lock, p: Pid, before: bool, after: bool) {
    && (before == after ==> l' == l) && (before && !after ==> l'.Free?)
       && (!before && after ==> l.Free? && l' == Held(p))
  }

  lemma StepOwn(s: State, p: Pid, a: Action)
    requires Locks(s) && Enabled(s, p, a)
    ensures |Step(s, p, a).procs| == |s.procs|
    ensures Passes(s.lk, Step(s, p, a).lk, p, HoldsLk(s.procs[p].pc), HoldsLk(Step(s, p, a).procs[p].pc))
    ensures Passes(s.ptable, Step(s, p, a).ptable, p, HoldsTable(s.procs[p].pc), HoldsTable(Step(s, p, a).procs[p].pc))
  {
  }

  lemma StepLocks(s: State, p: Pid, a: Action)
    requires Locks(s) && Enabled(s, p, a)
    ensures Locks(Step(s, p, a))
  {
    StepOthers(s, p, a);
    StepOwn(s, p, a);
    hide Step, Enabled, HoldsLk, HoldsTable;
  }

  lemma StepMark(s: State, p: Pid, a: Action, q: Pid)
    requires Locks(s) && Enabled(s, p, a) && q < |s.procs| && Mark(s.procs[p], s.cond) && Mark(s.procs[q], s.cond)
    ensures |Step(s, p, a).procs| == |s.procs| && Mark(Step(s, p, a).procs[q], Step(s, p, a).cond)
  {
  }

  lemma StepMarks(s: State, p: Pid, a: Action)
    requires Locks(s) && Marks(s) && Enabled(s, p, a)
    ensures Marks(Step(s, p, a))
  {
    hide Mark, Step, Locks;
    forall q | 0 <= q < |Step(s, p, a).procs| ensures Mark(Step(s, p, a).procs[q], Step(s, p, a).cond) {
      StepOthers(s, p, a);
      StepMark(s, p, a, q);
    }
  }

  lemma StepHeard(s: State, p: Pid, a: Action)
    requires Ok(s) && Enabled(s, p, a)
    ensures Heard(Step(s, p, a))
  {
  }

  lemma StepOk(s: State, p: Pid, a: Action)
    requires Ok(s) && Enabled(s, p, a)
    ensures Ok(Step(s, p, a))
  {
    hide Locks, Marks, Heard;
    StepLocks(s, p, a);
    StepMarks(s, p, a);
    StepHeard(s, p, a);
  }

  // -------- Runs --------

  function Initial(n: nat, cond: bool): State {
    State(seq(n, _ => Proc(Outside, Running, false)), Free, Free, cond)
  }

  ghost predicate IsRun(s: State, es: seq<(Pid, Action)>, t: State)
    decreases |es|
  {
    if es == [] then s == t else Enabled(s, es[0].0, es[0].1) && IsRun(Step(s, es[0].0, es[0].1), es[1..], t)
  }

  lemma {:induction false} RunOk(s: State, es: seq<(Pid, Action)>, t: State)
    requires Ok(s) && IsRun(s, es, t)
    ensures Ok(t)
    decreases |es|
  {
    if es != [] {
      StepOk(s, es[0].0, es[0].1);
      RunOk(Step(s, es[0].0, es[0].1), es[1..], t);
    }
  }

  /** In every run of any number of processes, whenever lk is free and the condition holds, no process
      is asleep on the channel, and none is on its way to sleep there. */
  lemma {:induction false} NoLostWakeup(n: nat, cond: bool, es: seq<(Pid, Action)>, t: State, p: Pid)
    requires IsRun(Initial(n, cond), es, t) && t.lk.Free? && t.cond && p < |t.procs|
    ensures !t.procs[p].run.Sleeping? && !t.procs[p].pc.Marking?
  {
    assert Ok(Initial(n, cond));
    RunOk(Initial(n, cond), es, t);
  }

  /** The two locks each have at most one holder, and a process that returns from sleep holds lk again. */
  lemma {:induction false} Exclusive(n: nat, cond: bool, es: seq<(Pid, Action)>, t: State, p: Pid, q: Pid)
    requires IsRun(Initial(n, cond), es, t) && p < |t.procs| && q < |t.procs| && p != q
    ensures !(HoldsLk(t.procs[p].pc) && HoldsLk(t.procs[q].pc))
            && !(HoldsTable(t.procs[p].pc) && HoldsTable(t.procs[q].pc))
  {
    assert Ok(Initial(n, cond));
    RunOk(Initial(n, cond), es, t);
  }

  ghost predicate CanMove(s: State) {
    exists p: Pid, a: Action :: Enabled(s, p, a)
  }

  /** No deadlock: in every run, some process can take a step, unless all are asleep; and then the
      condition is false. */
  lemma {:induction false} Progress(n: nat, cond: bool, es: seq<(Pid, Action)>, t: State, p: Pid)
    requires IsRun(Initial(n, cond), es, t) && p < |t.procs|
    ensures CanMove(t) || (t.procs[p].run.Sleeping? && !t.cond)
  {
    assert Ok(Initial(n, cond));
    RunOk(Initial(n, cond), es, t);
    Moves(t, p);
  }

  lemma Moves(s: State, p: Pid)
    requires Ok(s) && p < |s.procs|
    ensures CanMove(s) || (s.procs[p].run.Sleeping? && !s.cond)
  {
    if s.ptable.Held? {
      assert Enabled(s, s.ptable.owner, Go);
    } else if s.lk.Held? {
      assert Enabled(s, s.lk.owner, if s.procs[s.lk.owner].pc.Inside? then Leave else Go);
    } else if s.procs[p].pc.Outside? {
      assert Enabled(s, p, Enter);
    } else if !s.procs[p].run.Sleeping? {
      assert Enabled(s, p, Go);
    }
  }
}
