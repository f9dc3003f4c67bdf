/** What a pipe does between two moments at which its lock is free: a bounded queue of bytes, its two
    ends, and the processes asleep on it. A call runs from taking the lock to releasing it, either for
    good or to sleep; a sleeper that was woken runs on from where it slept. */
module PipeSpec {
  import opened Blocks

  const PIPESIZE := 512

  type Pid = nat

  /** The two channels of a pipe, &p->nread and &p->nwrite. */
  datatype Chan = NRead | NWrite

  /** Every byte ever put in and every byte ever taken out. */
  datatype Queue = Queue(sent: seq<Byte>, got: seq<Byte>, readOpen: bool, writeOpen: bool, asleep: map<Pid, Chan>)

  datatype Wrote = Wrote | WriteFailed | WriteSleeps(done: nat)

  datatype Got = Got(bytes: seq<Byte>) | ReadFailed | ReadSleeps

  function Min(a: int, b: int): int {
    if a < b then a else b
  }

  /** What is read is what was written, and at most PIPESIZE bytes are under way. */
  predicate QueueOk(q: Queue) {
    q.got <= q.sent && |q.sent| - |q.got| <= PIPESIZE
  }

  function Held(q: Queue): int {
    |q.sent| - |q.got|
  }

  function Room(q: Queue): int {
    PIPESIZE - Held(q)
  }

  function Wake(asleep: map<Pid, Chan>, c: Chan): map<Pid, Chan> {
    map p | p in asleep && asleep[p] != c :: asleep[p]
  }

  /** pipewrite from byte i on (pipe.c:83-96). */
  function WriteStep(q: Queue, me: Pid, addr: seq<Byte>, i: nat, killed: bool): (Queue, Wrote)
    requires QueueOk(q) && i <= |addr|
  {
    var k := Min(|addr| - i, Room(q));
    var full := q.(sent := q.sent + addr[i..i + k]);
    if i + k == |addr| then (full.(asleep := Wake(q.asleep, NRead)), Wrote.Wrote)
    else if !q.readOpen || killed then (full, WriteFailed)
    else (full.(asleep := Wake(q.asleep, NRead)[me := NWrite]), WriteSleeps(i + k))
  }

  /** piperead of n bytes (pipe.c:105-119). */
  function ReadStep(q: Queue, me: Pid, n: nat, killed: bool): (Queue, Got)
    requires QueueOk(q)
  {
    if Held(q) == 0 && q.writeOpen then
      if killed then (q, ReadFailed) else (q.(asleep := q.asleep[me := NRead]), ReadSleeps)
    else
      var bytes := q.sent[|q.got|..|q.got| + Min(n, Held(q))];
      (q.(got := q.got + bytes, asleep := Wake(q.asleep, NWrite)), Got.Got(bytes))
  }

  /** pipeclose (pipe.c:62-68). */
  function CloseStep(q: Queue, writable: bool): Queue {
    if writable then q.(writeOpen := false, asleep := Wake(q.asleep, NRead))
    else q.(readOpen := false, asleep := Wake(q.asleep, NWrite))
  }

  // -------- Runs --------

  datatype Call = Writing(addr: seq<Byte>, done: nat) | Reading(n: nat)

  /** The pipe, the calls under way and the processes that were killed. */
  datatype Sys = Sys(q: Queue, calls: map<Pid, Call>, killed: set<Pid>)

  /** A process enters a call, runs on, closes the last descriptor of an end, or is killed (proc.c:423-441). */
  datatype Event = Enter(p: Pid, call: Call) | Run(p: Pid) | Close(writable: bool) | Kill(p: Pid)

  /** The descriptors a call uses stay open while it is under way, and only calls under way run. */
  predicate Enabled(s: Sys, e: Event) {
    match e
    case Enter(p, Writing(addr, done)) => p !in s.calls && s.q.writeOpen && done == 0
    case Enter(p, Reading(n)) => p !in s.calls && s.q.readOpen
    case Run(p) => p in s.calls && p !in s.q.asleep
    case Close(writable) => forall p :: p in s.calls ==> s.calls[p].Writing? != writable
    case Kill(p) => true
  }

  function Step(s: Sys, e: Event): Sys
    requires SysOk(s) && Enabled(s, e)
  {
    match e
    case Enter(p, call) => s.(calls := s.calls[p := call])
    case Run(p) => RunStep(s, p)
    case Close(writable) => s.(q := CloseStep(s.q, writable))
    case Kill(p) => s.(killed := s.killed + {p}, q := s.q.(asleep := s.q.asleep - {p}))
  }

  function RunStep(s: Sys, p: Pid): Sys
    requires SysOk(s) && p in s.calls
  {
    match s.calls[p]
    case Writing(addr, done) =>
      var (q, r) := WriteStep(s.q, p, addr, done, p in s.killed);
      s.(q := q, calls := if r.WriteSleeps? then s.calls[p := Writing(addr, r.done)] else s.calls - {p})
    case Reading(n) =>
      var (q, r) := ReadStep(s.q, p, n, p in s.killed);
      s.(q := q, calls := if r.ReadSleeps? then s.calls else s.calls - {p})
  }

  /** Only calls sleep, on their own channel. */
  predicate SysOk(s: Sys) {
    && QueueOk(s.q)
    && (forall p :: p in s.q.asleep ==> p in s.calls && s.calls[p].Writing? == (s.q.asleep[p] == NWrite))
    && (forall p :: p in s.calls ==> if s.calls[p].Writing? then s.q.writeOpen && s.calls[p].done <= |s.calls[p].addr|
      else s.q.readOpen)
  }

  /** A reader sleeps only on an empty pipe that may still be written, a writer only on a full one that may still be
      read. */
  predicate Awake(q: Queue) {
    && (forall p :: p in q.asleep && q.asleep[p] == NRead ==> Held(q) == 0 && q.writeOpen)
    && (forall p :: p in q.asleep && q.asleep[p] == NWrite ==> Room(q) == 0 && q.readOpen)
  }

  const START := Sys(Queue([], [], true, true, map[]), map[], {})

  ghost predicate IsRun(s: Sys, es: seq<Event>, t: Sys)
    decreases |es|
  {
    if es == [] then s == t
    else SysOk(s) && Enabled(s, es[0]) && IsRun(Step(s, es[0]), es[1..], t)
  }

  lemma StepOk(s: Sys, e: Event)
    requires SysOk(s) && Enabled(s, e)
    ensures SysOk(Step(s, e)) && s.q.got <= Step(s, e).q.got && s.q.sent <= Step(s, e).q.sent
  {
    if e.Run? { RunOk(s, e.p); }
  }

  lemma RunOk(s: Sys, p: Pid)
    requires SysOk(s) && p in s.calls && p !in s.q.asleep
    ensures SysOk(RunStep(s, p)) && s.q.got <= RunStep(s, p).q.got && s.q.sent <= RunStep(s, p).q.sent
  {
    match s.calls[p]
    case Writing(addr, done) =>
      assert QueueOk(WriteStep(s.q, p, addr, done, p in s.killed).0);
    case Reading(n) =>
      assert QueueOk(ReadStep(s.q, p, n, p in s.killed).0);
  }

  /** In every run, what was read is a prefix of what was written, and the pipe never overflows. */
  lemma {:induction false} Delivery(s: Sys, es: seq<Event>, t: Sys)
    requires SysOk(s) && IsRun(s, es, t)
    ensures SysOk(t) && s.q.got <= t.q.got <= t.q.sent && s.q.sent <= t.q.sent
    ensures 0 <= Held(t.q) <= PIPESIZE
    decreases |es|
  {
    if es != [] {
      StepOk(s, es[0]);
      Delivery(Step(s, es[0]), es[1..], t);
    }
  }

  /** pipewrite sends as much as there is room for; it returns success exactly if that is all, fails exactly if it
      is not and nobody can read or the caller has been killed, and otherwise sleeps, on a full pipe. */
  lemma WriteMeans(q: Queue, me: Pid, addr: seq<Byte>, i: nat, killed: bool)
    requires QueueOk(q) && i <= |addr|
    ensures var (q', r) := WriteStep(q, me, addr, i, killed);
      && q.sent <= q'.sent && q'.got == q.got && (r.Wrote? || Held(q') == PIPESIZE)
      && (r.Wrote? <==> |addr| - i <= PIPESIZE - Held(q))
      && (r.WriteFailed? <==> |addr| - i > PIPESIZE - Held(q) && (!q.readOpen || killed))
  {
  }

  /** piperead returns nothing exactly if nothing is asked for or at the end of the file, and fewer bytes than asked
      for only if it has emptied the pipe; it sleeps exactly on an empty pipe that may still be written, unless the
      caller has been killed. */
  lemma ReadMeans(q: Queue, me: Pid, n: nat, killed: bool)
    requires QueueOk(q)
    ensures var (q', r) := ReadStep(q, me, n, killed);
      && q'.sent == q.sent && (r.Got? <==> Held(q) > 0 || !q.writeOpen)
      && (r.ReadFailed? <==> Held(q) == 0 && q.writeOpen && killed)
      && (r.Got? ==> |r.bytes| <= n && (|r.bytes| < n ==> Held(q') == 0)
                     && (r.bytes == [] <==> n == 0 || (Held(q) == 0 && !q.writeOpen)))
  {
  }

  // -------- Nobody is left asleep --------

  predicate ReaderAsleep(q: Queue) {
    exists p :: p in q.asleep && q.asleep[p] == NRead
  }

  /** The one way a sleeper is missed: a killed writer fills the empty pipe under a sleeping reader and
      gives up without waking it (pipe.c:85-87). */
  predicate Strands(q: Queue, addr: seq<Byte>, i: nat, killed: bool) {
    killed && ReaderAsleep(q) && |addr| - i > PIPESIZE
  }

  lemma WriteAwake(q: Queue, me: Pid, addr: seq<Byte>, i: nat, killed: bool)
    requires QueueOk(q) && Awake(q) && i <= |addr| && (ReaderAsleep(q) ==> q.readOpen)
    ensures Awake(WriteStep(q, me, addr, i, killed).0) <==> !Strands(q, addr, i, killed)
  {
    var (r, w) := WriteStep(q, me, addr, i, killed);
    if Strands(q, addr, i, killed) {
      var p :| p in q.asleep && q.asleep[p] == NRead;
      assert p in r.asleep && r.asleep[p] == NRead && Held(r) == PIPESIZE;
    } else if w.WriteFailed? {
      forall p | p in r.asleep ensures if r.asleep[p] == NRead then Held(r) == 0 && r.writeOpen
        else Room(r) == 0 && r.readOpen {
        assert p in q.asleep;
      }
    }
  }

  lemma ReadAwake(q: Queue, me: Pid, n: nat, killed: bool)
    requires QueueOk(q) && Awake(q)
    ensures Awake(ReadStep(q, me, n, killed).0)
  {
  }

  lemma CloseAwake(q: Queue, writable: bool)
    requires Awake(q)
    ensures Awake(CloseStep(q, writable))
  {
  }

  predicate Stranding(s: Sys, e: Event) {
    && e.Run? && e.p in s.calls && s.calls[e.p].Writing?
    && Strands(s.q, s.calls[e.p].addr, s.calls[e.p].done, e.p in s.killed)
  }

  /** One step keeps everyone awake who can go on, unless it is the one described above. */
  lemma StepAwake(s: Sys, e: Event)
    requires SysOk(s) && Enabled(s, e) && Awake(s.q)
    ensures Awake(Step(s, e).q) <==> !Stranding(s, e)
  {
    match e
    case Run(p) =>
      match s.calls[p] {
        case Writing(addr, done) => WriteAwake(s.q, p, addr, done, p in s.killed);
        case Reading(n) => ReadAwake(s.q, p, n, p in s.killed);
      }
    case Close(writable) => CloseAwake(s.q, writable);
    case Kill(p) =>
    case Enter(p, call) =>
  }

  predicate NoKill(es: seq<Event>) {
    forall k :: 0 <= k < |es| ==> !es[k].Kill?
  }

  /** In every run without a kill, readers sleep only on an empty pipe and writers only on a full one. */
  lemma {:induction false} NobodyStranded(s: Sys, es: seq<Event>, t: Sys)
    requires SysOk(s) && Awake(s.q) && s.killed == {} && NoKill(es) && IsRun(s, es, t)
    ensures SysOk(t) && Awake(t.q)
    decreases |es|
  {
    if es != [] {
      StepOk(s, es[0]);
      StepAwake(s, es[0]);
      NobodyStranded(Step(s, es[0]), es[1..], t);
    }
  }

  /** So a reader and a writer never wait for each other: whenever both are in a call, one can run. */
  lemma {:induction false} NoDeadlock(es: seq<Event>, t: Sys, r: Pid, w: Pid)
    requires NoKill(es) && IsRun(START, es, t)
    requires r in t.calls && t.calls[r].Reading? && w in t.calls && t.calls[w].Writing?
    ensures Enabled(t, Run(r)) || Enabled(t, Run(w))
  {
    NobodyStranded(START, es, t);
  }

  function Zeros(n: nat): (z: seq<Byte>)
    ensures |z| == n
  {
    seq(n, _ => 0)
  }

  lemma {:induction false} Extend(s: Sys, es: seq<Event>, t: Sys, e: Event)
    requires IsRun(s, es, t) && SysOk(t) && Enabled(t, e)
    ensures IsRun(s, es + [e], Step(t, e))
    decreases |es|
  {
    if es != [] {
      assert (es + [e])[1..] == es[1..] + [e];
      Extend(Step(s, es[0]), es[1..], t, e);
    }
  }

  /** A reader on an empty pipe goes to sleep. */
  lemma ReaderSleeps() returns (es: seq<Event>, t: Sys)
    ensures IsRun(START, es, t) && SysOk(t) && Awake(t.q)
    ensures t.q == START.q.(asleep := map[1 := NRead]) && t.calls == map[1 := Reading(1)] && t.killed == {}
  {
    hide IsRun;
    es, t := [], START;
    assert IsRun(START, es, t) by { Empty(START); }
    Extend(START, es, t, Enter(1, Reading(1)));
    es, t := es + [Enter(1, Reading(1))], Step(t, Enter(1, Reading(1)));
    Extend(START, es, t, Run(1));
    es, t := es + [Run(1)], Step(t, Run(1));
  }

  lemma {:induction false} Empty(s: Sys)
    ensures IsRun(s, [], s)
  {
  }

  /** With a kill it does happen: a full pipe, its writer gone, its reader asleep. */
  lemma KilledWriterStrands() returns (es: seq<Event>, t: Sys)
    ensures IsRun(START, es, t) && !Awake(t.q) && ReaderAsleep(t.q) && 2 !in t.calls
  {
    hide IsRun;
    es, t := ReaderSleeps();
    var w := Writing(Zeros(PIPESIZE + 1), 0);
    Extend(START, es, t, Enter(2, w));
    es, t := es + [Enter(2, w)], Step(t, Enter(2, w));
    Extend(START, es, t, Kill(2));
    es, t := es + [Kill(2)], Step(t, Kill(2));
    assert 1 in t.q.asleep && Stranding(t, Run(2));
    StepAwake(t, Run(2));
    Extend(START, es, t, Run(2));
    es, t := es + [Run(2)], Step(t, Run(2));
    assert 1 in t.q.asleep;
  }
}
