/** The interrupt-driven request queue of ide.c, and its refinement of the synchronous disk
    of memide.c.

    Each method is one critical section under idelock, or one step of the disk drive. There are
    no device errors, and the drive interrupts only after completing a command. */
module Ide {
  import opened Blocks

  /** NULL in a queue link. */
  const NIL := -1

  datatype DiskBuf = DiskBuf(sector: nat, busy: bool, valid: bool, dirty: bool, data: Block) {
    /** The buffer has been read or written: the wait in iderw is over (ide.c:150). */
    predicate Synced() {
      valid && !dirty
    }
  }

  /** What idestart hands to the drive (ide.c:78-87). */
  datatype Command = ReadCmd(sector: nat) | WriteCmd(sector: nat, data: Block)

  datatype Drive = Idle | Working(cmd: Command) | Finished(cmd: Command, fetched: Block)

  datatype Outcome = Done | Panic

  // -------- memide.c --------

  datatype Store = Store(disk: seq<Block>, bufs: seq<DiskBuf>)

  predicate CanServe(st: Store, b: int) {
    0 <= b < |st.bufs| && st.bufs[b].sector < |st.disk|
  }

  /** memide.c:52-57: the synchronous iderw of a buffer that needs reading or writing. */
  function Serve(st: Store, b: int): Store
    requires CanServe(st, b)
  {
    var p := st.bufs[b];
    if p.dirty then Store(st.disk[p.sector := p.data], st.bufs[b := p.(dirty := false, valid := true)])
    else Store(st.disk, st.bufs[b := p.(data := st.disk[p.sector], valid := true)])
  }

  lemma ServeDisk(st: Store, b: int)
    requires CanServe(st, b)
    ensures var p := st.bufs[b]; Serve(st, b).disk == if p.dirty then st.disk[p.sector := p.data] else st.disk
  {
  }

  predicate CanServeAll(st: Store, reqs: seq<int>) {
    forall i :: 0 <= i < |reqs| ==> CanServe(st, reqs[i])
  }

  /** The synchronous disk working off the requests from number `from` on, in order. */
  function ServeFrom(st: Store, reqs: seq<int>, from: nat): (r: Store)
    requires from <= |reqs| && CanServeAll(st, reqs)
    ensures |r.disk| == |st.disk| && |r.bufs| == |st.bufs|
    ensures forall i :: 0 <= i < |st.bufs| ==> r.bufs[i].sector == st.bufs[i].sector
    decreases |reqs| - from
  {
    if from == |reqs| then st else ServeFrom(Serve(st, reqs[from]), reqs, from + 1)
  }

  lemma {:induction false} ServeHead(st: Store, reqs: seq<int>, from: nat)
    requires from < |reqs| && CanServeAll(st, reqs)
    ensures CanServeAll(Serve(st, reqs[from]), reqs)
    ensures ServeFrom(st, reqs, from) == ServeFrom(Serve(st, reqs[from]), reqs, from + 1)
  {
  }

  /** One more request is served after all the others. */
  lemma {:induction false} ServeAppend(st: Store, reqs: seq<int>, from: nat, b: int)
    requires from <= |reqs| && CanServeAll(st, reqs) && CanServe(st, b)
    ensures CanServeAll(st, reqs + [b]) && CanServe(ServeFrom(st, reqs, from), b)
    ensures ServeFrom(st, reqs + [b], from) == Serve(ServeFrom(st, reqs, from), b)
    decreases |reqs| - from
  {
    if from < |reqs| { ServeAppend(Serve(st, reqs[from]), reqs, from + 1, b); }
  }

  /** A buffer without a pending request is left alone. */
  lemma {:induction false} ServeOthers(st: Store, reqs: seq<int>, from: nat, b: int)
    requires from <= |reqs| && CanServeAll(st, reqs) && 0 <= b < |st.bufs|
    requires forall i :: from <= i < |reqs| ==> reqs[i] != b
    ensures ServeFrom(st, reqs, from).bufs[b] == st.bufs[b]
    decreases |reqs| - from
  {
    if from < |reqs| { ServeOthers(Serve(st, reqs[from]), reqs, from + 1, b); }
  }

  /** Changing a buffer without a pending request commutes with serving the others. */
  lemma {:induction false} ServeCommutes(st: Store, reqs: seq<int>, from: nat, b: int, p: DiskBuf)
    requires from <= |reqs| && CanServeAll(st, reqs) && 0 <= b < |st.bufs| && p.sector < |st.disk|
    requires forall i :: from <= i < |reqs| ==> reqs[i] != b
    ensures CanServeAll(Store(st.disk, st.bufs[b := p]), reqs)
    ensures var r := ServeFrom(st, reqs, from);
            ServeFrom(Store(st.disk, st.bufs[b := p]), reqs, from) == Store(r.disk, r.bufs[b := p])
    decreases |reqs| - from
  {
    if from < |reqs| {
      var q := reqs[from];
      ServeCommutes(Serve(st, q), reqs, from + 1, b, p);
      assert Serve(Store(st.disk, st.bufs[b := p]), q) == Store(Serve(st, q).disk, Serve(st, q).bufs[b := p]);
    }
  }

  // -------- ide.c --------

  function CommandFor(p: DiskBuf): Command {
    if p.dirty then WriteCmd(p.sector, p.data) else ReadCmd(p.sector)
  }

  /** The drive is carrying out the head request, or has done so. */
  predicate DriveOk(drive: Drive, p: DiskBuf, disk: seq<Block>) {
    match drive
    case Idle => false
    case Working(cmd) => cmd == CommandFor(p)
    case Finished(cmd, fetched) =>
      cmd == CommandFor(p) && p.sector < |disk| && disk[p.sector] == if p.dirty then p.data else fetched
  }

  // -------- The queue, linked through qnext --------

  function ReqAt(reqs: seq<int>, i: nat): int {
    if i < |reqs| then reqs[i] else NIL
  }

  predicate NotPending(reqs: seq<int>, served: nat, b: int) {
    forall i :: served <= i < |reqs| ==> reqs[i] != b
  }

  /** Head and links spell out the requests from number `served` on, all distinct. */
  ghost predicate Chain(qnext: seq<int>, head: int, reqs: seq<int>, served: nat) {
    && served <= |reqs| && head == ReqAt(reqs, served)
    && (forall i :: 0 <= i < |reqs| ==> 0 <= reqs[i] < |qnext|)
    && (forall i {:trigger qnext[reqs[i]]} :: served <= i < |reqs| ==> qnext[reqs[i]] == ReqAt(reqs, i + 1))
    && forall i, j :: served <= i < j < |reqs| ==> reqs[i] != reqs[j]
  }

  lemma ChainAppend(qnext: seq<int>, head: int, reqs: seq<int>, served: nat, b: int)
    requires Chain(qnext, head, reqs, served) && 0 <= b < |qnext| && NotPending(reqs, served, b) && qnext[b] == NIL
    ensures served == |reqs| ==> Chain(qnext, b, reqs + [b], served)
    ensures served < |reqs| ==> Chain(qnext[reqs[|reqs| - 1] := b], head, reqs + [b], served)
  {
    var more := reqs + [b];
    assert forall i :: 0 <= i < |reqs| ==> more[i] == reqs[i];
    if served < |reqs| {
      var q := qnext[reqs[|reqs| - 1] := b];
      forall i | served <= i < |more| ensures q[more[i]] == ReqAt(more, i + 1) {
        if i < |reqs| { assert qnext[reqs[i]] == ReqAt(reqs, i + 1); }
      }
    }
  }

  lemma ChainPop(qnext: seq<int>, head: int, reqs: seq<int>, served: nat)
    requires Chain(qnext, head, reqs, served) && head != NIL
    ensures served < |reqs| && head == reqs[served] && NotPending(reqs, served + 1, head)
    ensures Chain(qnext, qnext[head], reqs, served + 1)
    ensures qnext[head] != NIL ==> served + 1 < |reqs| && 0 <= qnext[head] == reqs[served + 1] < |qnext|
    ensures qnext[head] == NIL ==> served + 1 == |reqs|
  {
  }

  /** Queued requests are for held buffers that need I/O. */
  ghost predicate NeedIO(bufs: seq<DiskBuf>, reqs: seq<int>, served: nat) {
    forall i :: served <= i < |reqs| ==> 0 <= reqs[i] < |bufs| && bufs[reqs[i]].busy && !bufs[reqs[i]].Synced()
  }

  lemma NeedIOMore(bufs: seq<DiskBuf>, reqs: seq<int>, served: nat, b: nat)
    requires NeedIO(bufs, reqs, served) && b < |bufs| && bufs[b].busy && !bufs[b].Synced()
    ensures NeedIO(bufs, reqs + [b], served)
  {
  }

  predicate InRange(bufs: seq<DiskBuf>, disk: seq<Block>) {
    forall b :: 0 <= b < |bufs| ==> bufs[b].sector < |disk|
  }

  lemma Servable(disk: seq<Block>, bufs: seq<DiskBuf>, qnext: seq<int>, head: int, reqs: seq<int>, served: nat)
    requires Chain(qnext, head, reqs, served) && |qnext| == |bufs| && InRange(bufs, disk)
    ensures CanServeAll(Store(disk, bufs), reqs) && served <= |reqs|
    ensures head != NIL ==> served < |reqs| && head == reqs[served]
  {
  }

  lemma ServedLeaves(disk: seq<Block>, bufs: seq<DiskBuf>, reqs: seq<int>, served: nat)
    requires served < |reqs| && NeedIO(bufs, reqs, served) && InRange(bufs, disk)
    requires NotPending(reqs, served + 1, reqs[served])
    ensures var r := Serve(Store(disk, bufs), reqs[served]);
            && NeedIO(r.bufs, reqs, served + 1) && InRange(r.bufs, disk)
            && |r.bufs| == |bufs| && r.bufs[reqs[served]].Synced()
            && forall b :: 0 <= b < |bufs| && b != reqs[served] ==> r.bufs[b] == bufs[b]
  {
  }

  // -------- What was asked for --------

  /** A request as it was enqueued: to write data to a sector, or to read the sector into buffer buf. */
  datatype Request = Request(buf: int, write: bool, sector: nat, data: Block)

  function RequestOf(b: int, p: DiskBuf): Request {
    Request(b, p.dirty, p.sector, p.data)
  }

  /** The data of the last write to sector s among the first n requests, or what was there at first. */
  function LastWritten(first: seq<Block>, log: seq<Request>, n: nat, s: nat): Block
    requires n <= |log| && s < |first|
  {
    if n == 0 then first[s]
    else if log[n - 1].write && log[n - 1].sector == s then log[n - 1].data
    else LastWritten(first, log, n - 1, s)
  }

  /** No write to sector s from request number i up to number n. */
  predicate NoWrite(log: seq<Request>, i: nat, n: nat, s: nat)
    requires n <= |log|
  {
    forall j :: i <= j < n ==> !(log[j].write && log[j].sector == s)
  }

  lemma {:induction false} LastWrittenIs(first: seq<Block>, log: seq<Request>, n: nat, s: nat, i: nat)
    requires i <= n <= |log| && s < |first| && NoWrite(log, i, n, s)
    ensures LastWritten(first, log, n, s) == LastWritten(first, log, i, s)
    ensures i == 0 ==> LastWritten(first, log, n, s) == first[s]
    ensures i > 0 && log[i - 1].write && log[i - 1].sector == s ==> LastWritten(first, log, n, s) == log[i - 1].data
  {
    if n > i { LastWrittenIs(first, log, n - 1, s, i); }
  }

  lemma {:induction false} LastWrittenMore(first: seq<Block>, log: seq<Request>, r: Request, n: nat, s: nat)
    requires n <= |log| && s < |first|
    ensures LastWritten(first, log + [r], n, s) == LastWritten(first, log, n, s)
  {
    if n > 0 { LastWrittenMore(first, log, r, n - 1, s); }
  }

  /** What request number i is to leave in its buffer. */
  function Answer(first: seq<Block>, log: seq<Request>, i: nat): Block
    requires i < |log| && log[i].sector < |first|
  {
    if log[i].write then log[i].data else LastWritten(first, log, i, log[i].sector)
  }

  /** The log tells of each request, and of those not served yet what their buffers still say. */
  ghost predicate Told(first: seq<Block>, log: seq<Request>, reqs: seq<int>, served: nat, bufs: seq<DiskBuf>) {
    && |log| == |reqs| && (forall i :: 0 <= i < |log| ==> log[i].buf == reqs[i] && log[i].sector < |first|)
    && forall i :: served <= i < |log| ==> 0 <= reqs[i] < |bufs| && log[i] == RequestOf(reqs[i], bufs[reqs[i]])
  }

  /** Each sector holds the last data written to it by the first n requests. */
  ghost predicate Written(first: seq<Block>, log: seq<Request>, n: nat, disk: seq<Block>) {
    && n <= |log| && |disk| == |first|
    && forall s :: 0 <= s < |disk| ==> disk[s] == LastWritten(first, log, n, s)
  }

  /** The buffers whose last request, number last[b], has been served hold the answer to it. */
  ghost predicate Answered(first: seq<Block>, log: seq<Request>, last: map<int, nat>, reqs: seq<int>, served: nat,
                           bufs: seq<DiskBuf>)
    requires Told(first, log, reqs, served, bufs)
  {
    && (forall i :: served <= i < |reqs| ==> reqs[i] in last && last[reqs[i]] == i)
    && forall b :: b in last ==>
         && 0 <= b < |bufs| && last[b] < |log| && log[last[b]].buf == b
         && (NotPending(reqs, served, b) ==>
               bufs[b].sector == log[last[b]].sector && bufs[b].data == Answer(first, log, last[b]))
  }

  lemma WrittenMore(first: seq<Block>, log: seq<Request>, r: Request, n: nat, disk: seq<Block>)
    requires Written(first, log, n, disk)
    ensures Written(first, log + [r], n, disk)
  {
    forall s | 0 <= s < |disk| ensures disk[s] == LastWritten(first, log + [r], n, s) {
      LastWrittenMore(first, log, r, n, s);
    }
  }

  /** A request served right after the first n. */
  lemma WrittenNext(first: seq<Block>, log: seq<Request>, n: nat, disk: seq<Block>, disk': seq<Block>)
    requires Written(first, log, n, disk) && n < |log| && log[n].sector < |disk|
    requires disk' == if log[n].write then disk[log[n].sector := log[n].data] else disk
    ensures Written(first, log, n + 1, disk')
  {
  }

  /** One more request is enqueued. */
  lemma AnsweredMore(first: seq<Block>, log: seq<Request>, last: map<int, nat>, reqs: seq<int>, served: nat,
                     bufs: seq<DiskBuf>, b: nat)
    requires Told(first, log, reqs, served, bufs) && Answered(first, log, last, reqs, served, bufs)
    requires b < |bufs| && bufs[b].sector < |first| && NotPending(reqs, served, b) && served <= |reqs|
    ensures var log', reqs' := log + [RequestOf(b, bufs[b])], reqs + [b];
            Told(first, log', reqs', served, bufs) && Answered(first, log', last[b := |log|], reqs', served, bufs)
  {
    var r := RequestOf(b, bufs[b]);
    var log', reqs', last' := log + [r], reqs + [b], last[b := |log|];
    assert reqs'[|reqs|] == b;
    forall c | c in last' && NotPending(reqs', served, c)
      ensures bufs[c].sector == log'[last'[c]].sector && bufs[c].data == Answer(first, log', last'[c])
    {
      assert reqs'[|reqs|] != c;
      assert forall i :: served <= i < |reqs| ==> reqs'[i] == reqs[i];
      LastWrittenMore(first, log, r, last[c], log[last[c]].sector);
    }
  }

  /** The request at the head is answered. */
  lemma AnsweredNext(first: seq<Block>, log: seq<Request>, last: map<int, nat>, reqs: seq<int>, served: nat,
                     bufs: seq<DiskBuf>, p: DiskBuf)
    requires Told(first, log, reqs, served, bufs) && Answered(first, log, last, reqs, served, bufs)
    requires served < |reqs| && NotPending(reqs, served + 1, reqs[served])
    requires p.sector == log[served].sector && p.data == Answer(first, log, served)
    ensures var bufs' := bufs[reqs[served] := p];
            Told(first, log, reqs, served + 1, bufs') && Answered(first, log, last, reqs, served + 1, bufs')
  {
    var b, bufs' := reqs[served], bufs[reqs[served] := p];
    forall c | c in last && NotPending(reqs, served + 1, c)
      ensures bufs'[c].sector == log[last[c]].sector && bufs'[c].data == Answer(first, log, last[c])
    {
      if c != b { assert NotPending(reqs, served, c); }
    }
  }

  /** A buffer without a pending request is changed, and with it forgotten what it was last asked for. */
  lemma AnsweredChange(first: seq<Block>, log: seq<Request>, last: map<int, nat>, reqs: seq<int>, served: nat,
                       bufs: seq<DiskBuf>, b: nat, p: DiskBuf)
    requires Told(first, log, reqs, served, bufs) && Answered(first, log, last, reqs, served, bufs)
    requires b < |bufs| && NotPending(reqs, served, b)
    ensures Told(first, log, reqs, served, bufs[b := p])
    ensures Answered(first, log, last - {b}, reqs, served, bufs[b := p])
  {
  }

  /** All of it, n requests having reached the disk; sync is the synchronous disk. */
  ghost predicate HistoryOk(first: seq<Block>, log: seq<Request>, last: map<int, nat>, reqs: seq<int>, served: nat,
                            bufs: seq<DiskBuf>, n: nat, disk: seq<Block>, sync: seq<Block>)
  {
    && Told(first, log, reqs, served, bufs) && Answered(first, log, last, reqs, served, bufs)
    && Written(first, log, n, disk) && Written(first, log, |log|, sync)
  }

  lemma HistoryMore(first: seq<Block>, log: seq<Request>, last: map<int, nat>, reqs: seq<int>, served: nat,
                    bufs: seq<DiskBuf>, n: nat, disk: seq<Block>, sync: seq<Block>, b: nat)
    requires HistoryOk(first, log, last, reqs, served, bufs, n, disk, sync)
    requires b < |bufs| && bufs[b].sector < |disk| && NotPending(reqs, served, b) && served <= |reqs|
    ensures bufs[b].sector < |sync|
    ensures var sync' := if bufs[b].dirty then sync[bufs[b].sector := bufs[b].data] else sync;
            HistoryOk(first, log + [RequestOf(b, bufs[b])], last[b := |log|], reqs + [b], served, bufs, n, disk, sync')
  {
    hide Told, Answered;
    var r := RequestOf(b, bufs[b]);
    AnsweredMore(first, log, last, reqs, served, bufs, b);
    WrittenMore(first, log, r, n, disk);
    WrittenMore(first, log, r, |log|, sync);
    WrittenNext(first, log + [r], |log|, sync, if r.write then sync[r.sector := r.data] else sync);
  }

  /** The drive carries out the head request. */
  lemma HistoryDrive(first: seq<Block>, log: seq<Request>, last: map<int, nat>, reqs: seq<int>, served: nat,
                     bufs: seq<DiskBuf>, disk: seq<Block>, sync: seq<Block>)
    requires HistoryOk(first, log, last, reqs, served, bufs, served, disk, sync) && served < |reqs|
    ensures 0 <= reqs[served] < |bufs| && bufs[reqs[served]].sector < |disk|
    ensures var p := bufs[reqs[served]];
            HistoryOk(first, log, last, reqs, served, bufs, served + 1,
                      if p.dirty then disk[p.sector := p.data] else disk, sync)
  {
    var r := log[served];
    WrittenNext(first, log, served, disk, if r.write then disk[r.sector := r.data] else disk);
  }

  /** The head request is answered with what the drive has fetched. */
  lemma HistoryNext(first: seq<Block>, log: seq<Request>, last: map<int, nat>, reqs: seq<int>, served: nat,
                    bufs: seq<DiskBuf>, disk: seq<Block>, sync: seq<Block>, p: DiskBuf)
    requires HistoryOk(first, log, last, reqs, served, bufs, served + 1, disk, sync)
    requires served < |reqs| && NotPending(reqs, served + 1, reqs[served]) && 0 <= reqs[served] < |bufs|
    requires p.sector == bufs[reqs[served]].sector < |disk|
    requires p.data == if bufs[reqs[served]].dirty then bufs[reqs[served]].data else disk[p.sector]
    ensures HistoryOk(first, log, last, reqs, served + 1, bufs[reqs[served] := p], served + 1, disk, sync)
  {
    assert log[served] == RequestOf(reqs[served], bufs[reqs[served]]);
    assert disk[p.sector] == LastWritten(first, log, served + 1, p.sector);
    AnsweredNext(first, log, last, reqs, served, bufs, p);
  }

  lemma HistoryChange(first: seq<Block>, log: seq<Request>, last: map<int, nat>, reqs: seq<int>, served: nat,
                      bufs: seq<DiskBuf>, n: nat, disk: seq<Block>, sync: seq<Block>, b: nat, p: DiskBuf)
    requires HistoryOk(first, log, last, reqs, served, bufs, n, disk, sync) && b < |bufs| && NotPending(reqs, served, b)
    ensures HistoryOk(first, log, last - {b}, reqs, served, bufs[b := p], n, disk, sync)
  {
    hide Told, Answered;
    AnsweredChange(first, log, last, reqs, served, bufs, b, p);
  }

  class Driver {
    var bufs: seq<DiskBuf>
    /** The qnext fields of the buffers, and the queue head. */
    var qnext: seq<int>
    var idequeue: int
    var disk: seq<Block>
    var drive: Drive

    /** Every request ever made, in order, and how many have been completed: the rest are queued. */
    ghost var reqs: seq<int>
    ghost var served: nat

    /** The synchronous disk and buffers after the same requests. */
    ghost var spec: Store

    /** The disk at first, the requests as they were made, and the last one of each buffer not changed since. */
    ghost const first: seq<Block>
    ghost var log: seq<Request>
    ghost var last: map<int, nat>

    /** How many requests have reached the disk. */
    ghost function Reached(): nat
      reads this
    {
      served + if drive.Finished? then 1 else 0
    }

    ghost predicate History()
      reads this
    {
      HistoryOk(first, log, last, reqs, served, bufs, Reached(), disk, spec.disk)
    }

    ghost predicate Pending(b: int)
      reads this
    {
      !NotPending(reqs, served, b)
    }

    ghost predicate Valid()
      reads this
    {
      && Chain(qnext, idequeue, reqs, served) && |qnext| == |bufs|
      && NeedIO(bufs, reqs, served) && InRange(bufs, disk)
      && (idequeue == NIL ==> drive == Idle)
      && (idequeue != NIL ==> DriveOk(drive, bufs[idequeue], disk))
      && spec == ServeFrom(Store(disk, bufs), reqs, served)
      && History()
    }

    constructor (disk: seq<Block>, bufs: seq<DiskBuf>)
      requires InRange(bufs, disk)
      ensures Valid() && this.disk == disk && this.bufs == bufs && reqs == [] && log == [] && first == disk
    {
      this.disk, this.bufs, drive, idequeue := disk, bufs, Idle, NIL;
      first, log, last := disk, [], map[];
      qnext := seq(|bufs|, _ => NIL);
      reqs, served, spec := [], 0, Store(disk, bufs);
    }

    /** iderw up to its wait (ide.c:130-147): the request joins the end of the queue; the
        synchronous disk serves it at once. */
    method Submit(b: nat) returns (o: Outcome)
      requires Valid() && b < |bufs| && !Pending(b)
      modifies this
      ensures Valid() && disk == old(disk) && bufs == old(bufs) && served == old(served)
      ensures o == if bufs[b].busy && !bufs[b].Synced() then Done else Panic
      ensures o == Panic ==> reqs == old(reqs) && spec == old(spec) && log == old(log) && last == old(last)
      ensures o == Done ==>
                && reqs == old(reqs) + [b]
                && log == old(log) + [Request(b, bufs[b].dirty, bufs[b].sector, bufs[b].data)]
                && last == old(last)[b := |old(log)|]
                && CanServe(old(spec), b) && spec == Serve(old(spec), b)
    {
      if !bufs[b].busy {
        return Panic;
      }
      if bufs[b].valid && !bufs[b].dirty {
        return Panic;
      }
      Accept(b);
      return Done;
    }

    /** ide.c:137-147 */
    method Accept(b: nat)
      requires Valid() && b < |bufs| && !Pending(b) && bufs[b].busy && !bufs[b].Synced()
      modifies this
      ensures Valid() && disk == old(disk) && bufs == old(bufs) && served == old(served)
      ensures reqs == old(reqs) + [b] && log == old(log) + [RequestOf(b, bufs[b])]
      ensures last == old(last)[b := |old(log)|]
      ensures CanServe(old(spec), b) && spec == Serve(old(spec), b)
    {
      hide ServeFrom, Serve, Chain, NeedIO, CanServeAll, HistoryOk;
      Servable(disk, bufs, qnext, idequeue, reqs, served);
      NeedIOMore(bufs, reqs, served, b);
      ServeAppend(Store(disk, bufs), reqs, served, b);
      ServeOthers(Store(disk, bufs), reqs, served, b);
      ServeDisk(spec, b);
      HistoryMore(first, log, last, reqs, served, bufs, Reached(), disk, spec.disk, b);
      Enqueue(b);
      spec := Serve(spec, b);
      log, last := log + [RequestOf(b, bufs[b])], last[b := |log|];
      if idequeue == b {
        drive := Start(b);
      }
    }

    /** Walk to the end of the queue and hook the buffer in (ide.c:140-143). */
    method Enqueue(b: nat)
      requires Chain(qnext, idequeue, reqs, served) && b < |qnext| && !Pending(b)
      modifies `qnext, `idequeue, `reqs
      ensures Chain(qnext, idequeue, reqs, served) && |qnext| == |old(qnext)| && reqs == old(reqs) + [b]
      ensures idequeue == if old(idequeue) == NIL then b else old(idequeue)
    {
      qnext := qnext[b := NIL];
      assert Chain(qnext, idequeue, reqs, served);
      ChainAppend(qnext, idequeue, reqs, served, b);
      if idequeue == NIL {
        idequeue := b;
      } else {
        var p := idequeue;
        ghost var k := served;
        while qnext[p] != NIL
          invariant served <= k < |reqs| && p == reqs[k]
          decreases |reqs| - k
        {
          p := qnext[p];
          k := k + 1;
        }
        assert k + 1 == |reqs|;
        hide Chain;
        qnext := qnext[p := b];
      }
      reqs := reqs + [b];
    }

    /** The command idestart gives the drive (ide.c:69-88). */
    method Start(b: nat) returns (d: Drive)
      requires b < |bufs|
      ensures d == Working(CommandFor(bufs[b]))
    {
      if bufs[b].dirty {
        d := Working(WriteCmd(bufs[b].sector, bufs[b].data));
      } else {
        d := Working(ReadCmd(bufs[b].sector));
      }
    }

    /** The drive completes its command. */
    method DriveStep()
      requires Valid() && drive.Working?
      modifies this
      ensures Valid() && drive.Finished? && bufs == old(bufs) && reqs == old(reqs) && served == old(served)
      ensures spec == old(spec) && log == old(log) && last == old(last)
    {
      hide HistoryOk, NeedIO;
      HistoryDrive(first, log, last, reqs, served, bufs, disk, spec.disk);
      ghost var st := Store(disk, bufs);
      match drive.cmd {
        case WriteCmd(s, data) => disk, drive := disk[s := data], Finished(drive.cmd, data);
        case ReadCmd(s) => drive := Finished(drive.cmd, disk[s]);
      }
      assert Serve(Store(disk, bufs), idequeue) == Serve(st, idequeue);
    }

    /** ideintr (ide.c:91-119): the head request is complete and the next one starts. */
    method Interrupt()
      requires Valid() && !drive.Working?
      modifies this
      ensures Valid() && spec == old(spec) && reqs == old(reqs) && disk == old(disk)
      ensures log == old(log) && last == old(last)
      ensures old(idequeue) == NIL ==> served == old(served) && bufs == old(bufs)
      ensures old(idequeue) != NIL ==>
                && served == old(served) + 1
                && bufs[old(idequeue)].Synced()
                && forall b :: 0 <= b < |bufs| && b != old(idequeue) ==> bufs[b] == old(bufs)[b]
    {
      hide Chain, ServeFrom, NeedIO, InRange, Serve, CanServeAll, HistoryOk;
      if idequeue == NIL {
        return;
      }
      Servable(disk, bufs, qnext, idequeue, reqs, served);
      ChainPop(qnext, idequeue, reqs, served);
      ServeHead(Store(disk, bufs), reqs, served);
      ServedLeaves(disk, bufs, reqs, served);
      var b := idequeue;
      idequeue := qnext[b];
      Complete(b);
      HistoryNext(first, log, last, reqs, served, old(bufs), disk, spec.disk, bufs[b]);
      served := served + 1;
      drive := StartNext();
    }

    /** The next request, if there is one, goes to the drive (ide.c:115-116). */
    method StartNext() returns (d: Drive)
      requires idequeue == NIL || 0 <= idequeue < |bufs|
      ensures d == if idequeue == NIL then Idle else Working(CommandFor(bufs[idequeue]))
    {
      d := Idle;
      if idequeue != NIL {
        d := Start(idequeue);
      }
    }

    /** Fetch the data if it was a read, and set the flags (ide.c:106-111). */
    method Complete(b: nat)
      requires b < |bufs| && DriveOk(drive, bufs[b], disk) && drive.Finished?
      modifies `bufs
      ensures CanServe(Store(disk, old(bufs)), b) && Store(disk, bufs) == Serve(Store(disk, old(bufs)), b)
      ensures var p := old(bufs)[b];
        bufs == old(bufs)[b := DiskBuf(p.sector, p.busy, true, false, if p.dirty then p.data else drive.fetched)]
    {
      if !bufs[b].dirty {
        bufs := bufs[b := bufs[b].(data := drive.fetched)];
      }
      bufs := bufs[b := bufs[b].(valid := true, dirty := false)];
    }

    /** The holder of a buffer without a pending request changes it. */
    method Change(b: nat, p: DiskBuf)
      requires Valid() && b < |bufs| && !Pending(b) && p.sector < |disk|
      modifies `bufs, `spec, `last
      ensures Valid() && bufs == old(bufs)[b := p] && spec == Store(old(spec).disk, old(spec).bufs[b := p])
      ensures last == old(last) - {b}
    {
      hide HistoryOk;
      Servable(disk, bufs, qnext, idequeue, reqs, served);
      HistoryChange(first, log, last, reqs, served, bufs, Reached(), disk, spec.disk, b, p);
      last := last - {b};
      ServeCommutes(Store(disk, bufs), reqs, served, b, p);
      bufs := bufs[b := p];
      spec := spec.(bufs := spec.bufs[b := p]);
    }

    /** The wait in iderw (ide.c:150-152): once it is over the caller holds what the synchronous
        disk would have given it, and its request is no longer queued. If it was a read, its data is that of the
        last write to the sector enqueued before it. */
    method Wait(b: nat) returns (over: bool)
      requires Valid() && b < |bufs|
      ensures over == bufs[b].Synced()
      ensures over ==> !Pending(b) && |spec.bufs| == |bufs| && bufs[b] == spec.bufs[b]
      ensures over && b in last ==>
                && last[b] < |log| && log[last[b]].buf == b && log[last[b]].sector == bufs[b].sector < |first|
                && (!log[last[b]].write ==> bufs[b].data == LastWritten(first, log, last[b], bufs[b].sector))
                && (log[last[b]].write ==> bufs[b].data == log[last[b]].data)
    {
      over := bufs[b].valid && !bufs[b].dirty;
      if over { ServeOthers(Store(disk, bufs), reqs, served, b); }
    }

    /** With nothing queued, disk and buffers are those of the synchronous disk, and each sector holds the last data
        written to it in the order of the requests. */
    lemma Quiescent()
      requires Valid() && idequeue == NIL
      ensures spec == Store(disk, bufs) && |disk| == |first|
      ensures forall s :: 0 <= s < |disk| ==> disk[s] == LastWritten(first, log, |log|, s)
    {
    }
  }
}
