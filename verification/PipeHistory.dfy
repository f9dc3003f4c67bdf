/** Whose bytes a pipe carries: every run of PipeSpec with a record of the calls made in it. */
module PipeHistory {
  import opened Blocks
  import opened PipeSpec

  /** A call of pipewrite: its buffer, how much of it has been sent, and whether it returned success. */
  datatype Sender = Sender(addr: seq<Byte>, done: nat, ok: bool)

  /** All calls of pipewrite in the order of entry, which of them each process is in, the sender of every byte ever
      sent, and what the calls of piperead returned, in order. */
  datatype Hist = Hist(senders: seq<Sender>, who: map<Pid, nat>, tags: seq<nat>, answers: seq<seq<Byte>>)

  const NOTHING := Hist([], map[], [], [])

  /** What an event adds, as it is seen from outside: the bytes by which `sent` grew, and the call's return value. */
  function Record(s: Sys, h: Hist, e: Event): Hist
    requires SysOk(s) && Enabled(s, e)
  {
    match e
    case Enter(p, Writing(addr, _)) =>
      h.(senders := h.senders + [Sender(addr, 0, false)], who := h.who[p := |h.senders|])
    case Run(p) =>
      StepOk(s, e);
      RecordRun(h, p, s.calls[p], |Step(s, e).q.sent| - |s.q.sent|, Returns(s, p))
    case _ => h
  }

  datatype Return = OfWrite(w: Wrote) | OfRead(g: Got)

  /** What the call returns, or that it sleeps. */
  function Returns(s: Sys, p: Pid): Return
    requires SysOk(s) && p in s.calls
  {
    match s.calls[p]
    case Writing(addr, done) => OfWrite(WriteStep(s.q, p, addr, done, p in s.killed).1)
    case Reading(n) => OfRead(ReadStep(s.q, p, n, p in s.killed).1)
  }

  function RecordRun(h: Hist, p: Pid, call: Call, n: nat, r: Return): Hist {
    if call.Writing? && p in h.who && h.who[p] < |h.senders| then
      var c := h.who[p];
      var x := h.senders[c];
      h.(senders := h.senders[c := x.(done := x.done + n, ok := r == OfWrite(Wrote.Wrote))],
         tags := h.tags + seq(n, _ => c))
    else if r.OfRead? && r.g.Got? then h.(answers := h.answers + [r.g.bytes])
    else h
  }

  /** The bytes of sender c, in order. */
  function SentBy(bytes: seq<Byte>, tags: seq<nat>, c: nat): seq<Byte>
    requires |bytes| == |tags|
  {
    if |bytes| == 0 then []
    else
      var n := |bytes| - 1;
      SentBy(bytes[..n], tags[..n], c) + if tags[n] == c then [bytes[n]] else []
  }

  function Join(answers: seq<seq<Byte>>): seq<Byte> {
    if answers == [] then [] else Join(answers[..|answers| - 1]) + answers[|answers| - 1]
  }

  lemma {:induction false} SentByMore(bytes: seq<Byte>, tags: seq<nat>, c: nat, more: seq<Byte>, w: nat)
    requires |bytes| == |tags|
    ensures SentBy(bytes + more, tags + seq(|more|, _ => w), c)
            == SentBy(bytes, tags, c) + if w == c then more else []
    decreases |more|
  {
    var b, t := bytes + more, tags + seq(|more|, _ => w);
    if more == [] {
      assert b == bytes && t == tags;
    } else {
      var n := |more| - 1;
      SentByMore(bytes, tags, c, more[..n], w);
      assert b[..|b| - 1] == bytes + more[..n] && t[..|b| - 1] == tags + seq(n, _ => w);
      assert more == more[..n] + [more[n]];
    }
  }

  /** What has been sent is an interleaving of the callers' bytes, each call's from the start of its own buffer on;
      a call that returned success has sent them all. */
  ghost predicate Interleaved(sent: seq<Byte>, senders: seq<Sender>, tags: seq<nat>) {
    && |tags| == |sent| && (forall i :: 0 <= i < |tags| ==> tags[i] < |senders|)
    && forall c :: 0 <= c < |senders| ==>
         && senders[c].done <= |senders[c].addr| && SentBy(sent, tags, c) == senders[c].addr[..senders[c].done]
         && (senders[c].ok ==> senders[c].done == |senders[c].addr|)
  }

  ghost function InWrite(s: Sys): set<Pid> {
    set p | p in s.calls && s.calls[p].Writing?
  }

  /** A process in pipewrite is in a call of its own. */
  ghost predicate CallsKnown(s: Sys, h: Hist) {
    && (forall p :: p in InWrite(s) ==>
          && p in h.who && h.who[p] < |h.senders| && !h.senders[h.who[p]].ok
          && h.senders[h.who[p]].addr == s.calls[p].addr && h.senders[h.who[p]].done == s.calls[p].done)
    && forall p, q :: p in InWrite(s) && q in InWrite(s) && p in h.who && q in h.who && h.who[p] == h.who[q] ==> p == q
  }

  ghost predicate HistOk(s: Sys, h: Hist) {
    Interleaved(s.q.sent, h.senders, h.tags) && CallsKnown(s, h) && Join(h.answers) == s.q.got
  }

  /** One call sends some more of its buffer. */
  lemma InterleavedMore(sent: seq<Byte>, senders: seq<Sender>, tags: seq<nat>, c: nat, n: nat, ok: bool)
    requires Interleaved(sent, senders, tags) && c < |senders| && senders[c].done + n <= |senders[c].addr|
    requires ok ==> senders[c].done + n == |senders[c].addr|
    ensures var x := senders[c];
            Interleaved(sent + x.addr[x.done..x.done + n], senders[c := x.(done := x.done + n, ok := ok)],
                        tags + seq(n, _ => c))
  {
    var x := senders[c];
    var more := x.addr[x.done..x.done + n];
    var senders' := senders[c := x.(done := x.done + n, ok := ok)];
    forall d | 0 <= d < |senders'|
      ensures SentBy(sent + more, tags + seq(n, _ => c), d) == senders'[d].addr[..senders'[d].done]
    {
      SentByMore(sent, tags, d, more, c);
      assert x.addr[..x.done] + more == x.addr[..x.done + n];
      hide SentBy;
    }
  }

  lemma {:induction false} InterleavedEnter(sent: seq<Byte>, senders: seq<Sender>, tags: seq<nat>, addr: seq<Byte>)
    requires Interleaved(sent, senders, tags)
    ensures Interleaved(sent, senders + [Sender(addr, 0, false)], tags)
  {
    Unsent(sent, tags, |senders|);
  }

  lemma {:induction false} Unsent(bytes: seq<Byte>, tags: seq<nat>, c: nat)
    requires |bytes| == |tags| && forall i :: 0 <= i < |tags| ==> tags[i] != c
    ensures SentBy(bytes, tags, c) == []
  {
    if |bytes| > 0 { Unsent(bytes[..|bytes| - 1], tags[..|bytes| - 1], c); }
  }

  lemma RecordWrite(s: Sys, h: Hist, p: Pid)
    requires SysOk(s) && HistOk(s, h) && Enabled(s, Run(p)) && s.calls[p].Writing?
    ensures HistOk(Step(s, Run(p)), Record(s, h, Run(p)))
  {
    hide Interleaved, Join, WriteStep, SysOk;
    assert p in InWrite(s);
    var call := s.calls[p];
    WriteSends(s, p);
    var (q, r) := WriteStep(s.q, p, call.addr, call.done, p in s.killed);
    InterleavedMore(s.q.sent, h.senders, h.tags, h.who[p], |q.sent| - |s.q.sent|, r.Wrote?);
  }

  lemma WriteSends(s: Sys, p: Pid)
    requires SysOk(s) && p in s.calls && s.calls[p].Writing?
    ensures var call := s.calls[p];
      && call.done <= |call.addr| && QueueOk(s.q)
      && var (q, r) := WriteStep(s.q, p, call.addr, call.done, p in s.killed);
         var n := |q.sent| - |s.q.sent|;
         && 0 <= n <= |call.addr| - call.done && q.sent == s.q.sent + call.addr[call.done..call.done + n]
         && q.got == s.q.got && (r.Wrote? ==> call.done + n == |call.addr|)
         && (r.WriteSleeps? ==> r.done == call.done + n)
  {
  }

  lemma RecordRead(s: Sys, h: Hist, p: Pid)
    requires SysOk(s) && HistOk(s, h) && Enabled(s, Run(p)) && s.calls[p].Reading?
    ensures HistOk(Step(s, Run(p)), Record(s, h, Run(p)))
  {
    hide Interleaved, SysOk;
    var h' := Record(s, h, Run(p));
    if h'.answers != h.answers {
      assert h'.answers[..|h'.answers| - 1] == h.answers;
    }
  }

  lemma RecordQuiet(s: Sys, h: Hist, e: Event)
    requires SysOk(s) && HistOk(s, h) && Enabled(s, e) && !e.Run? && !e.Enter?
    ensures HistOk(Step(s, e), Record(s, h, e))
  {
    hide Interleaved, SysOk;
    assert InWrite(Step(s, e)) == InWrite(s);
  }

  lemma RecordEnter(s: Sys, h: Hist, p: Pid, call: Call)
    requires SysOk(s) && HistOk(s, h) && Enabled(s, Enter(p, call))
    ensures HistOk(Step(s, Enter(p, call)), Record(s, h, Enter(p, call)))
  {
    hide Interleaved, SysOk, Join;
    var t := Step(s, Enter(p, call));
    if call.Writing? {
      assert InWrite(t) == InWrite(s) + {p};
      InterleavedEnter(s.q.sent, h.senders, h.tags, call.addr);
    } else {
      assert InWrite(t) == InWrite(s);
    }
  }

  lemma RecordOk(s: Sys, h: Hist, e: Event)
    requires SysOk(s) && HistOk(s, h) && Enabled(s, e)
    ensures HistOk(Step(s, e), Record(s, h, e))
  {
    hide HistOk, Step, Record;
    match e
    case Run(p) => if s.calls[p].Writing? { RecordWrite(s, h, p); } else { RecordRead(s, h, p); }
    case Enter(p, call) => RecordEnter(s, h, p, call);
    case _ => RecordQuiet(s, h, e);
  }

  /** The history of a run. */
  ghost function History(s: Sys, h: Hist, es: seq<Event>): Hist
    decreases |es|
  {
    if es == [] || !SysOk(s) || !Enabled(s, es[0]) then h
    else History(Step(s, es[0]), Record(s, h, es[0]), es[1..])
  }

  /** The buffers of the calls of pipewrite entered in a run, in order. */
  function Buffers(es: seq<Event>): seq<seq<Byte>> {
    if es == [] then []
    else (if es[0].Enter? && es[0].call.Writing? then [es[0].call.addr] else []) + Buffers(es[1..])
  }

  function Addrs(senders: seq<Sender>): (r: seq<seq<Byte>>)
    ensures |r| == |senders|
  {
    seq(|senders|, c requires 0 <= c < |senders| => senders[c].addr)
  }

  lemma {:induction false} RunHistory(s: Sys, h: Hist, es: seq<Event>, t: Sys)
    requires SysOk(s) && HistOk(s, h) && IsRun(s, es, t)
    ensures HistOk(t, History(s, h, es))
    ensures Addrs(History(s, h, es).senders) == Addrs(h.senders) + Buffers(es)
    decreases |es|
  {
    hide HistOk, SysOk, Step, Record;
    if es != [] {
      var e := es[0];
      StepOk(s, e);
      RecordOk(s, h, e);
      RecordAddrs(s, h, e);
      RunHistory(Step(s, e), Record(s, h, e), es[1..], t);
    }
  }

  lemma RecordAddrs(s: Sys, h: Hist, e: Event)
    requires SysOk(s) && Enabled(s, e)
    ensures Addrs(Record(s, h, e).senders)
            == Addrs(h.senders) + if e.Enter? && e.call.Writing? then [e.call.addr] else []
  {
    hide Step, SysOk, Returns;
  }

  /** In every run, the bytes sent are an interleaving of what the callers of pipewrite gave it: of the buffer of each
      call the first `done` bytes, in order, and all of them once it has returned success. And what the calls of
      piperead returned makes up the bytes taken out. */
  lemma {:induction false} FromCallers(es: seq<Event>, t: Sys)
    requires IsRun(START, es, t)
    ensures var h := History(START, NOTHING, es);
      && Interleaved(t.q.sent, h.senders, h.tags) && Addrs(h.senders) == Buffers(es)
      && Join(h.answers) == t.q.got <= t.q.sent
  {
    RunHistory(START, NOTHING, es, t);
    Delivery(START, es, t);
  }
}
