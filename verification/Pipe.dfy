/** The ring buffer of pipe.c, with its 32-bit counters, keeps the queue of PipeSpec. */
module Pipe {
  import opened Blocks
  import opened PipeSpec

  const UINT := 0x1_0000_0000

  /** Because UINT is a multiple of PIPESIZE the ring index survives the wrap-around of a counter. */
  lemma SlotOf(k: nat)
    ensures k % UINT % PIPESIZE == k % PIPESIZE
  {
    var q := k / UINT;
    assert k == UINT * q + k % UINT;
    assert k == PIPESIZE * (0x80_0000 * q) + k % UINT;
    SameSlot(k % UINT, 0x80_0000 * q);
  }

  lemma {:induction false} SameSlot(r: nat, q: nat)
    ensures (PIPESIZE * q + r) % PIPESIZE == r % PIPESIZE
  {
  }

  /** Counters tell the fill apart: at most PIPESIZE bytes are held, far less than UINT. */
  lemma Counters(sent: nat, got: nat)
    requires 0 <= sent - got <= PIPESIZE
    ensures sent % UINT == got % UINT <==> sent == got
    ensures sent % UINT == (got % UINT + PIPESIZE) % UINT <==> sent - got == PIPESIZE
  {
    var d := sent - got;
    assert sent % UINT == (got % UINT + d) % UINT;
  }

  lemma Bump(k: nat)
    ensures (k % UINT + 1) % UINT == (k + 1) % UINT
  {
  }

  /** Bytes under way have different slots. */
  lemma OwnSlot(j: nat, k: nat)
    requires j < k < j + PIPESIZE
    ensures j % PIPESIZE != k % PIPESIZE
  {
  }

  class Ring {
    const data: array<Byte>
    var nread: nat
    var nwrite: nat
    var readopen: bool
    var writeopen: bool
    var asleep: map<Pid, Chan>
    ghost var sent: seq<Byte>
    ghost var got: seq<Byte>

    ghost function Abs(): Queue
      reads this
    {
      Queue(sent, got, readopen, writeopen, asleep)
    }

    ghost predicate Valid()
      reads this, data
    {
      && data.Length == PIPESIZE && QueueOk(Abs())
      && nread == |got| % UINT && nwrite == |sent| % UINT
      && forall k: nat :: |got| <= k < |sent| ==> data[k % PIPESIZE] == sent[k]
    }

    /** pipealloc's part (pipe.c:32-35). */
    constructor ()
      ensures Valid() && fresh(data) && Abs() == START.q
    {
      data := new Byte[PIPESIZE](_ => 0);
      nread, nwrite, readopen, writeopen, asleep := 0, 0, true, true, map[];
      sent, got := [], [];
    }

    /** pipe.c:92 */
    method Put(b: Byte)
      requires Valid() && Room(Abs()) > 0
      modifies data, `nwrite, `sent
      ensures Valid() && sent == old(sent) + [b]
    {
      SlotOf(|sent|);
      Bump(|sent|);
      forall k: nat | |got| <= k < |sent| ensures k % PIPESIZE != |sent| % PIPESIZE { OwnSlot(k, |sent|); }
      data[nwrite % PIPESIZE] := b;
      nwrite := (nwrite + 1) % UINT;
      sent := sent + [b];
    }

    /** pipe.c:115 */
    method Take() returns (b: Byte)
      requires Valid() && Held(Abs()) > 0
      modifies `nread, `got
      ensures Valid() && b == sent[|old(got)|] && got == old(got) + [b]
    {
      SlotOf(|got|);
      Bump(|got|);
      b := data[nread % PIPESIZE];
      nread := (nread + 1) % UINT;
      assert sent[..|got| + 1] == got + [sent[|got|]];
      got := got + [b];
    }

    /** pipe.c:77-97, from byte start on: 0 on entry, otherwise where it slept. */
    method PipeWrite(me: Pid, addr: seq<Byte>, start: nat, killed: bool) returns (r: Wrote)
      requires Valid() && start <= |addr|
      modifies this, data
      ensures Valid()
      ensures (Abs(), r) == WriteStep(old(Abs()), me, addr, start, killed)
    {
      var i := start;
      while i < |addr|
        invariant start <= i <= |addr| && Valid()
        invariant Abs() == old(Abs()).(sent := old(sent) + addr[start..i])
      {
        Counters(|sent|, |got|);
        if nwrite == (nread + PIPESIZE) % UINT {
          if !readopen || killed { return WriteFailed; }
          asleep := Wake(asleep, NRead);
          asleep := asleep[me := NWrite];
          return WriteSleeps(i);
        }
        Put(addr[i]);
        i := i + 1;
      }
      asleep := Wake(asleep, NRead);
      return Wrote.Wrote;
    }

    /** pipe.c:99-120, on entry or where it slept. */
    method PipeRead(me: Pid, n: nat, killed: bool) returns (r: Got)
      requires Valid()
      modifies this
      ensures Valid()
      ensures (Abs(), r) == ReadStep(old(Abs()), me, n, killed)
    {
      Counters(|sent|, |got|);
      if nread == nwrite && writeopen {
        if killed { return ReadFailed; }
        asleep := asleep[me := NRead];
        return ReadSleeps;
      }
      var bytes := CopyOut(n);
      asleep := Wake(asleep, NWrite);
      return Got.Got(bytes);
    }

    /** pipe.c:112-116 */
    method CopyOut(n: nat) returns (bytes: seq<Byte>)
      requires Valid()
      modifies `nread, `got
      ensures Valid() && got == old(got) + bytes
      ensures bytes == sent[|old(got)|..|old(got)| + Min(n, old(Held(Abs())))]
    {
      var i := 0;
      bytes := [];
      while i < n
        invariant 0 <= i <= n && |bytes| == i && Valid()
        invariant got == old(got) + bytes && bytes == sent[|old(got)|..|got|]
      {
        Counters(|sent|, |got|);
        if nread == nwrite { break; }
        var b := Take();
        bytes := bytes + [b];
        i := i + 1;
      }
    }

    /** pipe.c:58-74; true when the pipe's page is freed. */
    method PipeClose(writable: bool) returns (gone: bool)
      requires Valid()
      modifies this
      ensures Valid() && Abs() == CloseStep(old(Abs()), writable)
      ensures gone <==> !readopen && !writeopen
    {
      if writable {
        writeopen := false;
        asleep := Wake(asleep, NRead);
      } else {
        readopen := false;
        asleep := Wake(asleep, NWrite);
      }
      gone := !readopen && !writeopen;
    }
  }
}
