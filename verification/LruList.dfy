/** The doubly linked circular list of bio.c, whose nodes are the buffers 0..n-1 and the
    sentinel `bcache.head`, here node n. */
module LruList {

  datatype Link = Link(prev: nat, next: nat)

  /** Position i of a list, the sentinel sitting before the first and after the last node. */
  function At(order: seq<nat>, head: nat, i: int): nat {
    if 0 <= i < |order| then order[i] else head
  }

  /** The links spell out `order`, forwards and backwards, most recently released first. */
  predicate Linked(link: seq<Link>, order: seq<nat>, head: nat) {
    && head < |link|
    && (forall i :: 0 <= i < |order| ==> order[i] < head)
    && (forall i, j :: 0 <= i < j < |order| ==> order[i] != order[j])
    && forall i :: -1 <= i < |order| ==>
         && link[At(order, head, i)].next == At(order, head, i + 1)
         && link[At(order, head, i + 1)].prev == At(order, head, i)
  }

  function SetNext(link: seq<Link>, b: nat, x: nat): seq<Link>
    requires b < |link|
  {
    link[b := link[b].(next := x)]
  }

  function SetPrev(link: seq<Link>, b: nat, x: nat): seq<Link>
    requires b < |link|
  {
    link[b := link[b].(prev := x)]
  }

  /** The neighbours of b are linked to each other (bio.c:127-128). */
  function Unlink(link: seq<Link>, b: nat): (r: seq<Link>)
    requires b < |link| && link[b].next < |link| && link[b].prev < |link|
    ensures |r| == |link|
  {
    var l1 := SetPrev(link, link[b].next, link[b].prev);
    SetNext(l1, l1[b].prev, l1[b].next)
  }

  /** Insert b behind the sentinel (bio.c:129-132). */
  function PushFront(link: seq<Link>, b: nat, head: nat): (r: seq<Link>)
    requires b < |link| && head < |link| && b != head && link[head].next < |link|
    ensures |r| == |link|
  {
    var l1 := SetNext(link, b, link[head].next);
    var l2 := SetPrev(l1, b, head);
    var l3 := SetPrev(l2, l2[head].next, b);
    SetNext(l3, head, b)
  }

  function Remove(order: seq<nat>, k: nat): seq<nat>
    requires k < |order|
  {
    order[..k] + order[k + 1..]
  }

  lemma UnlinkRemoves(link: seq<Link>, order: seq<nat>, head: nat, k: nat)
    requires Linked(link, order, head) && k < |order|
    ensures var b := order[k];
            && link[b].next < |link| && link[b].prev < |link| && b !in Remove(order, k)
            && Linked(Unlink(link, b), Remove(order, k), head)
  {
    var b, rest := order[k], Remove(order, k);
    assert link[At(order, head, k)].next == At(order, head, k + 1);
    assert link[At(order, head, k - 1 + 1)].prev == At(order, head, k - 1);
    var r := Unlink(link, b);
    forall i | -1 <= i < |rest|
      ensures r[At(rest, head, i)].next == At(rest, head, i + 1)
      ensures r[At(rest, head, i + 1)].prev == At(rest, head, i)
    {
      if i < k - 1 {
        assert At(rest, head, i) == At(order, head, i) && At(rest, head, i + 1) == At(order, head, i + 1);
      } else if i > k - 1 {
        assert At(rest, head, i) == At(order, head, i + 1) && At(rest, head, i + 1) == At(order, head, i + 2);
        assert link[At(order, head, i + 1)].next == At(order, head, i + 1 + 1);
      }
    }
  }

  lemma PushFrontInserts(link: seq<Link>, order: seq<nat>, head: nat, b: nat)
    requires Linked(link, order, head) && b < head && b !in order
    ensures link[head].next < |link| && Linked(PushFront(link, b, head), [b] + order, head)
  {
    var longer := [b] + order;
    assert link[At(order, head, -1)].next == At(order, head, 0);
    var r := PushFront(link, b, head);
    forall i | -1 <= i < |longer|
      ensures r[At(longer, head, i)].next == At(longer, head, i + 1)
      ensures r[At(longer, head, i + 1)].prev == At(longer, head, i)
    {
      if i > 0 {
        assert At(longer, head, i) == At(order, head, i - 1) && At(longer, head, i + 1) == At(order, head, i);
        assert link[At(order, head, i - 1)].next == At(order, head, i - 1 + 1);
      }
    }
  }

  /** Nodes nearer the front were released no earlier. */
  predicate ByRelease(order: seq<nat>, stamp: seq<nat>) {
    && (forall i :: 0 <= i < |order| ==> order[i] < |stamp|)
    && forall i, j :: 0 <= i < j < |order| ==> stamp[order[i]] >= stamp[order[j]]
  }

  lemma RemoveByRelease(order: seq<nat>, stamp: seq<nat>, k: nat)
    requires k < |order| && ByRelease(order, stamp)
    ensures ByRelease(Remove(order, k), stamp)
  {
    var rest := Remove(order, k);
    forall i | 0 <= i < |rest| ensures rest[i] == order[if i < k then i else i + 1] {
    }
  }

  lemma PushByRelease(order: seq<nat>, stamp: seq<nat>, b: nat, clock: nat)
    requires ByRelease(order, stamp) && b < |stamp| && b !in order
    requires forall c :: 0 <= c < |stamp| ==> stamp[c] <= clock
    ensures ByRelease([b] + order, stamp[b := clock + 1])
  {
    var longer, stamp' := [b] + order, stamp[b := clock + 1];
    forall i | 0 < i < |longer| ensures longer[i] == order[i - 1] && stamp'[longer[i]] == stamp[order[i - 1]] {
    }
  }

  lemma MoveMembers(order: seq<nat>, k: nat, c: nat)
    requires k < |order| && c in order
    ensures c in [order[k]] + Remove(order, k)
  {
    var i :| 0 <= i < |order| && order[i] == c;
    if i != k { assert Remove(order, k)[if i < k then i else i - 1] == c; }
  }
}
