/** The circular doubly linked queues of the engine: a head node and the elements' nodes, relinked
    in place.  Each operation is stated as insertion into or removal from a sequence of nodes. */
module IQueue {
  import opened Words
  import opened Engine
  import Loops

  /** A segment with its embedded link.  The head of a queue is such a node too; its segment is
      never looked at.  What a segment carries depends on the queue. */
  class Node<T> {
    var next: Node?<T>
    var prev: Node?<T>
    const item: T

    constructor (item: T)
      ensures this.item == item && next == this && prev == this
    {
      this.item := item;
      next, prev := this, this;
    }
  }

  /** Position i of the ring: the head at both ends, the elements in between. */
  ghost function At<T>(head: Node<T>, q: seq<Node<T>>, i: int): Node<T>
    requires 0 <= i <= |q| + 1
  {
    if i == 0 || i == |q| + 1 then head else q[i - 1]
  }

  ghost predicate Linked<T>(a: Node<T>, b: Node<T>)
    reads a, b
  {
    a.next == b && b.prev == a
  }

  ghost predicate Distinct<T>(head: Node<T>, q: seq<Node<T>>) {
    head !in q && forall i, j :: 0 <= i < j < |q| ==> q[i] != q[j]
  }

  /** The nodes of q are distinct, and linked in both directions into a ring through the head. */
  ghost predicate Ring<T>(head: Node<T>, q: seq<Node<T>>)
    reads head, q
  {
    && Distinct(head, q)
    && forall i :: 0 <= i <= |q| ==> Linked(At(head, q, i), At(head, q, i + 1))
  }

  function Inserted<T>(q: seq<T>, k: nat, x: T): seq<T>
    requires k <= |q|
  {
    q[..k] + [x] + q[k..]
  }

  function Removed<T>(q: seq<T>, k: nat): seq<T>
    requires k < |q|
  {
    q[..k] + q[k + 1..]
  }

  lemma {:induction false} InsertedAt<T>(head: Node<T>, q: seq<Node<T>>, k: nat, node: Node<T>, i: nat)
    requires k <= |q| && i <= |q| + 2
    ensures At(head, Inserted(q, k, node), i) ==
            if i <= k then At(head, q, i) else if i == k + 1 then node else At(head, q, i - 1)
  {
  }

  lemma {:induction false} RemovedAt<T>(head: Node<T>, q: seq<Node<T>>, k: nat, i: nat)
    requires k < |q| && i <= |q|
    ensures At(head, Removed(q, k), i) == At(head, q, if i <= k then i else i + 1)
  {
  }

  /** What was removed can be put back, and what was inserted removed. */
  lemma {:induction false} InsertRemove<T>(q: seq<T>, k: nat, x: T)
    ensures k <= |q| ==> Removed(Inserted(q, k, x), k) == q
    ensures k < |q| ==> Inserted(Removed(q, k), k, q[k]) == q
  {
  }

  /** Two links of a ring share neither their first nodes nor their second. */
  lemma {:induction false} OtherLink<T>(head: Node<T>, q: seq<Node<T>>, i: nat, j: nat)
    requires Distinct(head, q) && i <= |q| && j <= |q| && i != j
    ensures At(head, q, i) != At(head, q, j) && At(head, q, i + 1) != At(head, q, j + 1)
  {
    if 0 < i && 0 < j { assert q[i - 1] != q[j - 1]; } else { assert q[(if i > 0 then i else j) - 1] in q; }
    if i < |q| && j < |q| { assert q[i] != q[j]; } else { assert q[if i < |q| then i else j] in q; }
  }

  lemma {:induction false} TailAt<T>(head: Node<T>, q: seq<Node<T>>, k: nat)
    requires Distinct(head, q) && k <= |q|
    ensures At(head, q, k + 1) == head ==> k == |q|
    ensures k == |q| ==> forall x :: Inserted(q, k, x) == q + [x]
  {
    if k < |q| { assert q[k] in q; }
  }

  lemma {:induction false} RemovedApart<T>(head: Node<T>, q: seq<Node<T>>, k: nat)
    requires Distinct(head, q) && k < |q|
    ensures q[k] !in Removed(q, k) && q[k] != head && forall n :: n in Removed(q, k) ==> n in q
  {
    forall i | 0 <= i < |Removed(q, k)| ensures Removed(q, k)[i] != q[k] && Removed(q, k)[i] in q {
      assert Removed(q, k)[i] == q[if i < k then i else i + 1];
    }
    assert q[k] in q;
  }

  /** `IQUEUE_INIT` */
  method Init<T>(ptr: Node<T>)
    modifies ptr
    ensures Ring(ptr, [])
  {
    ptr.next, ptr.prev := ptr, ptr;
  }

  /** `IQUEUE_ADD`: links `node` behind `p`, which stands at position k of the ring. */
  method Add<T>(node: Node<T>, p: Node<T>, ghost head: Node<T>, ghost q: seq<Node<T>>, ghost k: nat)
    requires Ring(head, q) && k <= |q| && p == At(head, q, k) && node != head && node !in q
    modifies node, p, p.next
    ensures Ring(head, Inserted(q, k, node))
  {
    assert Linked(At(head, q, k), At(head, q, k + 1));
    node.prev := p;
    node.next := p.next;
    p.next.prev := node;
    p.next := node;
    ghost var r := Inserted(q, k, node);
    forall i | 0 <= i <= |r| ensures Linked(At(head, r, i), At(head, r, i + 1)) {
      InsertedAt(head, q, k, node, i);
      InsertedAt(head, q, k, node, i + 1);
      if i != k && i != k + 1 {
        var j := if i < k then i else i - 1;
        assert old(Linked(At(head, q, j), At(head, q, j + 1)));
        OtherLink(head, q, j, k);
      }
    }
  }

  /** `IQUEUE_ADD_TAIL`: links `node` before `p`, which stands at position k + 1 of the ring; before
      the head, this appends. */
  method AddTail<T>(node: Node<T>, p: Node<T>, ghost head: Node<T>, ghost q: seq<Node<T>>, ghost k: nat)
    requires Ring(head, q) && k <= |q| && p == At(head, q, k + 1) && node != head && node !in q
    modifies node, p, p.prev
    ensures Ring(head, Inserted(q, k, node))
    ensures p == head ==> k == |q| && Inserted(q, k, node) == q + [node]
  {
    assert Linked(At(head, q, k), At(head, q, k + 1));
    TailAt(head, q, k);
    node.prev := p.prev;
    node.next := p;
    p.prev.next := node;
    p.prev := node;
    ghost var r := Inserted(q, k, node);
    forall i | 0 <= i <= |r| ensures Linked(At(head, r, i), At(head, r, i + 1)) {
      InsertedAt(head, q, k, node, i);
      InsertedAt(head, q, k, node, i + 1);
      if i != k && i != k + 1 {
        var j := if i < k then i else i - 1;
        assert old(Linked(At(head, q, j), At(head, q, j + 1)));
        OtherLink(head, q, j, k);
      }
    }
  }

  /** `IQUEUE_DEL`: unlinks the k-th element and clears its links. */
  method Del<T>(entry: Node<T>, ghost head: Node<T>, ghost q: seq<Node<T>>, ghost k: nat)
    requires Ring(head, q) && k < |q| && entry == q[k]
    modifies entry, entry.next, entry.prev
    ensures Ring(head, Removed(q, k)) && entry.next == null && entry.prev == null
  {
    assert Linked(At(head, q, k), At(head, q, k + 1)) && Linked(At(head, q, k + 1), At(head, q, k + 2));
    entry.next.prev := entry.prev;
    entry.prev.next := entry.next;
    entry.next := null;
    entry.prev := null;
    ghost var r := Removed(q, k);
    forall i | 0 <= i <= |r| ensures Linked(At(head, r, i), At(head, r, i + 1)) {
      RemovedAt(head, q, k, i);
      RemovedAt(head, q, k, i + 1);
      if i != k {
        var j := if i < k then i else i + 1;
        assert old(Linked(At(head, q, j), At(head, q, j + 1)));
        OtherLink(head, q, j, k);
        OtherLink(head, q, j, k + 1);
      }
    }
  }

  /** `IQUEUE_DEL_INIT` */
  method DelInit<T>(entry: Node<T>, ghost head: Node<T>, ghost q: seq<Node<T>>, ghost k: nat)
    requires Ring(head, q) && k < |q| && entry == q[k]
    modifies entry, entry.next, entry.prev
    ensures Ring(head, Removed(q, k)) && Ring(entry, [])
  {
    Del(entry, head, q, k);
    RemovedApart(head, q, k);
    Init(entry);
  }

  /** `IQUEUE_IS_EMPTY` */
  method IsEmpty<T>(head: Node<T>, ghost q: seq<Node<T>>) returns (empty: bool)
    requires Ring(head, q)
    ensures empty == (q == [])
  {
    assert Linked(At(head, q, 0), At(head, q, 1));
    empty := head == head.next;
    if q != [] { assert q[0] in q; }
  }

  /** Segments along the ring. */
  ghost function Items<T>(q: seq<Node<T>>): (r: seq<T>)
    ensures |r| == |q| && forall i :: 0 <= i < |q| ==> r[i] == q[i].item
  {
    if q == [] then [] else [q[0].item] + Items(q[1..])
  }

  lemma {:induction false} ItemsInserted<T>(q: seq<Node<T>>, k: nat, node: Node<T>)
    requires k <= |q|
    ensures Items(Inserted(q, k, node)) == Items(q)[..k] + [node.item] + Items(q)[k..]
  {
  }

  /** Two queues have no node in common. */
  ghost predicate Disjoint<T>(a: Node<T>, p: seq<Node<T>>, b: Node<T>, q: seq<Node<T>>) {
    a != b && a !in q && b !in p && forall n :: n in p ==> n !in q
  }

  lemma {:induction false} Neighbours<T>(head: Node<T>, q: seq<Node<T>>, i: nat)
    requires Ring(head, q) && i <= |q| + 1
    ensures var n := At(head, q, i);
            && (n == head || n in q) && (n.next == head || n.next in q) && (n.prev == head || n.prev in q)
  {
    assert Linked(At(head, q, if i <= |q| then i else 0), At(head, q, if i <= |q| then i + 1 else 1));
    assert Linked(At(head, q, if i > 0 then i - 1 else |q|), At(head, q, if i > 0 then i else |q| + 1));
  }

  /** Moves the first element of one queue to the tail of another. */
  method Transfer<T>(src: Node<T>, dst: Node<T>, ghost p: seq<Node<T>>, ghost q: seq<Node<T>>)
    requires Ring(src, p) && Ring(dst, q) && Disjoint(src, p, dst, q) && p != []
    modifies src, p, dst, q
    ensures Ring(src, p[1..]) && Ring(dst, q + [p[0]])
  {
    ghost var rest := p[1..];
    assert Linked(At(src, p, 0), At(src, p, 1));
    Neighbours(src, p, 1);
    RemovedApart(src, p, 0);
    assert Removed(p, 0) == rest;
    var entry := src.next;
    assert entry !in q && entry.next !in q && entry.prev !in q && dst != entry.next && dst != entry.prev;
    Del(entry, src, p, 0);
    assert Ring(src, rest) && Ring(dst, q);
    Append(entry, dst, q, src, rest);
  }

  /** Links a node at the end of one ring, leaving another alone. */
  method Append<T>(entry: Node<T>, dst: Node<T>, ghost q: seq<Node<T>>, ghost src: Node<T>, ghost rest: seq<Node<T>>)
    requires Ring(dst, q) && Ring(src, rest) && Disjoint(src, rest, dst, q)
    requires entry != dst && entry !in q && entry != src && entry !in rest
    modifies entry, dst, q
    ensures Ring(dst, q + [entry]) && Ring(src, rest)
  {
    Neighbours(dst, q, |q| + 1);
    AddTail(entry, dst, dst, q, |q|);
  }

  /** All nodes of the two queues. */
  ghost predicate Among<T>(p: seq<Node<T>>, q: seq<Node<T>>, nodes: set<Node<T>>) {
    (forall n :: n in p ==> n in nodes) && (forall n :: n in q ==> n in nodes)
  }

  lemma {:induction false} Shifted<T>(src: Node<T>, p: seq<Node<T>>, dst: Node<T>, q: seq<Node<T>>,
                                      nodes: set<Node<T>>)
    requires Distinct(src, p) && Disjoint(src, p, dst, q) && Among(p, q, nodes) && p != []
    ensures Disjoint(src, p[1..], dst, q + [p[0]]) && Among(p[1..], q + [p[0]], nodes)
    ensures Items(p[1..]) == Items(p)[1..] && Items(q + [p[0]]) == Items(q) + [Items(p)[0]]
  {
    assert p[0] in p && forall n :: n in p[1..] ==> n in p;
  }

  /** One round of the move, on values. */
  lemma {:induction false} MoveRound(k: Kcb, buf: seq<Pkt>, queue: seq<Pkt>, rcvNxt: u32)
    requires buf != [] && buf[0].sn == rcvNxt && |queue| < k.cfg.rcvWnd
    ensures MoveReady(Wrap32, k.(rcvBuf := buf, rcvQueue := queue, rcvNxt := rcvNxt)) ==
            MoveReady(Wrap32, k.(rcvBuf := buf[1..], rcvQueue := queue + [buf[0]], rcvNxt := U32(rcvNxt + 1)))
  {
  }

  /** The loop of `ikcp_parse_data` and `ikcp_recv` on linked queues: moves the segments that are
      next in order from rcv_buf to rcv_queue while there is room. */
  method MoveAvailable(rcvBuf: Node<Pkt>, rcvQueue: Node<Pkt>, cfg: Config, rcvNxt0: u32, nrcvQue0: nat,
                       ghost p0: seq<Node<Pkt>>, ghost q0: seq<Node<Pkt>>, ghost k: Kcb, ghost nodes: set<Node<Pkt>>)
    returns (rcvNxt: u32, nrcvQue: nat, ghost p: seq<Node<Pkt>>, ghost q: seq<Node<Pkt>>)
    requires Ring(rcvBuf, p0) && Ring(rcvQueue, q0) && Disjoint(rcvBuf, p0, rcvQueue, q0)
    requires nodes == {rcvBuf, rcvQueue} + (set n | n in p0) + (set n | n in q0)
    requires k.cfg == cfg && k.rcvNxt == rcvNxt0 && nrcvQue0 == |q0| && k.rcvBuf == Items(p0) && k.rcvQueue == Items(q0)
    modifies nodes
    ensures Ring(rcvBuf, p) && Ring(rcvQueue, q) && nrcvQue == |q|
    ensures MoveReady(Wrap32, k) == k.(rcvBuf := Items(p), rcvQueue := Items(q), rcvNxt := rcvNxt)
  {
    rcvNxt, nrcvQue, p, q := rcvNxt0, nrcvQue0, p0, q0;
    while rcvBuf.next != rcvBuf
      invariant Ring(rcvBuf, p) && Ring(rcvQueue, q) && Disjoint(rcvBuf, p, rcvQueue, q) && nrcvQue == |q|
      invariant Among(p, q, nodes)
      invariant MoveReady(Wrap32, k.(rcvBuf := Items(p), rcvQueue := Items(q), rcvNxt := rcvNxt)) ==
                MoveReady(Wrap32, k)
      decreases |p|
    {
      assert Linked(At(rcvBuf, p, 0), At(rcvBuf, p, 1));
      var seg := rcvBuf.next;
      if seg.item.sn != rcvNxt || nrcvQue >= cfg.rcvWnd {
        break;
      }
      MoveRound(k, Items(p), Items(q), rcvNxt);
      Shifted(rcvBuf, p, rcvQueue, q, nodes);
      Transfer(rcvBuf, rcvQueue, p, q);
      p, q := p[1..], q + [p[0]];
      nrcvQue := nrcvQue + 1;
      rcvNxt := U32(rcvNxt + 1);
    }
    Stops(rcvBuf, p, cfg, rcvNxt, nrcvQue, k.(rcvBuf := Items(p), rcvQueue := Items(q), rcvNxt := rcvNxt));
  }

  /** Where the loop ends there is nothing more to move. */
  lemma {:induction false} Stops(rcvBuf: Node<Pkt>, p: seq<Node<Pkt>>, cfg: Config, rcvNxt: u32, nrcvQue: nat, k: Kcb)
    requires Ring(rcvBuf, p) && k.cfg == cfg && k.rcvNxt == rcvNxt && k.rcvBuf == Items(p) && |k.rcvQueue| == nrcvQue
    requires rcvBuf.next == rcvBuf || (rcvBuf.next != null && (rcvBuf.next.item.sn != rcvNxt || nrcvQue >= cfg.rcvWnd))
    ensures MoveReady(Wrap32, k) == k
  {
    assert Linked(At(rcvBuf, p, 0), At(rcvBuf, p, 1));
    if p != [] { assert p[0] in p; }
  }

  /** The insertion scan of `ikcp_parse_data` on the linked rcv_buf. */
  method InsertSegment(rcvBuf: Node<Pkt>, newseg: Node<Pkt>, ghost q: seq<Node<Pkt>>)
    returns (repeated: bool, ghost q': seq<Node<Pkt>>)
    requires Ring(rcvBuf, q) && newseg != rcvBuf && newseg !in q
    modifies rcvBuf, q, newseg
    ensures Ring(rcvBuf, q') && Items(q') == Insert(Wrap32, Items(q), newseg.item)
    ensures |q'| == |q| + (if repeated then 0 else 1)
  {
    var sn := newseg.item.sn;
    assert Linked(At(rcvBuf, q, |q|), At(rcvBuf, q, |q| + 1));
    var p := rcvBuf.prev;
    ghost var k := |q|;
    ghost var segs := Items(q);
    ghost var goal := Insert(Wrap32, segs, newseg.item);
    assert segs[..k] == segs && goal + [] == goal;
    while p != rcvBuf
      invariant 0 <= k <= |q| && p == At(rcvBuf, q, k) && Ring(rcvBuf, q)
      invariant goal == Insert(Wrap32, segs[..k], newseg.item) + segs[k..]
      decreases k
    {
      assert p == q[k - 1] && Linked(At(rcvBuf, q, k - 1), At(rcvBuf, q, k));
      Loops.InsertRound(segs, k, newseg.item);
      if p.item.sn == sn {
        return true, q;
      }
      if Itimediff(sn, p.item.sn) > 0 {
        break;
      }
      p := p.prev;
      k := k - 1;
    }
    if k > 0 { assert q[k - 1] in q; }
    Neighbours(rcvBuf, q, k);
    assert k == 0 ==> segs[..0] + [newseg.item] == [newseg.item];
    assert Linked(At(rcvBuf, q, k), At(rcvBuf, q, k + 1));
    Add(newseg, p, rcvBuf, q, k);
    ItemsInserted(q, k, newseg);
    return false, Inserted(q, k, newseg);
  }

  // ---- The sender's queues ----------------------------------------------------------------

  /** The first element, and what is linked to it. */
  lemma {:induction false} First<T>(head: Node<T>, q: seq<Node<T>>)
    requires Ring(head, q)
    ensures if q == [] then head.next == head else head.next == q[0] && q[0] != head
    ensures q != [] ==> var n := q[0]; (n.next == head || n.next in q) && n.prev == head
    ensures q != [] ==> Removed(q, 0) == q[1..] && forall n :: n in q[1..] ==> n in q
  {
    assert Linked(At(head, q, 0), At(head, q, 1));
    if q != [] {
      assert q[0] in q;
      Neighbours(head, q, 1);
    }
  }

  /** The loop of `ikcp_parse_una` on the linked snd_buf. */
  method DropUna(sndBuf: Node<Seg>, una: u32, ghost q0: seq<Node<Seg>>)
    returns (dropped: nat, ghost q: seq<Node<Seg>>)
    requires Ring(sndBuf, q0)
    modifies sndBuf, q0
    ensures Ring(sndBuf, q) && |q| + dropped == |q0| && Items(q) == ParseUna(Wrap32, Items(q0), una)
  {
    dropped, q := 0, q0;
    while sndBuf.next != sndBuf
      invariant Ring(sndBuf, q) && |q| + dropped == |q0| && forall n :: n in q ==> n in q0
      invariant ParseUna(Wrap32, Items(q), una) == ParseUna(Wrap32, Items(q0), una)
      decreases |q|
    {
      First(sndBuf, q);
      var p := sndBuf.next;
      if Itimediff(una, p.item.pkt.sn) <= 0 {
        break;
      }
      assert q[0] in q && Items(q)[1..] == Items(q[1..]);
      Del(p, sndBuf, q, 0);
      q := q[1..];
      dropped := dropped + 1;
    }
    First(sndBuf, q);
  }

  /** The scan for an acknowledged number has passed k segments.  The trigger keeps the body folded. */
  ghost predicate Passed(segs: seq<Seg>, k: nat, sn: int) {
    k <= |segs| && forall i {:trigger Loops.At(i)} :: Loops.At(i) ==>
      AckScan(Wrap32, segs, sn) == segs[..k] + AckScan(Wrap32, segs[k..], sn)
  }

  /** One round of the scan. */
  lemma {:induction false} AckRound(segs: seq<Seg>, k: nat, sn: int)
    requires Passed(segs, k, sn)
    ensures k == |segs| ==> AckScan(Wrap32, segs, sn) == segs
    ensures k < |segs| && sn == segs[k].pkt.sn ==> AckScan(Wrap32, segs, sn) == segs[..k] + segs[k + 1..]
    ensures k < |segs| && sn != segs[k].pkt.sn && Itimediff(sn, segs[k].pkt.sn) < 0 ==>
              AckScan(Wrap32, segs, sn) == segs
    ensures k < |segs| && sn != segs[k].pkt.sn && Itimediff(sn, segs[k].pkt.sn) >= 0 ==> Passed(segs, k + 1, sn)
  {
    assert Loops.At(0);
    if k < |segs| {
      var rest := AckScan(Wrap32, segs[k + 1..], sn);
      assert segs[k..][1..] == segs[k + 1..] && segs[..k] + segs[k..] == segs;
      assert segs[..k] + ([segs[k]] + rest) == segs[..k + 1] + rest;
    } else {
      assert segs[..k] + [] == segs;
    }
  }

  lemma {:induction false} AckStart(segs: seq<Seg>, sn: int)
    ensures Passed(segs, 0, sn)
  {
    assert segs[0..] == segs && segs[..0] == [];
  }

  lemma {:induction false} ItemsRemoved<T>(q: seq<Node<T>>, k: nat)
    requires k < |q|
    ensures Items(Removed(q, k)) == Items(q)[..k] + Items(q)[k + 1..]
  {
  }

  /** `IQUEUE_DEL`, changing nothing outside the ring. */
  method Unlink<T>(entry: Node<T>, ghost head: Node<T>, ghost q: seq<Node<T>>, ghost k: nat)
    requires Ring(head, q) && k < |q| && entry == q[k]
    modifies head, q
    ensures Ring(head, Removed(q, k))
  {
    Neighbours(head, q, k + 1);
    assert q[k] in q;
    Del(entry, head, q, k);
  }

  /** The loop of `ikcp_parse_ack` on the linked snd_buf. */
  method RemoveAcked(sndBuf: Node<Seg>, sn: u32, ghost q: seq<Node<Seg>>)
    returns (removed: bool, ghost q': seq<Node<Seg>>)
    requires Ring(sndBuf, q)
    modifies sndBuf, q
    ensures Ring(sndBuf, q') && Items(q') == AckScan(Wrap32, Items(q), sn)
    ensures |q'| == |q| - if removed then 1 else 0
  {
    ghost var k := 0;
    AckStart(Items(q), sn);
    assert Linked(At(sndBuf, q, 0), At(sndBuf, q, 1));
    var p := sndBuf.next;
    while p != sndBuf
      invariant 0 <= k <= |q| && p == At(sndBuf, q, k + 1) && Ring(sndBuf, q) && Passed(Items(q), k, sn)
      decreases |q| - k
    {
      assert p == q[k] && Linked(At(sndBuf, q, k + 1), At(sndBuf, q, k + 2));
      AckRound(Items(q), k, sn);
      if sn == p.item.pkt.sn {
        ItemsRemoved(q, k);
        Unlink(p, sndBuf, q, k);
        return true, Removed(q, k);
      }
      if Itimediff(sn, p.item.pkt.sn) < 0 {
        return false, q;
      }
      p := p.next;
      k := k + 1;
    }
    Ended(sndBuf, q, k);
    AckRound(Items(q), k, sn);
    return false, q;
  }

  /** The scan is back at the head only at the end. */
  lemma {:induction false} Ended<T>(head: Node<T>, q: seq<Node<T>>, k: nat)
    requires Distinct(head, q) && k <= |q| && At(head, q, k + 1) == head
    ensures k == |q|
  {
    assert forall i :: 0 <= i < |q| ==> q[i] in q;
  }

  /** The merge of `ikcp_send` in stream mode on the linked snd_queue: a longer segment is linked at the
      tail and the last one unlinked. */
  method MergeTail(sndQueue: Node<Frag>, mss: nat, data: seq<byte>, ghost q: seq<Node<Frag>>)
    returns (extend: nat, ghost q': seq<Node<Frag>>)
    requires Ring(sndQueue, q)
    modifies sndQueue, q
    ensures Ring(sndQueue, q') && |q'| == |q|
    ensures extend == if q != [] && |q[|q| - 1].item.data| < mss then Min(|data|, mss - |q[|q| - 1].item.data|) else 0
    ensures q == [] || |q[|q| - 1].item.data| >= mss ==> q' == q
    ensures q != [] && |q[|q| - 1].item.data| < mss ==>
              Items(q') == Items(q)[..|q| - 1] + [Frag(0, q[|q| - 1].item.data + data[..extend])]
  {
    assert Linked(At(sndQueue, q, |q|), At(sndQueue, q, |q| + 1));
    var last := sndQueue.prev;
    if last == sndQueue || |last.item.data| >= mss {
      if q != [] { assert q[|q| - 1] in q; }
      return 0, q;
    }
    extend := Min(|data|, mss - |last.item.data|);
    q' := Replace(sndQueue, last, Frag(0, last.item.data + data[..extend]), q);
  }

  method Replace<T>(head: Node<T>, last: Node<T>, item: T, ghost q: seq<Node<T>>) returns (ghost q': seq<Node<T>>)
    requires Ring(head, q) && q != [] && last == q[|q| - 1]
    modifies head, q
    ensures Ring(head, q') && |q'| == |q| && Items(q') == Items(q)[..|q| - 1] + [item]
  {
    var seg := new Node(item);
    ghost var n := |q|;
    Neighbours(head, q, n + 1);
    assert Ring(head, q);
    AddTail(seg, head, head, q, n);
    ghost var r := q + [seg];
    assert r[n - 1] == last && last in r;
    Neighbours(head, r, n);
    DelInit(last, head, r, n - 1);
    q' := Removed(r, n - 1);
    ItemsRemoved(r, n - 1);
    assert Items(r) == Items(q) + [item];
  }
}
