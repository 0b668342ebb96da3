/** Reordering confluence: whatever the order and repetition in which the segments of a window
    arrive, `ikcp_parse_data` ends with the same rcv_nxt, rcv_queue and rcv_buf. */
module Reorder {
  import opened Words
  import opened Engine
  import opened Scans
  import opened Network

  /** Feeds segments to the reorder buffer one after the other. */
  function Feed(k: Kcb, ps: seq<Pkt>): Kcb {
    if ps == [] then k else ParseData(Ideal, Feed(k, ps[..|ps| - 1]), ps[|ps| - 1])
  }

  ghost function Sns(ps: seq<Pkt>): set<int> { set p | p in ps :: p.sn }

  /** Segment numbers stand for one content each. */
  ghost predicate Carries(ps: seq<Pkt>, content: int -> Frag) {
    forall p :: p in ps ==> p.ToFrag() == content(p.sn)
  }

  ghost predicate InWindow(k: Kcb, ps: seq<Pkt>) {
    forall p :: p in ps ==> k.rcvNxt <= p.sn < k.rcvNxt + k.cfg.rcvWnd
  }

  /** The numbers in `held` have arrived since k0; the head of rcv_buf may be ready to move. */
  ghost predicate Ready(k0: Kcb, held: set<int>, content: int -> Frag, k: Kcb) {
    && k == k0.(rcvNxt := k.rcvNxt, rcvQueue := k.rcvQueue, rcvBuf := k.rcvBuf)
    && |k.rcvQueue| - |k0.rcvQueue| == k.rcvNxt - k0.rcvNxt >= 0
    && |k.rcvQueue| <= k.cfg.rcvWnd
    && k.rcvQueue[..|k0.rcvQueue|] == k0.rcvQueue
    && (forall i :: |k0.rcvQueue| <= i < |k.rcvQueue| ==>
          k.rcvQueue[i].ToFrag() == content(k0.rcvNxt + i - |k0.rcvQueue|))
    && (forall n :: k0.rcvNxt <= n < k.rcvNxt ==> n in held)
    && SortedPkts(k.rcvBuf) && Carries(k.rcvBuf, content)
    && (forall n :: n in Sns(k.rcvBuf) <==> n in held && k.rcvNxt <= n)
  }

  /** The state reached from k0 once the numbers in `held` have arrived. */
  ghost predicate Reached(k0: Kcb, held: set<int>, content: int -> Frag, k: Kcb) {
    Ready(k0, held, content, k) && (k.rcvNxt in held ==> |k.rcvQueue| == k.cfg.rcvWnd)
  }

  /** What the application and later segments can observe of the receiver. */
  ghost predicate SameView(k1: Kcb, k2: Kcb) {
    && k1.rcvNxt == k2.rcvNxt
    && ToFrags(k1.rcvQueue) == ToFrags(k2.rcvQueue)
    && |k1.rcvBuf| == |k2.rcvBuf|
    && forall i :: 0 <= i < |k1.rcvBuf| ==>
         k1.rcvBuf[i].sn == k2.rcvBuf[i].sn && k1.rcvBuf[i].ToFrag() == k2.rcvBuf[i].ToFrag()
  }

  // ---- The state is determined by what has arrived --------------------------------------

  lemma {:induction false} HeadIn(b: seq<Pkt>)
    ensures b != [] ==> b[0].sn in Sns(b)
  {
  }

  lemma {:induction false} SortedSame(a: seq<Pkt>, b: seq<Pkt>)
    requires SortedPkts(a) && SortedPkts(b) && Sns(a) == Sns(b)
    ensures |a| == |b| && forall i :: 0 <= i < |a| ==> a[i].sn == b[i].sn
  {
    if a == [] {
      HeadIn(b);
    } else {
      assert a[0].sn in Sns(a);
      assert b != [];
      SameHead(a, b);
      TailSns(a);
      TailSns(b);
      SortedSame(a[1..], b[1..]);
      forall i | 0 < i < |a| ensures a[i].sn == b[i].sn { assert a[1..][i - 1].sn == b[1..][i - 1].sn; }
    }
  }

  lemma {:induction false} SameHead(a: seq<Pkt>, b: seq<Pkt>)
    requires SortedPkts(a) && SortedPkts(b) && Sns(a) == Sns(b) && a != [] && b != []
    ensures a[0].sn == b[0].sn
  {
    assert a[0].sn in Sns(b) && b[0].sn in Sns(a);
    var p :| p in b && p.sn == a[0].sn;
    var q :| q in a && q.sn == b[0].sn;
  }

  lemma {:induction false} TailSns(a: seq<Pkt>)
    requires SortedPkts(a) && a != []
    ensures Sns(a[1..]) == Sns(a) - {a[0].sn}
  {
    assert forall p :: p in a ==> p == a[0] || p in a[1..];
    forall p | p in a[1..] ensures p.sn != a[0].sn {
      var i :| 0 < i < |a| && a[i] == p;
    }
  }

  lemma {:induction false} SameNxt(k0: Kcb, held: set<int>, content: int -> Frag, k1: Kcb, k2: Kcb)
    requires Reached(k0, held, content, k1) && Reached(k0, held, content, k2)
    ensures k1.rcvNxt == k2.rcvNxt
  {
  }

  lemma {:induction false} Determined(k0: Kcb, held: set<int>, content: int -> Frag, k1: Kcb, k2: Kcb)
    requires Reached(k0, held, content, k1) && Reached(k0, held, content, k2)
    ensures SameView(k1, k2)
  {
    SameNxt(k0, held, content, k1, k2);
    assert Sns(k1.rcvBuf) == Sns(k2.rcvBuf);
    SortedSame(k1.rcvBuf, k2.rcvBuf);
    forall i | 0 <= i < |k1.rcvQueue| ensures k1.rcvQueue[i].ToFrag() == k2.rcvQueue[i].ToFrag() {
      if i < |k0.rcvQueue| {
        assert k1.rcvQueue[i] == k1.rcvQueue[..|k0.rcvQueue|][i];
        assert k2.rcvQueue[i] == k2.rcvQueue[..|k0.rcvQueue|][i];
      }
    }
    assert ToFrags(k1.rcvQueue) == ToFrags(k2.rcvQueue);
    forall i | 0 <= i < |k1.rcvBuf| ensures k1.rcvBuf[i].ToFrag() == k2.rcvBuf[i].ToFrag() {
      assert k1.rcvBuf[i] in k1.rcvBuf && k2.rcvBuf[i] in k2.rcvBuf;
    }
  }

  // ---- Each arrival -----------------------------------------------------------------------

  lemma {:induction false} MoveReached(k0: Kcb, held: set<int>, content: int -> Frag, k: Kcb)
    requires Ready(k0, held, content, k)
    ensures Reached(k0, held, content, MoveReady(Ideal, k))
    decreases |k.rcvBuf|
  {
    if k.rcvBuf != [] && k.rcvBuf[0].sn == k.rcvNxt && |k.rcvQueue| < k.cfg.rcvWnd {
      MoveOneReady(k0, held, content, k);
      MoveReached(k0, held, content, MoveOne(Ideal, k));
    } else if k.rcvNxt in held {
      assert k.rcvNxt in Sns(k.rcvBuf);
      var p :| p in k.rcvBuf && p.sn == k.rcvNxt;
      assert k.rcvBuf[0].sn in Sns(k.rcvBuf);
    }
  }

  lemma {:induction false} MoveOneReady(k0: Kcb, held: set<int>, content: int -> Frag, k: Kcb)
    requires Ready(k0, held, content, k) && k.rcvBuf != [] && k.rcvBuf[0].sn == k.rcvNxt && |k.rcvQueue| < k.cfg.rcvWnd
    ensures Ready(k0, held, content, MoveOne(Ideal, k))
  {
    TailSns(k.rcvBuf);
    assert k.rcvBuf[0] in k.rcvBuf && k.rcvBuf[0].sn in Sns(k.rcvBuf);
  }

  lemma {:induction false} InsertSns(buf: seq<Pkt>, p: Pkt)
    requires SortedPkts(buf)
    ensures Sns(Insert(Ideal, buf, p)) == Sns(buf) + {p.sn}
  {
    InsertSorted(buf, p);
    var r := Insert(Ideal, buf, p);
    forall n | n in Sns(r) ensures n in Sns(buf) + {p.sn} {
      var q :| q in r && q.sn == n;
    }
  }

  lemma {:induction false} Arrive(k0: Kcb, held: set<int>, content: int -> Frag, k: Kcb, p: Pkt)
    requires Reached(k0, held, content, k) && p.ToFrag() == content(p.sn)
    requires k0.rcvNxt <= p.sn < k0.rcvNxt + k0.cfg.rcvWnd
    ensures Reached(k0, held + {p.sn}, content, ParseData(Ideal, k, p))
  {
    if p.sn < k.rcvNxt {
      assert held + {p.sn} == held;
    } else {
      InsertReady(k0, held, content, k, p);
      MoveReached(k0, held + {p.sn}, content, k.(rcvBuf := Insert(Ideal, k.rcvBuf, p)));
    }
  }

  lemma {:induction false} InsertReady(k0: Kcb, held: set<int>, content: int -> Frag, k: Kcb, p: Pkt)
    requires Ready(k0, held, content, k) && p.ToFrag() == content(p.sn) && k.rcvNxt <= p.sn
    ensures Ready(k0, held + {p.sn}, content, k.(rcvBuf := Insert(Ideal, k.rcvBuf, p)))
  {
    InsertSorted(k.rcvBuf, p);
    InsertSns(k.rcvBuf, p);
  }

  lemma {:induction false} SnsSnoc(ps: seq<Pkt>)
    requires ps != []
    ensures Sns(ps) == Sns(ps[..|ps| - 1]) + {ps[|ps| - 1].sn}
  {
    assert ps == ps[..|ps| - 1] + [ps[|ps| - 1]];
  }

  lemma {:induction false} FeedReached(k0: Kcb, ps: seq<Pkt>, content: int -> Frag)
    requires Reached(k0, Sns(k0.rcvBuf), content, k0)
    requires Carries(ps, content) && InWindow(k0, ps)
    ensures Reached(k0, Sns(k0.rcvBuf) + Sns(ps), content, Feed(k0, ps))
  {
    if ps == [] {
      assert Sns(k0.rcvBuf) + Sns(ps) == Sns(k0.rcvBuf);
    } else {
      var n := |ps| - 1;
      FeedReached(k0, ps[..n], content);
      assert ps[n] in ps;
      Arrive(k0, Sns(k0.rcvBuf) + Sns(ps[..n]), content, Feed(k0, ps[..n]), ps[n]);
      SnsSnoc(ps);
      assert Sns(k0.rcvBuf) + Sns(ps[..n]) + {ps[n].sn} == Sns(k0.rcvBuf) + Sns(ps);
    }
  }

  /** A receiver between two calls: rcv_buf sorted, in the window, and ready only if full. */
  ghost predicate Settled(k: Kcb) {
    && SortedPkts(k.rcvBuf) && |k.rcvQueue| <= k.cfg.rcvWnd
    && (forall p :: p in k.rcvBuf ==> k.rcvNxt <= p.sn)
    && (k.rcvBuf != [] && k.rcvBuf[0].sn == k.rcvNxt ==> |k.rcvQueue| == k.cfg.rcvWnd)
  }

  /** Two arrival orders of the same numbers, with any repetition, are indistinguishable. */
  lemma {:induction false} Confluence(k0: Kcb, ps: seq<Pkt>, qs: seq<Pkt>, content: int -> Frag)
    requires Settled(k0) && Carries(k0.rcvBuf, content)
    requires Carries(ps, content) && Carries(qs, content) && InWindow(k0, ps) && InWindow(k0, qs)
    requires Sns(ps) == Sns(qs)
    ensures SameView(Feed(k0, ps), Feed(k0, qs))
  {
    assert Reached(k0, Sns(k0.rcvBuf), content, k0) by {
      if k0.rcvNxt in Sns(k0.rcvBuf) {
        var p :| p in k0.rcvBuf && p.sn == k0.rcvNxt;
      }
      assert k0.rcvQueue[..|k0.rcvQueue|] == k0.rcvQueue;
    }
    FeedReached(k0, ps, content);
    FeedReached(k0, qs, content);
    Determined(k0, Sns(k0.rcvBuf) + Sns(ps), content, Feed(k0, ps), Feed(k0, qs));
  }
}
