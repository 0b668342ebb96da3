/** What every step of the two endpoints keeps, on unbounded sequence numbers: the window of the
    sender, the reorder buffer of the receiver, and the agreement between them. */
module Transport {
  import opened Words
  import opened Engine
  import opened Scans
  import opened Network

  /** The greatest window a header can advertise. */
  const MAX_WND: int := 0xffff

  ghost predicate InHist(hist: seq<Frag>, p: Pkt) {
    0 <= p.sn < |hist| && hist[p.sn] == p.ToFrag()
  }

  /** The receiver has segment `sn`: in rcv_buf, in rcv_queue, or already handed out. */
  ghost predicate Held(k: Kcb, sn: int) {
    sn < k.rcvNxt || exists p :: p in k.rcvBuf && p.sn == sn
  }

  ghost predicate Unacked(k: Kcb, sn: int) {
    exists g :: g in k.sndBuf && g.pkt.sn == sn
  }

  /** snd_buf is sorted and lies in the window [snd_una, snd_nxt), which never exceeds snd_wnd, nor the
      greatest window the peer can advertise. */
  ghost predicate SenderWindow(k: Kcb, hist: seq<Frag>) {
    && 0 <= k.sndUna <= k.sndNxt == |hist|
    && k.sndNxt - k.sndUna <= Min(k.cfg.sndWnd, MAX_WND)
    && SortedSegs(k.sndBuf)
    && forall g :: g in k.sndBuf ==>
         k.sndUna <= g.pkt.sn && InHist(hist, g.pkt) && g.pkt.conv == k.cfg.conv && g.pkt.cmd == CMD_PUSH
  }

  /** Moreover snd_una is the first unacknowledged number. */
  ghost predicate SenderOk(k: Kcb, hist: seq<Frag>) {
    && SenderWindow(k, hist)
    && k.sndUna == (if k.sndBuf != [] then k.sndBuf[0].pkt.sn else k.sndNxt)
  }

  /** rcv_queue continues what was taken, rcv_buf is sorted and inside the receive window, and
      everything is what the peer numbered. */
  ghost predicate ReceiverWindow(k: Kcb, taken: seq<Frag>, hist: seq<Frag>) {
    && |taken| + |k.rcvQueue| == k.rcvNxt <= |hist|
    && taken == hist[..|taken|]
    && (forall i :: 0 <= i < |k.rcvQueue| ==> k.rcvQueue[i].sn == |taken| + i && InHist(hist, k.rcvQueue[i]))
    && |k.rcvQueue| <= k.cfg.rcvWnd
    && SortedPkts(k.rcvBuf)
    && forall p :: p in k.rcvBuf ==> k.rcvNxt <= p.sn < k.rcvNxt + k.cfg.rcvWnd && InHist(hist, p)
  }

  /** Moreover the head of rcv_buf is rcv_nxt only when rcv_queue is full. */
  ghost predicate ReceiverOk(k: Kcb, taken: seq<Frag>, hist: seq<Frag>) {
    && ReceiverWindow(k, taken, hist)
    && (k.rcvBuf != [] && k.rcvBuf[0].sn == k.rcvNxt ==> |k.rcvQueue| == k.cfg.rcvWnd)
  }

  ghost predicate AcksHeld(k: Kcb) {
    forall a :: a in k.acks ==> 0 <= a.sn && Held(k, a.sn)
  }

  /** A number assigned by the sender is still in snd_buf, or the receiver holds it. */
  ghost predicate Covered(snd: Kcb, rcv: Kcb) {
    forall n :: 0 <= n < snd.sndNxt ==> Unacked(snd, n) || Held(rcv, n)
  }

  /** A packet the endpoint (k, hist) may have emitted at any time up to now. */
  ghost predicate Emittable(k: Kcb, hist: seq<Frag>, p: Pkt) {
    && p.conv == k.cfg.conv
    && KnownCmd(p.cmd)
    && p.wnd <= k.cfg.rcvWnd
    && 0 <= p.una <= k.rcvNxt
    && (if p.cmd == CMD_PUSH then InHist(hist, p) else p.data == [])
    && (p.cmd == CMD_ACK ==> 0 <= p.sn && Held(k, p.sn))
  }

  ghost predicate AllEmittable(k: Kcb, hist: seq<Frag>, ps: seq<Pkt>) {
    forall p :: p in ps ==> Emittable(k, hist, p)
  }

  ghost predicate NetOk(x: Endpoint) {
    forall d :: d in x.net ==> d != [] && AllEmittable(x.k, x.hist, d)
  }

  ghost predicate Half(x: Endpoint, y: Endpoint) {
    && SenderOk(x.k, x.hist)
    && ReceiverOk(y.k, y.taken, x.hist)
    && Covered(x.k, y.k)
    && NetOk(x)
    && AcksHeld(x.k)
  }

  ghost predicate Inv(s: Sys) {
    && s.a.k.cfg.conv == s.b.k.cfg.conv
    && Half(s.a, s.b) && Half(s.b, s.a)
  }

  // ---- Processing one packet ------------------------------------------------------------

  ghost predicate HeldMore(k: Kcb, k': Kcb) {
    k.rcvNxt <= k'.rcvNxt && forall n :: Held(k, n) ==> Held(k', n)
  }

  /** k is a good engine state with respect to its own history and its peer's. */
  ghost predicate Good(k: Kcb, hist: seq<Frag>, taken: seq<Frag>, peer: Kcb, peerHist: seq<Frag>) {
    && SenderOk(k, hist)
    && ReceiverOk(k, taken, peerHist)
    && AcksHeld(k)
    && Covered(k, peer)
  }

  lemma {:induction false} ShrinkOk(k: Kcb, hist: seq<Frag>)
    requires SenderWindow(k, hist)
    ensures SenderOk(ShrinkBuf(k), hist)
    ensures ShrinkBuf(k).sndUna >= k.sndUna
  {
    if k.sndBuf != [] {
      assert k.sndBuf[0] in k.sndBuf;
    }
  }

  lemma {:induction false} HeadOk(k: Kcb, hist: seq<Frag>, peer: Kcb, p: Pkt)
    requires SenderOk(k, hist) && Covered(k, peer) && p.una <= peer.rcvNxt
    ensures var r := InputHead(Ideal, k, p);
            SenderOk(r, hist) && Covered(r, peer) && r.sndUna >= k.sndUna && r.sndUna >= Min(p.una, k.sndNxt)
  {
    var j := ParseUnaSuffix(k.sndBuf, p.una);
    var k1 := k.(rmtWnd := p.wnd, sndBuf := k.sndBuf[j..]);
    ShrinkOk(k1, hist);
    forall g | g in k.sndBuf ensures g in k1.sndBuf || g.pkt.sn < p.una {
      assert g in k.sndBuf[..j] || g in k.sndBuf[j..];
    }
  }

  lemma {:induction false} SkipOne(buf: seq<Seg>, m: nat)
    requires SortedSegs(buf) && m < |buf|
    ensures SortedSegs(buf[..m] + buf[m + 1..])
    ensures forall g :: g in buf[..m] + buf[m + 1..] ==> g in buf
    ensures forall g :: g in buf ==> g in buf[..m] + buf[m + 1..] || g == buf[m]
  {
    var r := buf[..m] + buf[m + 1..];
    assert forall i :: 0 <= i < |r| ==> r[i] == if i < m then buf[i] else buf[i + 1];
    forall g | g in buf ensures g in r || g == buf[m] {
      assert g in buf[..m] || g == buf[m] || g in buf[m + 1..];
    }
  }

  /** Removing one segment that the peer holds. */
  lemma {:induction false} RemoveAckedOk(k: Kcb, hist: seq<Frag>, peer: Kcb, sn: int)
    requires SenderOk(k, hist) && Covered(k, peer) && Held(peer, sn)
    ensures var r := k.(sndBuf := AckScan(Ideal, k.sndBuf, sn));
            SenderWindow(r, hist) && Covered(r, peer)
  {
    var m := AckScanOne(k.sndBuf, sn);
    var r := k.(sndBuf := AckScan(Ideal, k.sndBuf, sn));
    if m < |k.sndBuf| {
      SkipOne(k.sndBuf, m);
    }
  }

  lemma {:induction false} AckOk(k: Kcb, hist: seq<Frag>, peer: Kcb, p: Pkt)
    requires SenderOk(k, hist) && Covered(k, peer) && Held(peer, p.sn)
    ensures var r := InputAck(Ideal, k, p);
            SenderOk(r, hist) && Covered(r, peer) && r.sndUna >= k.sndUna
  {
    var r := InputAck(Ideal, k, p);
    var k1 := k.(sndBuf := r.sndBuf);
    RemoveAckedOk(k, hist, peer, p.sn);
    InputAckSnd(k, p);
    ShrinkOk(k1, hist);
    InputAckFrame(Ideal, k, p);
    assert forall n :: Unacked(k1, n) ==> Unacked(r, n);
  }

  lemma {:induction false} InputAckSnd(k: Kcb, p: Pkt)
    ensures var r := InputAck(Ideal, k, p);
            r.sndBuf == (if AckInWindow(Ideal, k, p.sn) then AckScan(Ideal, k.sndBuf, p.sn) else k.sndBuf)
            && r.sndUna == (if r.sndBuf != [] then r.sndBuf[0].pkt.sn else r.sndNxt)
  {
  }

  lemma {:induction false} MoveHeld(k: Kcb)
    ensures HeldMore(k, MoveReady(Ideal, k))
  {
    var n := MoveReadyRun(k);
    forall p | p in k.rcvBuf ensures p in k.rcvBuf[n..] || p.sn < k.rcvNxt + n {
      var i :| 0 <= i < |k.rcvBuf| && k.rcvBuf[i] == p;
      if i >= n { assert k.rcvBuf[n..][i - n] == p; }
    }
  }

  lemma {:induction false} MoveQueue(k: Kcb, taken: seq<Frag>, hist: seq<Frag>, n: nat)
    requires ReceiverWindow(k, taken, hist) && n <= |k.rcvBuf|
    requires forall i :: 0 <= i < n ==> k.rcvBuf[i].sn == k.rcvNxt + i
    ensures k.rcvNxt + n <= |hist|
    ensures var q := k.rcvQueue + k.rcvBuf[..n];
            forall i :: 0 <= i < |q| ==> q[i].sn == |taken| + i && InHist(hist, q[i])
  {
    forall i | 0 <= i < n ensures InHist(hist, k.rcvBuf[i]) {
      assert k.rcvBuf[i] in k.rcvBuf;
    }
    if n > 0 {
      assert k.rcvBuf[n - 1].sn == k.rcvNxt + (n - 1) && InHist(hist, k.rcvBuf[n - 1]);
    }
  }

  lemma {:induction false} MoveBuf(k: Kcb, taken: seq<Frag>, hist: seq<Frag>, n: nat)
    requires ReceiverWindow(k, taken, hist) && n <= |k.rcvBuf|
    requires forall i :: 0 <= i < n ==> k.rcvBuf[i].sn == k.rcvNxt + i
    ensures forall p :: p in k.rcvBuf[n..] ==> k.rcvNxt + n <= p.sn < k.rcvNxt + n + k.cfg.rcvWnd && InHist(hist, p)
  {
    forall p | p in k.rcvBuf[n..]
      ensures k.rcvNxt + n <= p.sn < k.rcvNxt + n + k.cfg.rcvWnd && InHist(hist, p)
    {
      var i :| n <= i < |k.rcvBuf| && k.rcvBuf[i] == p;
      assert p in k.rcvBuf;
      GapFree(k.rcvBuf, k.rcvNxt, n, i);
    }
  }

  lemma {:induction false} MoveOk(k: Kcb, taken: seq<Frag>, hist: seq<Frag>)
    requires ReceiverWindow(k, taken, hist)
    ensures var r := MoveReady(Ideal, k);
            ReceiverOk(r, taken, hist) && HeldMore(k, r)
            && r.rcvNxt - |r.rcvQueue| == k.rcvNxt - |k.rcvQueue|
            && (|k.rcvQueue| < k.cfg.rcvWnd && Held(k, k.rcvNxt) ==> r.rcvNxt > k.rcvNxt)
  {
    MoveHeld(k);
    var n := MoveReadyRun(k);
    MoveQueue(k, taken, hist, n);
    MoveBuf(k, taken, hist, n);
    if n == 0 && k.rcvBuf != [] {
      forall p | p in k.rcvBuf ensures p.sn >= k.rcvBuf[0].sn { }
    }
  }

  lemma {:induction false} GapFree(buf: seq<Pkt>, nxt: int, n: nat, i: nat)
    requires SortedPkts(buf) && n <= i < |buf|
    requires forall p :: p in buf ==> nxt <= p.sn
    requires forall j :: 0 <= j < n ==> buf[j].sn == nxt + j
    ensures nxt + n <= buf[i].sn
  {
    if n > 0 {
      assert buf[n - 1].sn < buf[i].sn;
    } else {
      assert buf[i] in buf;
    }
  }

  lemma {:induction false} InsertOk(k: Kcb, taken: seq<Frag>, hist: seq<Frag>, p: Pkt)
    requires ReceiverOk(k, taken, hist) && InHist(hist, p)
    requires k.rcvNxt <= p.sn < k.rcvNxt + k.cfg.rcvWnd
    ensures var r := k.(rcvBuf := Insert(Ideal, k.rcvBuf, p));
            ReceiverWindow(r, taken, hist) && HeldMore(k, r) && Held(r, p.sn)
  {
    InsertSorted(k.rcvBuf, p);
  }

  lemma {:induction false} PushOk(k: Kcb, taken: seq<Frag>, hist: seq<Frag>, p: Pkt)
    requires ReceiverOk(k, taken, hist) && AcksHeld(k) && InHist(hist, p)
    ensures var r := InputPush(Ideal, k, p);
            ReceiverOk(r, taken, hist) && AcksHeld(r) && HeldMore(k, r)
            && r.rcvNxt - |r.rcvQueue| == k.rcvNxt - |k.rcvQueue|
            && (p.sn < k.rcvNxt + k.cfg.rcvWnd ==> r.acks == k.acks + [Ack(p.sn, p.ts)] && Held(r, p.sn))
            && (p.sn >= k.rcvNxt + k.cfg.rcvWnd ==> r == k)
            && (p.sn == k.rcvNxt && |k.rcvQueue| < k.cfg.rcvWnd ==> r.rcvNxt > p.sn)
  {
    var r := InputPush(Ideal, k, p);
    if k.rcvNxt <= p.sn < k.rcvNxt + k.cfg.rcvWnd {
      var k1 := k.(acks := k.acks + [Ack(p.sn, p.ts)]);
      var k2 := k1.(rcvBuf := Insert(Ideal, k.rcvBuf, p));
      InsertOk(k1, taken, hist, p);
      MoveOk(k2, taken, hist);
      MoveReadyFrame(Ideal, k2);
      assert r == MoveReady(Ideal, k2);
      assert HeldMore(k, k1) && HeldMore(k1, r);
    }
    MoreAcks(k, r, p);
  }

  lemma {:induction false} MoreAcks(k: Kcb, r: Kcb, p: Pkt)
    requires AcksHeld(k) && HeldMore(k, r) && 0 <= p.sn
    requires r.acks == k.acks || (r.acks == k.acks + [Ack(p.sn, p.ts)] && Held(r, p.sn))
    ensures AcksHeld(r)
  {
  }

  lemma {:induction false} PktOk(k: Kcb, hist: seq<Frag>, taken: seq<Frag>, peer: Kcb, peerHist: seq<Frag>, p: Pkt)
    requires Good(k, hist, taken, peer, peerHist) && Emittable(peer, peerHist, p)
    ensures var r := InputPkt(Ideal, k, p);
            Good(r, hist, taken, peer, peerHist) && HeldMore(k, r) && r.sndUna >= k.sndUna
            && r.rcvNxt - |r.rcvQueue| == k.rcvNxt - |k.rcvQueue|
            && r.sndUna >= Min(p.una, k.sndNxt)
  {
    var k1 := InputHead(Ideal, k, p);
    HeadOk(k, hist, peer, p);
    assert AcksHeld(k1) && ReceiverOk(k1, taken, peerHist);
    assert HeldMore(k, k1);
    if p.cmd == CMD_ACK {
      InputAckFrame(Ideal, k1, p);
      AckOk(k1, hist, peer, p);
    } else if p.cmd == CMD_PUSH {
      InputPushFrame(Ideal, k1, p);
      PushOk(k1, taken, peerHist, p);
    }
  }

  lemma {:induction false} InputAllOk(k: Kcb, hist: seq<Frag>, taken: seq<Frag>, peer: Kcb, peerHist: seq<Frag>,
                                      d: Datagram)
    requires Good(k, hist, taken, peer, peerHist) && AllEmittable(peer, peerHist, d)
    ensures var r := InputAll(Ideal, k, d);
            Good(r, hist, taken, peer, peerHist) && HeldMore(k, r) && r.sndUna >= k.sndUna
            && r.rcvNxt - |r.rcvQueue| == k.rcvNxt - |k.rcvQueue|
            && (d != [] ==> r.sndUna >= Min(d[0].una, k.sndNxt))
    decreases |d|
  {
    if d != [] {
      PktOk(k, hist, taken, peer, peerHist, d[0]);
      InputPktCfg(Ideal, k, d[0]);
      InputAllOk(InputPkt(Ideal, k, d[0]), hist, taken, peer, peerHist, d[1..]);
    }
  }
}
