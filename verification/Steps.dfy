/** Every event keeps the invariant, so every reachable state of the two endpoints has it. */
module Steps {
  import opened Words
  import opened Engine
  import opened Scans
  import opened Network
  import opened Transport

  // ---- Input ----------------------------------------------------------------------------

  lemma {:induction false} FinishOk(k: Kcb, prevUna: int, hist: seq<Frag>, peer: Kcb, sc: Scan)
    requires SenderOk(k, hist) && Covered(k, peer)
    ensures var r := InputFinish(Ideal, prevUna, k, sc);
            SenderOk(r, hist) && Covered(r, peer)
            && r == k.(sndBuf := r.sndBuf, cong := r.cong)
  {
    var r := InputFinish(Ideal, prevUna, k, sc);
    if sc.MaxAck? && AckInWindow(Ideal, k, sc.sn) {
      FastackScanAt(k.sndBuf, sc.sn, sc.ts);
    }
    SameContentOk(k, r, hist, peer);
  }

  ghost predicate SameContent(p: Pkt, q: Pkt) {
    p.sn == q.sn && p.ToFrag() == q.ToFrag() && p.conv == q.conv && p.cmd == q.cmd
  }

  ghost predicate SameContents(a: seq<Seg>, b: seq<Seg>) {
    |a| == |b| && forall i :: 0 <= i < |a| ==> SameContent(a[i].pkt, b[i].pkt)
  }

  lemma {:induction false} SameSorted(a: seq<Seg>, b: seq<Seg>)
    requires SameContents(a, b) && SortedSegs(b)
    ensures SortedSegs(a)
  {
    forall i, j | 0 <= i < j < |a| ensures a[i].pkt.sn < a[j].pkt.sn {
      assert SameContent(a[i].pkt, b[i].pkt) && SameContent(a[j].pkt, b[j].pkt);
    }
  }

  lemma {:induction false} SameUnacked(k: Kcb, r: Kcb)
    requires SameContents(r.sndBuf, k.sndBuf)
    ensures forall n :: Unacked(k, n) ==> Unacked(r, n)
  {
    forall n | Unacked(k, n) ensures Unacked(r, n) {
      var g :| g in k.sndBuf && g.pkt.sn == n;
      var i :| 0 <= i < |k.sndBuf| && k.sndBuf[i] == g;
      assert SameContent(r.sndBuf[i].pkt, g.pkt) && r.sndBuf[i] in r.sndBuf;
    }
  }

  /** Changing timers and stamps in snd_buf keeps the sender's invariant. */
  lemma {:induction false} SameContentOk(k: Kcb, r: Kcb, hist: seq<Frag>, peer: Kcb)
    requires SenderOk(k, hist) && Covered(k, peer)
    requires r.sndUna == k.sndUna && r.sndNxt == k.sndNxt && r.cfg == k.cfg
    requires SameContents(r.sndBuf, k.sndBuf)
    ensures SenderOk(r, hist) && Covered(r, peer)
  {
    SameSorted(r.sndBuf, k.sndBuf);
    SameUnacked(k, r);
    forall g | g in r.sndBuf
      ensures k.sndUna <= g.pkt.sn && InHist(hist, g.pkt) && g.pkt.conv == k.cfg.conv && g.pkt.cmd == CMD_PUSH
    {
      var i :| 0 <= i < |r.sndBuf| && r.sndBuf[i] == g;
      assert SameContent(g.pkt, k.sndBuf[i].pkt) && k.sndBuf[i] in k.sndBuf;
    }
  }

  lemma {:induction false} EmittableMono(k: Kcb, hist: seq<Frag>, k': Kcb, hist': seq<Frag>, p: Pkt)
    requires Emittable(k, hist, p) && HeldMore(k, k') && hist <= hist' && k'.cfg == k.cfg
    ensures Emittable(k', hist', p)
  {
  }

  lemma {:induction false} InputOk(k: Kcb, hist: seq<Frag>, taken: seq<Frag>, peer: Kcb, peerHist: seq<Frag>,
                                   d: Datagram)
    requires Good(k, hist, taken, peer, peerHist) && AllEmittable(peer, peerHist, d)
    ensures var r := Input(Ideal, k, d); var m := InputAll(Ideal, k, d);
            Good(r, hist, taken, peer, peerHist) && HeldMore(k, r) && r.cfg == k.cfg
            && r == m.(sndBuf := r.sndBuf, cong := r.cong)
  {
    var m := InputAll(Ideal, k, d);
    InputAllOk(k, hist, taken, peer, peerHist, d);
    InputAllCfg(Ideal, k, d);
    FinishOk(m, k.sndUna, hist, peer, ScanAll(Ideal, NoAck, d));
    assert HeldMore(m, Input(Ideal, k, d));
  }

  lemma {:induction false} DeliverOk(x: Endpoint, y: Endpoint, i: nat)
    requires Half(x, y) && Half(y, x)
    ensures var x' := ActOn(Ideal, x, y.net, Deliver(i)); Half(x', y) && Half(y, x')
    ensures var x' := ActOn(Ideal, x, y.net, Deliver(i));
            HeldMore(x.k, x'.k) && x'.k.sndUna >= x.k.sndUna && x'.k.cfg == x.k.cfg
  {
    if i < |y.net| {
      InputOk(x.k, x.hist, x.taken, y.k, y.hist, y.net[i]);
      InputAllOk(x.k, x.hist, x.taken, y.k, y.hist, y.net[i]);
      Rebuild(x, y, x.(k := Input(Ideal, x.k, y.net[i])), []);
    }
  }

  // ---- Flush ----------------------------------------------------------------------------

  lemma {:induction false} AppendSorted(buf: seq<Seg>, more: seq<Seg>, nxt: int)
    requires SortedSegs(buf) && forall g :: g in buf ==> g.pkt.sn < nxt
    requires forall i :: 0 <= i < |more| ==> more[i].pkt.sn == nxt + i
    ensures SortedSegs(buf + more)
  {
    forall i | 0 <= i < |buf| ensures buf[i].pkt.sn < nxt { assert buf[i] in buf; }
  }

  /** The segments numbered by one flush continue the history. */
  lemma {:induction false} NewSegsOk(h: Pkt, rto: u32, hist: seq<Frag>, queue: seq<Frag>, n: nat)
    requires n <= |queue|
    ensures var more := NewSegs(h, rto, |hist|, queue, n);
            |more| == n
            && (forall i :: 0 <= i < n ==> more[i].pkt.sn == |hist| + i)
            && (forall g :: g in more ==>
                  |hist| <= g.pkt.sn && InHist(hist + queue[..n], g.pkt) && g.pkt.conv == h.conv && g.pkt.cmd == h.cmd)
  {
    NewSegsAt(h, rto, |hist|, queue, n);
    var more := NewSegs(h, rto, |hist|, queue, n);
    forall g | g in more
      ensures |hist| <= g.pkt.sn && InHist(hist + queue[..n], g.pkt) && g.pkt.conv == h.conv && g.pkt.cmd == h.cmd
    {
      var i :| 0 <= i < n && more[i] == g;
      assert g == NewSeg(h, rto, |hist| + i, queue[i]);
    }
  }

  /** Appending newly numbered segments keeps the sender's window. */
  lemma {:induction false} AppendOk(k: Kcb, hist: seq<Frag>, more: seq<Seg>, frags: seq<Frag>, r: Kcb)
    requires SenderOk(k, hist) && |more| == |frags|
    requires forall i :: 0 <= i < |more| ==> more[i].pkt.sn == |hist| + i
    requires forall g :: g in more ==>
               |hist| <= g.pkt.sn && InHist(hist + frags, g.pkt) && g.pkt.conv == k.cfg.conv && g.pkt.cmd == CMD_PUSH
    requires r.sndBuf == k.sndBuf + more && r.sndNxt == k.sndNxt + |more| && r.sndUna == k.sndUna && r.cfg == k.cfg
    requires more != [] ==> r.sndNxt - r.sndUna <= Min(k.cfg.sndWnd, MAX_WND)
    ensures SenderOk(r, hist + frags)
  {
    AppendSorted(k.sndBuf, more, k.sndNxt);
    forall g | g in r.sndBuf
      ensures r.sndUna <= g.pkt.sn && InHist(hist + frags, g.pkt) && g.pkt.conv == r.cfg.conv && g.pkt.cmd == CMD_PUSH
    {
      if g in k.sndBuf {
        assert (hist + frags)[g.pkt.sn] == hist[g.pkt.sn];
      } else {
        assert g in more;
      }
    }
    if k.sndBuf != [] { assert r.sndBuf[0] == k.sndBuf[0]; }
  }

  lemma {:induction false} FillCovered(k: Kcb, more: seq<Seg>, peer: Kcb, r: Kcb)
    requires Covered(k, peer) && r.sndBuf == k.sndBuf + more && r.sndNxt == k.sndNxt + |more|
    requires forall i :: 0 <= i < |more| ==> more[i].pkt.sn == k.sndNxt + i
    ensures Covered(r, peer)
  {
    forall j | 0 <= j < r.sndNxt ensures Unacked(r, j) || Held(peer, j) {
      if j >= k.sndNxt {
        assert more[j - k.sndNxt] in r.sndBuf;
      } else if Unacked(k, j) {
        var g :| g in k.sndBuf && g.pkt.sn == j;
        assert g in r.sndBuf;
      }
    }
  }

  lemma {:induction false} FillOk(k: Kcb, hist: seq<Frag>, peer: Kcb, wnd: int) returns (n: nat)
    requires SenderOk(k, hist) && Covered(k, peer) && wnd <= Min(k.cfg.sndWnd, MAX_WND)
    ensures n <= |k.sndQueue|
    ensures var r := Fill(Ideal, k, wnd); var hist' := hist + k.sndQueue[..n];
            SenderOk(r, hist') && Covered(r, peer)
            && r == k.(sndQueue := k.sndQueue[n..], sndBuf := r.sndBuf, sndNxt := k.sndNxt + n)
  {
    n := FillRun(k, wnd);
    var more := NewSegs(DataHeader(k), k.rtt.rto, k.sndNxt, k.sndQueue, n);
    var r := k.(sndQueue := k.sndQueue[n..], sndBuf := k.sndBuf + more, sndNxt := k.sndNxt + n);
    NewSegsOk(DataHeader(k), k.rtt.rto, hist, k.sndQueue, n);
    AppendOk(k, hist, more, k.sndQueue[..n], r);
    FillCovered(k, more, peer, r);
  }

  lemma {:induction false} FlushSegSame(k: Kcb, g: Seg)
    ensures var r := FlushSeg(k, g);
            SameContent(r.pkt, g.pkt)
            && (!DueOf(k, g).Quiet? ==> r.pkt.una == k.rcvNxt && r.pkt.wnd == WndUnused(k) % 0x1_0000)
  {
  }

  lemma {:induction false} PackOk(mtu: nat, cur: Datagram, pkts: seq<Pkt>)
    ensures forall d :: d in Pack(mtu, cur, pkts) ==> d != [] && forall p :: p in d ==> p in cur || p in pkts
    decreases |pkts|
  {
    if pkts != [] {
      var full := Size(cur) + PktSize(pkts[0]) > mtu;
      var next := if full then [pkts[0]] else cur + [pkts[0]];
      PackOk(mtu, next, pkts[1..]);
      forall d | d in Pack(mtu, cur, pkts) ensures d != [] && forall p :: p in d ==> p in cur || p in pkts {
        if d in Pack(mtu, next, pkts[1..]) {
          forall p | p in d ensures p in cur || p in pkts { assert p in next || p in pkts[1..]; }
        }
      }
    }
  }

  lemma {:induction false} FlushFrame(k: Kcb)
    ensures var r := Flush(Ideal, k).k;
            r.cfg == k.cfg && r.rcvNxt == k.rcvNxt && r.rcvBuf == k.rcvBuf && r.rcvQueue == k.rcvQueue
            && r.sndUna == k.sndUna && r.rmtWnd == k.rmtWnd && r.rtt == k.rtt && r.clock == k.clock
            && (k.clock.updated ==> r.acks == [])
  {
    FillFrame(Ideal, Cleared(k), EffWnd(k));
  }

  /** The retransmission loop changes no content, and sends only numbered segments. */
  lemma {:induction false} DataSender(f: Kcb, hist: seq<Frag>, peer: Kcb)
    requires SenderOk(f, hist) && Covered(f, peer)
    ensures var r := f.(sndBuf := FlushData(f, f.sndBuf).buf);
            SenderOk(r, hist) && Covered(r, peer)
    ensures DataSent(f, f, hist)
  {
    var d := FlushData(f, f.sndBuf);
    FlushDataAt(f, f.sndBuf);
    forall i | 0 <= i < |f.sndBuf|
      ensures SameContent(d.buf[i].pkt, f.sndBuf[i].pkt)
      ensures !DueOf(f, f.sndBuf[i]).Quiet? ==> SentNow(f, hist, d.buf[i].pkt)
    {
      FlushSegSame(f, f.sndBuf[i]);
      assert f.sndBuf[i] in f.sndBuf;
    }
    SameContentOk(f, f.(sndBuf := d.buf), hist, peer);
  }

  lemma {:induction false} FlushParts(k: Kcb)
    requires k.clock.updated
    ensures var f := Filled(Ideal, k); var r := Flush(Ideal, k).k;
            f == Fill(Ideal, Cleared(k), EffWnd(k))
            && r == f.(sndBuf := FlushData(f, f.sndBuf).buf, xmit := r.xmit, dead := r.dead, cong := r.cong)
  {
  }

  lemma {:induction false} SenderOkSame(f: Kcb, r: Kcb, hist: seq<Frag>, peer: Kcb)
    requires SenderOk(f, hist) && Covered(f, peer)
    requires r.sndBuf == f.sndBuf && r.sndUna == f.sndUna && r.sndNxt == f.sndNxt && r.cfg == f.cfg
    ensures SenderOk(r, hist) && Covered(r, peer)
  {
    assert forall n :: Unacked(f, n) ==> Unacked(r, n);
  }

  /** A data packet written by the current flush. */
  ghost predicate SentNow(k: Kcb, hist: seq<Frag>, p: Pkt) {
    p.conv == k.cfg.conv && p.cmd == CMD_PUSH && InHist(hist, p) && k.sndUna <= p.sn
    && p.una == k.rcvNxt && p.wnd == WndUnused(k) % 0x1_0000
  }

  ghost predicate DataSent(k: Kcb, f: Kcb, hist: seq<Frag>) {
    forall p :: p in FlushData(f, f.sndBuf).pkts ==> SentNow(k, hist, p)
  }

  /** The sender's side of a flush up to the retransmission loop. */
  lemma {:induction false} FilledSender(k: Kcb, hist: seq<Frag>, peer: Kcb) returns (n: nat)
    requires SenderOk(k, hist) && Covered(k, peer)
    ensures n <= |k.sndQueue|
    ensures var f := Filled(Ideal, k); var r := f.(sndBuf := FlushData(f, f.sndBuf).buf);
            r.sndQueue == k.sndQueue[n..] && SenderOk(r, hist + k.sndQueue[..n]) && Covered(r, peer)
    ensures DataSent(k, Filled(Ideal, k), hist + k.sndQueue[..n])
  {
    var k0 := Cleared(k);
    SenderOkSame(k, k0, hist, peer);
    n := FillOk(k0, hist, peer, EffWnd(k));
    var f := Filled(Ideal, k);
    DataSender(f, hist + k.sndQueue[..n], peer);
    SentSame(f, k, hist + k.sndQueue[..n]);
  }

  /** The sender's side of a flush: number, then retransmit. */
  lemma {:induction false} FlushSender(k: Kcb, hist: seq<Frag>, peer: Kcb) returns (n: nat)
    requires SenderOk(k, hist) && Covered(k, peer) && k.clock.updated
    ensures n <= |k.sndQueue|
    ensures var r := Flush(Ideal, k).k;
            r.sndQueue == k.sndQueue[n..] && SenderOk(r, hist + k.sndQueue[..n]) && Covered(r, peer)
    ensures DataSent(k, Filled(Ideal, k), hist + k.sndQueue[..n])
  {
    n := FilledSender(k, hist, peer);
    var f := Filled(Ideal, k);
    FlushParts(k);
    SenderOkSame(f.(sndBuf := FlushData(f, f.sndBuf).buf), Flush(Ideal, k).k, hist + k.sndQueue[..n], peer);
  }

  lemma {:induction false} SentSame(f: Kcb, k: Kcb, hist: seq<Frag>)
    requires DataSent(f, f, hist)
    requires f.cfg == k.cfg && f.rcvNxt == k.rcvNxt && f.rcvQueue == k.rcvQueue && f.sndUna == k.sndUna
    ensures DataSent(k, f, hist)
  {
    forall p | p in FlushData(f, f.sndBuf).pkts ensures SentNow(k, hist, p) {
      assert SentNow(f, hist, p);
    }
  }

  lemma {:induction false} AckPktsOk(h: Pkt, acks: seq<Ack>)
    ensures forall p :: p in AckPkts(h, acks) ==>
              exists a :: a in acks && p == h.(sn := a.sn, ts := a.ts)
    ensures |AckPkts(h, acks)| == |acks|
  {
    if acks != [] {
      AckPktsOk(h, acks[1..]);
      forall p | p in AckPkts(h, acks) ensures exists a :: a in acks && p == h.(sn := a.sn, ts := a.ts) {
        if p in AckPkts(h, acks[1..]) {
          var a :| a in acks[1..] && p == h.(sn := a.sn, ts := a.ts);
          assert a in acks;
        } else {
          assert acks[0] in acks;
        }
      }
    }
  }

  /** A packet written by a flush carries the current una and window. */
  ghost predicate WrittenNow(k: Kcb, hist: seq<Frag>, p: Pkt) {
    && Emittable(k, hist, p) && p.una == k.rcvNxt && p.wnd == WndUnused(k)
    && (p.cmd == CMD_PUSH ==> p.sn >= k.sndUna)
  }

  lemma {:induction false} ControlOk(k: Kcb, hist: seq<Frag>, p: Pkt)
    requires AcksHeld(k) && 0 <= k.rcvNxt
    requires p in AckPkts(Header(k), k.acks) || p in ProbePkts(AfterAcks(Header(k), k.acks), ProbeTimer(k))
    ensures WrittenNow(k, hist, p)
  {
    AckPktsOk(Header(k), k.acks);
    if p in AckPkts(Header(k), k.acks) {
      var a :| a in k.acks && p == Header(k).(sn := a.sn, ts := a.ts);
    } else {
      assert p.cmd == CMD_WASK || p.cmd == CMD_WINS;
    }
  }

  /** Everything a flush writes may be emitted. */
  lemma {:induction false} EmittedOk(k: Kcb, hist: seq<Frag>)
    requires k.clock.updated && AcksHeld(k) && 0 <= k.rcvNxt
    requires DataSent(k, Filled(Ideal, k), hist)
    ensures forall p :: p in Emitted(Ideal, k) ==> WrittenNow(k, hist, p)
  {
    var f := Filled(Ideal, k);
    forall p | p in Emitted(Ideal, k) ensures WrittenNow(k, hist, p) {
      if p in FlushData(f, f.sndBuf).pkts {
        assert SentNow(k, hist, p);
      } else {
        ControlOk(k, hist, p);
      }
    }
  }

  /** All packets of a flush of a good engine, in terms of the history after it. */
  lemma {:induction false} FlushWritten(x: Endpoint, y: Endpoint, k: Kcb) returns (n: nat)
    requires Half(x, y) && Half(y, x) && k == x.k.(clock := k.clock) && k.clock.updated
    ensures n <= |k.sndQueue| && (x.hist + k.sndQueue[..n]) + k.sndQueue[n..] == x.hist + x.k.sndQueue
    ensures DataSent(k, Filled(Ideal, k), x.hist + k.sndQueue[..n])
    ensures forall p :: p in Emitted(Ideal, k) ==> WrittenNow(k, x.hist + k.sndQueue[..n], p)
  {
    SenderOkSame(x.k, k, x.hist, y.k);
    n := FilledSender(k, x.hist, y.k);
    EmittedOk(k, x.hist + k.sndQueue[..n]);
  }

  /** What an event at x must establish. */
  lemma {:induction false} Rebuild(x: Endpoint, y: Endpoint, x': Endpoint, out: seq<Datagram>)
    requires Half(x, y) && Half(y, x)
    requires x'.k.cfg == x.k.cfg && x'.net == x.net + out && x.hist <= x'.hist
    requires SenderOk(x'.k, x'.hist) && Covered(x'.k, y.k)
    requires ReceiverOk(x'.k, x'.taken, y.hist) && AcksHeld(x'.k) && HeldMore(x.k, x'.k)
    requires forall d :: d in out ==> d != [] && AllEmittable(x'.k, x'.hist, d)
    ensures Half(x', y) && Half(y, x')
  {
    forall d | d in x'.net ensures d != [] && AllEmittable(x'.k, x'.hist, d) {
      if d in x.net {
        forall p | p in d ensures Emittable(x'.k, x'.hist, p) {
          EmittableMono(x.k, x.hist, x'.k, x'.hist, p);
        }
      }
    }
  }

  /** A flush numbers a prefix of snd_queue and emits only emittable packets. */
  lemma {:induction false} FlushOk(x: Endpoint, y: Endpoint, k: Kcb)
    requires Half(x, y) && Half(y, x) && k == x.k.(clock := k.clock)
    ensures var x' := Emit(x, Flush(Ideal, k)); Half(x', y) && Half(y, x') && x'.k.sndUna == x.k.sndUna
    ensures var x' := Emit(x, Flush(Ideal, k)); x'.k.cfg == x.k.cfg && HeldMore(x.k, x'.k)
  {
    SenderOkSame(x.k, k, x.hist, y.k);
    var f := Flush(Ideal, k);
    var x' := Emit(x, f);
    if k.clock.updated {
      var n := FlushSender(k, x.hist, y.k);
      FlushFrame(k);
      EmittedOk(k, x.hist + k.sndQueue[..n]);
      PackOk(k.cfg.mtu, [], Emitted(Ideal, k));
      FlushRebuild(x, y, k, f, n, Emitted(Ideal, k));
    } else {
      assert x'.hist == x.hist;
      Rebuild(x, y, x', []);
    }
  }

  lemma {:induction false} FlushRebuild(x: Endpoint, y: Endpoint, k: Kcb, f: FlushOut, n: nat, written: seq<Pkt>)
    requires Half(x, y) && Half(y, x) && k == x.k.(clock := k.clock)
    requires n <= |k.sndQueue| && f.k.sndQueue == k.sndQueue[n..]
    requires SenderOk(f.k, x.hist + k.sndQueue[..n]) && Covered(f.k, y.k)
    requires f.k.cfg == k.cfg && f.k.rcvNxt == k.rcvNxt && f.k.rcvBuf == k.rcvBuf && f.k.rcvQueue == k.rcvQueue
    requires f.k.acks == []
    requires forall p :: p in written ==> WrittenNow(k, x.hist + k.sndQueue[..n], p)
    requires forall d :: d in f.out ==> d != [] && forall p :: p in d ==> p in written
    ensures var x' := Emit(x, f); Half(x', y) && Half(y, x') && HeldMore(x.k, x'.k)
  {
    var x' := Emit(x, f);
    assert x'.hist == x.hist + k.sndQueue[..n];
    assert HeldMore(k, f.k) && HeldMore(x.k, f.k);
    forall d | d in f.out ensures d != [] && AllEmittable(x'.k, x'.hist, d) {
      forall p | p in d ensures Emittable(x'.k, x'.hist, p) {
        assert WrittenNow(k, x'.hist, p);
        EmittableMono(k, x'.hist, x'.k, x'.hist, p);
      }
    }
    Rebuild(x, y, x', f.out);
  }

  lemma {:induction false} DriveOk(x: Endpoint, y: Endpoint, now: u32)
    requires Half(x, y) && Half(y, x)
    ensures var x' := ActOn(Ideal, x, y.net, Drive(now)); Half(x', y) && Half(y, x') && x'.k.sndUna == x.k.sndUna
    ensures var x' := ActOn(Ideal, x, y.net, Drive(now)); x'.k.cfg == x.k.cfg && HeldMore(x.k, x'.k)
  {
    var tick := Tick(x.k.clock, x.k.cfg.interval, now);
    var k := x.k.(clock := tick.0);
    if tick.1 {
      FlushOk(x, y, k);
    } else {
      SenderOkSame(x.k, k, x.hist, y.k);
      var x' := x.(k := k);
      assert Emit(x, FlushOut(k, [])) == x' by { assert x.hist + x.k.sndQueue[..0] == x.hist; }
      assert HeldMore(x.k, k);
      Rebuild(x, y, x', []);
    }
  }

  lemma {:induction false} ReceiveRebuild(x: Endpoint, y: Endpoint, x': Endpoint)
    requires Half(x, y) && Half(y, x)
    requires x'.k.cfg == x.k.cfg && x'.net == x.net && x'.hist == x.hist && x'.k.acks == x.k.acks
    requires x'.k.sndBuf == x.k.sndBuf && x'.k.sndUna == x.k.sndUna && x'.k.sndNxt == x.k.sndNxt
    requires ReceiverOk(x'.k, x'.taken, y.hist) && HeldMore(x.k, x'.k)
    ensures Half(x', y) && Half(y, x')
  {
    SenderOkSame(x.k, x'.k, x.hist, y.k);
    Rebuild(x, y, x', []);
  }

  /** Taking n segments from rcv_queue and refilling it from rcv_buf. */
  lemma {:induction false} TakeOk(k: Kcb, taken: seq<Frag>, hist: seq<Frag>, n: nat)
    requires ReceiverOk(k, taken, hist) && n <= |k.rcvQueue|
    ensures var r := MoveReady(Ideal, k.(rcvQueue := k.rcvQueue[n..]));
            ReceiverOk(r, taken + ToFrags(k.rcvQueue[..n]), hist) && HeldMore(k, r)
            && r == k.(rcvBuf := r.rcvBuf, rcvQueue := r.rcvQueue, rcvNxt := r.rcvNxt)
  {
    var k1 := k.(rcvQueue := k.rcvQueue[n..]);
    var taken' := taken + ToFrags(k.rcvQueue[..n]);
    forall i | 0 <= i < n ensures k.rcvQueue[i].sn == |taken| + i && InHist(hist, k.rcvQueue[i]) { }
    assert taken' == hist[..|taken'|];
    MoveOk(k1, taken', hist);
    MoveReadyFrame(Ideal, k1);
    assert HeldMore(k, k1);
  }

  lemma {:induction false} RecvShape(k: Kcb, len: int)
    ensures var out := Recv(Ideal, k, len);
            var n := if len < 0 then 0 else MsgCount(k.rcvQueue);
            var r := MoveReady(Ideal, k.(rcvQueue := k.rcvQueue[n..]));
            && (out.ret < 0 ==> out.k == k)
            && (out.ret >= 0 ==> out.k == r.(probe := out.k.probe) && out.data == MsgBytes(k.rcvQueue)
                                 && k.rcvQueue != [] && k.rcvQueue[0].frg + 1 <= |k.rcvQueue|)
  {
    assert k.rcvQueue[0..] == k.rcvQueue;
  }

  lemma {:induction false} ReadOk(x: Endpoint, y: Endpoint, len: int)
    requires Half(x, y) && Half(y, x)
    ensures var x' := ActOn(Ideal, x, y.net, Read(len)); Half(x', y) && Half(y, x')
    ensures var x' := ActOn(Ideal, x, y.net, Read(len));
            HeldMore(x.k, x'.k) && x'.k.cfg == x.k.cfg && x'.k.sndUna == x.k.sndUna
  {
    var x' := ActOn(Ideal, x, y.net, Read(len));
    var n := if len < 0 then 0 else MsgCount(x.k.rcvQueue);
    RecvShape(x.k, len);
    TakeOk(x.k, x.taken, y.hist, n);
    assert x.k.rcvQueue[..0] == [] && x.taken + ToFrags([]) == x.taken;
    var r := MoveReady(Ideal, x.k.(rcvQueue := x.k.rcvQueue[n..]));
    assert x'.k == x.k || x'.k == r.(probe := x'.k.probe);
    assert HeldMore(x.k, x'.k);
    ReceiveRebuild(x, y, x');
  }

  lemma {:induction false} WriteOk(x: Endpoint, y: Endpoint, data: seq<byte>)
    requires Half(x, y) && Half(y, x)
    ensures var x' := ActOn(Ideal, x, y.net, Write(data)); Half(x', y) && Half(y, x')
    ensures var x' := ActOn(Ideal, x, y.net, Write(data));
            x'.k == x.k.(sndQueue := x'.k.sndQueue) && HeldMore(x.k, x'.k)
  {
    var x' := ActOn(Ideal, x, y.net, Write(data));
    assert x'.k == x.k.(sndQueue := x'.k.sndQueue);
    assert HeldMore(x.k, x'.k);
    ReceiveRebuild(x, y, x');
  }

  /** Any event at x keeps both halves of the invariant; snd_una never decreases. */
  lemma {:induction false} ActOk(x: Endpoint, y: Endpoint, act: Act)
    requires Half(x, y) && Half(y, x)
    ensures var x' := ActOn(Ideal, x, y.net, act);
            Half(x', y) && Half(y, x') && x'.k.cfg == x.k.cfg && x'.k.sndUna >= x.k.sndUna && HeldMore(x.k, x'.k)
  {
    match act
    case Write(data) => WriteOk(x, y, data);
    case Read(len) => ReadOk(x, y, len);
    case Drive(now) => DriveOk(x, y, now);
    case FlushNow => FlushOk(x, y, x.k);
    case Deliver(i) => DeliverOk(x, y, i);
  }

  /** Every reachable state of the two endpoints satisfies the invariant. */
  lemma {:induction false} Reachable(cfgA: Config, cfgB: Config, es: seq<Event>)
    requires cfgA.conv == cfgB.conv
    ensures var s := Run(Ideal, Init(cfgA, cfgB), es);
            Inv(s) && s.a.k.cfg == cfgA && s.b.k.cfg == cfgB
  {
    if es != [] {
      var s := Run(Ideal, Init(cfgA, cfgB), es[..|es| - 1]);
      var e := es[|es| - 1];
      Reachable(cfgA, cfgB, es[..|es| - 1]);
      if e.atA { ActOk(s.a, s.b, e.act); } else { ActOk(s.b, s.a, e.act); }
    }
  }

  /** In every run: a number A has assigned is still in A's snd_buf, or B holds it or has handed it
      out; and so is every number that B is about to acknowledge, or has ever acknowledged. */
  lemma {:induction false} AckedMeansHeld(cfgA: Config, cfgB: Config, es: seq<Event>)
    requires cfgA.conv == cfgB.conv
    ensures var s := Run(Ideal, Init(cfgA, cfgB), es);
            && (forall n :: 0 <= n < s.a.k.sndNxt ==> Unacked(s.a.k, n) || Held(s.b.k, n))
            && (forall a :: a in s.b.k.acks ==> Held(s.b.k, a.sn))
            && (forall d, p :: d in s.b.net && p in d && p.cmd == CMD_ACK ==> Held(s.b.k, p.sn))
  {
    Reachable(cfgA, cfgB, es);
    var s := Run(Ideal, Init(cfgA, cfgB), es);
    forall d, p | d in s.b.net && p in d && p.cmd == CMD_ACK ensures Held(s.b.k, p.sn) {
      assert Emittable(s.b.k, s.b.hist, p);
    }
  }

  lemma {:induction false} WindowFacts(k: Kcb, hist: seq<Frag>)
    requires SenderOk(k, hist)
    ensures k.sndNxt - k.sndUna <= Min(k.cfg.sndWnd, MAX_WND) && SortedSegs(k.sndBuf)
    ensures forall g :: g in k.sndBuf ==> k.sndUna <= g.pkt.sn < k.sndNxt
    ensures k.sndUna == if k.sndBuf == [] then k.sndNxt else k.sndBuf[0].pkt.sn
  {
    forall g | g in k.sndBuf ensures k.sndUna <= g.pkt.sn < k.sndNxt {
      assert InHist(hist, g.pkt);
    }
  }

  lemma {:induction false} StepUna(s: Sys, e: Event)
    requires Inv(s)
    ensures var s' := Step(Ideal, s, e); Inv(s') && s.a.k.sndUna <= s'.a.k.sndUna
  {
    if e.atA { ActOk(s.a, s.b, e.act); } else { ActOk(s.b, s.a, e.act); }
  }

  lemma {:induction false} UnaGrowsFrom(s: Sys, fs: seq<Event>)
    requires Inv(s)
    ensures var s' := Run(Ideal, s, fs); Inv(s') && s.a.k.sndUna <= s'.a.k.sndUna
  {
    if fs != [] {
      var n := |fs| - 1;
      UnaGrowsFrom(s, fs[..n]);
      StepUna(Run(Ideal, s, fs[..n]), fs[n]);
    }
  }

  lemma {:induction false} UnaGrows(cfgA: Config, cfgB: Config, es: seq<Event>, fs: seq<Event>)
    requires cfgA.conv == cfgB.conv
    ensures Run(Ideal, Init(cfgA, cfgB), es).a.k.sndUna <= Run(Ideal, Init(cfgA, cfgB), es + fs).a.k.sndUna
  {
    Reachable(cfgA, cfgB, es);
    UnaGrowsFrom(Run(Ideal, Init(cfgA, cfgB), es), fs);
    RunConcat(Ideal, Init(cfgA, cfgB), es, fs);
  }

  /** snd_buf stays strictly sorted in [snd_una, snd_nxt), snd_una is the first number not
      acknowledged and never decreases, and no more than snd_wnd numbers are outstanding, nor more than
      65535 whatever snd_wnd is. */
  lemma {:induction false} SenderWindowRuns(cfgA: Config, cfgB: Config, es: seq<Event>, fs: seq<Event>)
    requires cfgA.conv == cfgB.conv
    ensures var k := Run(Ideal, Init(cfgA, cfgB), es).a.k; var k' := Run(Ideal, Init(cfgA, cfgB), es + fs).a.k;
            && k.sndUna <= k'.sndUna && k'.sndNxt - k'.sndUna <= Min(cfgA.sndWnd, MAX_WND)
            && SortedSegs(k'.sndBuf) && (forall g :: g in k'.sndBuf ==> k'.sndUna <= g.pkt.sn < k'.sndNxt)
            && k'.sndUna == (if k'.sndBuf == [] then k'.sndNxt else k'.sndBuf[0].pkt.sn)
  {
    Reachable(cfgA, cfgB, es + fs);
    var s := Run(Ideal, Init(cfgA, cfgB), es + fs);
    WindowFacts(s.a.k, s.a.hist);
    UnaGrows(cfgA, cfgB, es, fs);
  }

  lemma {:induction false} QueueContinues(k: Kcb, taken: seq<Frag>, hist: seq<Frag>)
    requires ReceiverOk(k, taken, hist)
    ensures |taken| + |k.rcvQueue| == k.rcvNxt <= |hist| && taken + ToFrags(k.rcvQueue) == hist[..k.rcvNxt]
  {
    var q := ToFrags(k.rcvQueue);
    forall i | 0 <= i < |q| ensures q[i] == hist[|taken|..k.rcvNxt][i] {
      assert InHist(hist, k.rcvQueue[i]);
    }
    assert q == hist[|taken|..k.rcvNxt];
    assert hist[..|taken|] + hist[|taken|..k.rcvNxt] == hist[..k.rcvNxt];
  }

  /** rcv_buf stays strictly sorted inside the receive window, and its head is the next number only
      while rcv_queue is full; rcv_queue continues what was handed out, without gap or repetition. */
  lemma {:induction false} ReceiverRuns(cfgA: Config, cfgB: Config, es: seq<Event>)
    requires cfgA.conv == cfgB.conv
    ensures var s := Run(Ideal, Init(cfgA, cfgB), es); var k := s.b.k;
            && SortedPkts(k.rcvBuf) && (forall p :: p in k.rcvBuf ==> k.rcvNxt <= p.sn < k.rcvNxt + cfgB.rcvWnd)
            && (k.rcvBuf != [] && k.rcvBuf[0].sn == k.rcvNxt ==> |k.rcvQueue| == cfgB.rcvWnd)
            && |s.b.taken| + |k.rcvQueue| == k.rcvNxt <= |s.a.hist|
            && s.b.taken + ToFrags(k.rcvQueue) == s.a.hist[..k.rcvNxt]
  {
    Reachable(cfgA, cfgB, es);
    var s := Run(Ideal, Init(cfgA, cfgB), es);
    QueueContinues(s.b.k, s.b.taken, s.a.hist);
  }
}
