/** A timely run in which flow control fails: a stale window advertisement, delivered again after
    the receive queue has filled, makes the sender number a segment that the receiver must reject. */
module Overrun {
  import opened Words
  import opened Engine
  import opened Scans
  import opened Network
  import opened Transport
  import opened Steps
  import opened Messages
  import opened Continuation
  import opened Progress
  import opened Flow
  import Backoff
  import Serial

  const CFG: Config := Settings(0, 1400, 512, 128, 100, 0, 0, 5, true, false)

  /** A accepts 257 one-fragment messages and B one; datagram i of B advertises B's whole window. */
  ghost predicate Scene(s: Sys, i: nat) {
    && Ordered(s) && s.a.k.cfg == CFG && s.b.k.cfg == CFG
    && |s.a.hist| + |s.a.k.sndQueue| == 257 && |s.b.hist| + |s.b.k.sndQueue| == 1
    && s.b.taken == [] && i < |s.b.net| && Stale(s.b.net[i])
  }

  ghost predicate Stale(d: Datagram) {
    d != [] &&
    forall p :: p in d ==> p.wnd == 128 && 0 <= p.una && (p.cmd == CMD_ACK || p.cmd == CMD_PUSH ==> 0 <= p.sn)
  }

  /** Datagram j of x's log was just written by k and contains p. */
  ghost predicate FreshAt(x: Endpoint, k: Kcb, j: nat, p: Pkt) {
    j < |x.net| && p in x.net[j] && DatagramOf(k, 0, x.net[j])
  }

  ghost predicate FreshNumber(x: Endpoint, k: Kcb, cmd: byte, n: int) {
    exists j: nat, p: Pkt :: FreshAt(x, k, j, p) && p.cmd == cmd && p.sn == n
  }

  /** The packets of kind `cmd` numbered lo to hi - 1 were just written by k. */
  ghost predicate Wrote(x: Endpoint, k: Kcb, cmd: byte, lo: int, hi: int) {
    && k.rcvNxt == x.k.rcvNxt && k.sndUna == x.k.sndUna
    && forall n :: lo <= n < hi ==> FreshNumber(x, k, cmd, n)
  }

  lemma {:induction false} AcksFromZero(k: Kcb)
    requires AcksHeld(k)
    ensures AckedFrom(k, 0)
  {
  }

  // ---- One side flushes -------------------------------------------------------------------

  /** All segments numbered by a flush are sent. */
  lemma {:induction false} NewSent(k: Kcb, n: nat, j: nat) returns (p: Pkt)
    requires k.clock.updated && j < n <= |k.sndQueue|
    requires Filled(Ideal, k).sndBuf ==
             k.sndBuf + NewSegs(DataHeader(Cleared(k)), k.rtt.rto, k.sndNxt, k.sndQueue, n)
    ensures p in Emitted(Ideal, k) && p.cmd == CMD_PUSH && p.sn == k.sndNxt + j
  {
    var f := Filled(Ideal, k);
    NewSegsAt(DataHeader(Cleared(k)), k.rtt.rto, k.sndNxt, k.sndQueue, n);
    var i := |k.sndBuf| + j;
    assert f.sndBuf[i] == NewSeg(DataHeader(Cleared(k)), k.rtt.rto, k.sndNxt + j, k.sndQueue[j]);
    FlushDataAt(f, f.sndBuf);
    FlushSegSame(f, f.sndBuf[i]);
    p := FlushData(f, f.sndBuf).buf[i].pkt;
  }

  /** The segments numbered by the flush of k are in the log. */
  lemma {:induction false} WroteData(x: Endpoint, k: Kcb, n: nat)
    requires k.clock.updated && n <= |k.sndQueue| && AllWritten(k, 0, Engine.Flush(Ideal, k).out)
    requires Filled(Ideal, k).sndBuf == k.sndBuf + NewSegs(DataHeader(Cleared(k)), k.rtt.rto, k.sndNxt, k.sndQueue, n)
    ensures Wrote(Emit(x, Engine.Flush(Ideal, k)), k, CMD_PUSH, k.sndNxt, k.sndNxt + n)
  {
    FlushFrame(k);
    var x' := Emit(x, Engine.Flush(Ideal, k));
    forall q | k.sndNxt <= q < k.sndNxt + n ensures FreshNumber(x', k, CMD_PUSH, q) {
      var p := NewSent(k, n, q - k.sndNxt);
      var j := EmittedAt(x, k, 0, p);
      assert FreshAt(x', k, j, p);
    }
  }

  /** How many segments a flush numbers when nothing is outstanding and 128 are allowed. */
  lemma {:induction false} NumbersWindow(x: Endpoint, y: Endpoint, k: Kcb)
    requires Half(x, y) && Half(y, x) && k == x.k.(clock := k.clock) && k.clock.updated
    requires k.sndUna == k.sndNxt && EffWnd(k) == 128 && |k.sndQueue| >= 128
    ensures Engine.Flush(Ideal, k).k.sndNxt == k.sndNxt + 128
    ensures Filled(Ideal, k).sndBuf == k.sndBuf + NewSegs(DataHeader(Cleared(k)), k.rtt.rto, k.sndNxt, k.sndQueue, 128)
  {
    var n := FreshSent(x, y, k);
    var m := FillRun(Cleared(k), EffWnd(k));
    FlushParts(k);
  }

  /** A flush of one side of the scene. */
  lemma {:induction false} FlushScene(s: Sys, atA: bool, i: nat) returns (es: seq<Event>, k: Kcb)
    requires Scene(s, i)
    ensures Cont(s, es)
    ensures var x := Near(s, atA); var s' := Run(Ideal, s, es);
            && k == x.k.(clock := k.clock) && k.clock.updated
            && s' == Put(s, atA, Emit(x, Engine.Flush(Ideal, k))) && Scene(s', i)
            && AllWritten(k, 0, Engine.Flush(Ideal, k).out)
  {
    var x := Near(s, atA);
    AcksFromZero(x.k);
    es, k := FlushSoon(s, atA, 0);
    FlushTotal(x, k);
  }

  lemma {:induction false} FlushTotal(x: Endpoint, k: Kcb)
    requires k == x.k.(clock := k.clock)
    ensures var x' := Emit(x, Engine.Flush(Ideal, k));
            |x'.hist| + |x'.k.sndQueue| == |x.hist| + |x.k.sndQueue| && x'.taken == x.taken && x.net <= x'.net
  {
    if k.clock.updated {
      var n := FillRun(Cleared(k), EffWnd(k));
      FlushParts(k);
    }
  }

  /** A flushes with nothing outstanding and a window of 128: it numbers and sends 128 segments. */
  lemma {:induction false} SendWindow(s: Sys, i: nat) returns (es: seq<Event>, k: Kcb)
    requires Scene(s, i) && s.a.k.sndUna == s.a.k.sndNxt && s.a.k.rmtWnd == 128 && |s.a.k.sndQueue| >= 128
    ensures Cont(s, es)
    ensures var s' := Run(Ideal, s, es);
            && Scene(s', i) && s'.b == s.b && s'.a.k.sndNxt == s.a.k.sndNxt + 128 && s'.a.k.sndUna == s.a.k.sndUna
            && s'.a.k.clock.updated && Wrote(s'.a, k, CMD_PUSH, s.a.k.sndNxt, s.a.k.sndNxt + 128)
  {
    es, k := FlushScene(s, true, i);
    NumbersWindow(s.a, s.b, k);
    WroteData(s.a, k, 128);
    FlushFrame(k);
  }

  // ---- One datagram arrives -----------------------------------------------------------------

  /** Delivers a datagram just written. */
  lemma {:induction false} DeliverScene(s: Sys, toA: bool, i: nat, k: Kcb, j: nat, p: Pkt)
    returns (es: seq<Event>, k': Kcb)
    requires Scene(s, i) && FreshAt(Far(s, toA), k, j, p)
    requires k.rcvNxt == Far(s, toA).k.rcvNxt && k.sndUna == Far(s, toA).k.sndUna
    ensures Cont(s, es) && k' == Input(Ideal, Near(s, toA).k, Far(s, toA).net[j])
    ensures Run(Ideal, s, es) == Put(s, toA, Near(s, toA).(k := k')) && Scene(Run(Ideal, s, es), i)
    ensures Delivered(Near(s, toA).k, k', Far(s, toA).net[j])
  {
    var x := Near(s, toA);
    var y := Far(s, toA);
    forall q | q in y.net[j] ensures Young(x.k, q) {
      assert JustWritten(k, 0, q);
      YoungNow(x, y, k, 0, q);
    }
    es, k' := Arrives(s, toA, i, j);
  }

  lemma {:induction false} Arrives(s: Sys, toA: bool, i: nat, j: nat) returns (es: seq<Event>, k': Kcb)
    requires Scene(s, i) && j < |Far(s, toA).net| && forall q :: q in Far(s, toA).net[j] ==> Young(Near(s, toA).k, q)
    ensures Cont(s, es) && k' == Input(Ideal, Near(s, toA).k, Far(s, toA).net[j])
    ensures Run(Ideal, s, es) == Put(s, toA, Near(s, toA).(k := k')) && Scene(Run(Ideal, s, es), i)
    ensures Delivered(Near(s, toA).k, k', Far(s, toA).net[j])
  {
    var x := Near(s, toA);
    var y := Far(s, toA);
    k' := DeliverShape(x, y, j);
    ShapeIsInput(x, y, j, k');
    es := DeliverEvent(s, toA, j, k');
    DeliveredIs(x, y, j, k');
    StillScene(s, toA, i, k');
  }

  lemma {:induction false} ShapeIsInput(x: Endpoint, y: Endpoint, j: nat, k': Kcb)
    requires j < |y.net| && ActOn(Ideal, x, y.net, Deliver(j)) == x.(k := k')
    ensures k' == Input(Ideal, x.k, y.net[j])
  {
  }

  lemma {:induction false} StillScene(s: Sys, atA: bool, i: nat, k': Kcb)
    requires Scene(s, i) && Ordered(Put(s, atA, Near(s, atA).(k := k')))
    requires k'.sndQueue == Near(s, atA).k.sndQueue && k'.cfg == CFG
    ensures Scene(Put(s, atA, Near(s, atA).(k := k')), i)
  {
  }

  lemma {:induction false} DeliveredIs(x: Endpoint, y: Endpoint, j: nat, k': Kcb)
    requires Half(x, y) && Half(y, x) && j < |y.net|
    requires k' == InputAll(Ideal, x.k, y.net[j]).(sndBuf := k'.sndBuf, cong := k'.cong)
    ensures Delivered(x.k, k', y.net[j])
  {
    assert y.net[j] in y.net;
    InputAllCfg(Ideal, x.k, y.net[j]);
    InputAllGrows(x.k, y.net[j]);
    InputAllOk(x.k, x.hist, x.taken, y.k, y.hist, y.net[j]);
  }

  /** What the delivery of d changes, besides queues and window. */
  ghost predicate Delivered(k: Kcb, k': Kcb, d: Datagram) {
    && k' == InputAll(Ideal, k, d).(sndBuf := k'.sndBuf, cong := k'.cong)
    && k'.sndNxt == k.sndNxt && k'.sndQueue == k.sndQueue && k'.clock == k.clock && k'.cfg == k.cfg
    && k.rcvNxt <= k'.rcvNxt && k'.rcvNxt - |k'.rcvQueue| == k.rcvNxt - |k.rcvQueue|
    && k.acks <= k'.acks
    && k'.sndUna >= k.sndUna && (d != [] ==> k'.sndUna >= Min(d[0].una, k.sndNxt))
  }

  ghost predicate HasAck(k: Kcb, n: int) { exists a :: a in k.acks && a.sn == n }

  ghost predicate HasAcks(k: Kcb, lo: int, hi: int) { forall n :: lo <= n < hi ==> HasAck(k, n) }

  /** A segment within the window is acknowledged. */
  lemma {:induction false} PushAcked(k: Kcb, hist: seq<Frag>, taken: seq<Frag>, peer: Kcb, peerHist: seq<Frag>,
                                     d: Datagram, p: Pkt)
    requires Good(k, hist, taken, peer, peerHist) && AllEmittable(peer, peerHist, d)
    requires p in d && p.cmd == CMD_PUSH && p.sn < k.rcvNxt + k.cfg.rcvWnd
    ensures HasAck(InputAll(Ideal, k, d), p.sn)
    decreases |d|
  {
    var q := d[0];
    var k1 := InputPkt(Ideal, k, q);
    PktOk(k, hist, taken, peer, peerHist, q);
    InputPktCfg(Ideal, k, q);
    if p == q {
      var h := InputHead(Ideal, k, p);
      assert AcksHeld(h) && ReceiverOk(h, taken, peerHist) by { assert HeldMore(k, h); }
      PushOk(h, taken, peerHist, p);
      assert Ack(p.sn, p.ts) in k1.acks;
      InputAllGrows(k1, d[1..]);
    } else {
      PushAcked(k1, hist, taken, peer, peerHist, d[1..], p);
    }
  }

  // ---- The receive queue fills ------------------------------------------------------------

  lemma {:induction false} Fill128(s: Sys, i: nat, k: Kcb) returns (es: seq<Event>)
    requires Scene(s, i) && s.a.k.sndNxt == 128 && Wrote(s.a, k, CMD_PUSH, 0, 128)
    requires s.b.k.rcvNxt < 128 || s.b.k.acks != []
    ensures Cont(s, es)
    ensures var s' := Run(Ideal, s, es);
            s'.a == s.a && Scene(s', i) && s'.b.k.rcvNxt == 128 && s'.b.k.acks != []
    decreases 128 - s.b.k.rcvNxt
  {
    if s.b.k.rcvNxt == 128 {
      es := [];
    } else {
      assert FreshNumber(s.a, k, CMD_PUSH, s.b.k.rcvNxt);
      var j: nat, p: Pkt :| FreshAt(s.a, k, j, p) && p.cmd == CMD_PUSH && p.sn == s.b.k.rcvNxt;
      var e1, k' := DeliverScene(s, false, i, k, j, p);
      assert s.a.net[j] in s.a.net;
      PushArrives(s.b.k, s.b.hist, s.b.taken, s.a.k, s.a.hist, s.a.net[j], p);
      var e2 := Fill128(Run(Ideal, s, e1), i, k);
      ContThen(s, e1, e2);
      es := e1 + e2;
    }
  }

  /** Then the next 128 segments wait in rcv_buf, and are acknowledged. */
  lemma {:induction false} Hold256(s: Sys, i: nat, k: Kcb, n: int) returns (es: seq<Event>)
    requires Scene(s, i) && s.a.k.sndNxt == 256 && Wrote(s.a, k, CMD_PUSH, 128, 256)
    requires s.b.k.rcvNxt == 128 && 128 <= n <= 256 && HasAcks(s.b.k, 128, n)
    ensures Cont(s, es)
    ensures var s' := Run(Ideal, s, es);
            s'.a == s.a && Scene(s', i) && s'.b.k.rcvNxt == 128 && HasAcks(s'.b.k, 128, 256)
    decreases 256 - n
  {
    if n == 256 {
      es := [];
    } else {
      assert FreshNumber(s.a, k, CMD_PUSH, n);
      var j: nat, p: Pkt :| FreshAt(s.a, k, j, p) && p.cmd == CMD_PUSH && p.sn == n;
      var e1, k' := DeliverScene(s, false, i, k, j, p);
      assert s.a.net[j] in s.a.net;
      PushAcked(s.b.k, s.b.hist, s.b.taken, s.a.k, s.a.hist, s.a.net[j], p);
      AcksKept(s.b.k, k', 128, n);
      var e2 := Hold256(Run(Ideal, s, e1), i, k, n + 1);
      ContThen(s, e1, e2);
      es := e1 + e2;
    }
  }

  lemma {:induction false} AcksKept(k: Kcb, k': Kcb, lo: int, n: int)
    requires HasAcks(k, lo, n) && k.acks <= k'.acks && HasAck(k', n)
    ensures HasAcks(k', lo, n + 1)
  {
    forall m | lo <= m < n + 1 ensures HasAck(k', m) {
      if m < n {
        assert HasAck(k, m);
        var a :| a in k.acks && a.sn == m;
        assert a in k'.acks;
      }
    }
  }

  // ---- The answers ------------------------------------------------------------------------

  lemma {:induction false} AckWritten(h: Pkt, acks: seq<Ack>, a: Ack)
    requires a in acks
    ensures h.(sn := a.sn, ts := a.ts) in AckPkts(h, acks)
  {
    if a != acks[0] {
      AckWritten(h, acks[1..], a);
    }
  }

  /** B flushes: every number to acknowledge is in its log. */
  lemma {:induction false} AnswerAcks(s: Sys, i: nat, lo: int, hi: int) returns (es: seq<Event>, k: Kcb)
    requires Scene(s, i) && HasAcks(s.b.k, lo, hi)
    ensures Cont(s, es)
    ensures var s' := Run(Ideal, s, es);
            && s'.a == s.a && Scene(s', i) && s'.b.k.rcvNxt == s.b.k.rcvNxt && s'.b.k.rcvQueue == s.b.k.rcvQueue
            && k.rcvNxt == s.b.k.rcvNxt && Wrote(s'.b, k, CMD_ACK, lo, hi)
  {
    es, k := FlushScene(s, false, i);
    FlushFrame(k);
    var s' := Run(Ideal, s, es);
    forall n | lo <= n < hi ensures FreshNumber(s'.b, k, CMD_ACK, n) {
      assert HasAck(s.b.k, n);
      var a :| a in k.acks && a.sn == n;
      AckWritten(Header(k), k.acks, a);
      var p := Header(k).(sn := a.sn, ts := a.ts);
      var j := EmittedAt(s.b, k, 0, p);
      assert FreshAt(s'.b, k, j, p);
    }
  }

  /** Input only takes segments out of snd_buf. */
  ghost predicate Fewer(k: Kcb, k': Kcb) { forall n :: Unacked(k', n) ==> Unacked(k, n) }

  lemma {:induction false} PktFewer(k: Kcb, hist: seq<Frag>, peer: Kcb, p: Pkt)
    requires SenderOk(k, hist) && Covered(k, peer) && p.una <= peer.rcvNxt
    ensures var r := InputPkt(Ideal, k, p); Fewer(k, r) && (p.cmd == CMD_ACK ==> !Unacked(r, p.sn))
  {
    var h := InputHead(Ideal, k, p);
    var j := ParseUnaSuffix(k.sndBuf, p.una);
    HeadOk(k, hist, peer, p);
    assert h.sndBuf == k.sndBuf[j..] && forall g :: g in h.sndBuf ==> g in k.sndBuf;
    if p.cmd == CMD_ACK {
      AckFewer(h, hist, p);
    } else {
      InputPushFrame(Ideal, h, p);
    }
  }

  lemma {:induction false} AckFewer(h: Kcb, hist: seq<Frag>, p: Pkt)
    requires SenderOk(h, hist)
    ensures var r := InputAck(Ideal, h, p); Fewer(h, r) && !Unacked(r, p.sn)
  {
    var m := AckScanOne(h.sndBuf, p.sn);
    InputAckSnd(h, p);
    if m < |h.sndBuf| {
      SkipOne(h.sndBuf, m);
      assert h.sndBuf[m] in h.sndBuf;
      forall g | g in h.sndBuf[..m] + h.sndBuf[m + 1..] ensures g.pkt.sn != p.sn {
        assert g in h.sndBuf[..m] || g in h.sndBuf[m + 1..];
      }
    }
  }

  lemma {:induction false} AllFewer(k: Kcb, hist: seq<Frag>, taken: seq<Frag>, peer: Kcb, peerHist: seq<Frag>,
                                    d: Datagram)
    requires Good(k, hist, taken, peer, peerHist) && AllEmittable(peer, peerHist, d)
    ensures var r := InputAll(Ideal, k, d);
            Fewer(k, r) && forall p :: p in d && p.cmd == CMD_ACK ==> !Unacked(r, p.sn)
    decreases |d|
  {
    if d != [] {
      PktOk(k, hist, taken, peer, peerHist, d[0]);
      PktFewer(k, hist, peer, d[0]);
      AllFewer(InputPkt(Ideal, k, d[0]), hist, taken, peer, peerHist, d[1..]);
    }
  }

  /** Counting fast acknowledgements keeps the numbers of snd_buf. */
  lemma {:induction false} FastackFewer(k: Kcb, sn: int, ts: u32)
    requires SortedSegs(k.sndBuf)
    ensures Fewer(k, ParseFastack(Ideal, k, sn, ts))
  {
    var r := ParseFastack(Ideal, k, sn, ts);
    if AckInWindow(Ideal, k, sn) {
      FastackScanAt(k.sndBuf, sn, ts);
      forall n | Unacked(r, n) ensures Unacked(k, n) {
        var g :| g in r.sndBuf && g.pkt.sn == n;
        var i :| 0 <= i < |r.sndBuf| && r.sndBuf[i] == g;
        assert k.sndBuf[i] in k.sndBuf;
      }
    }
  }

  lemma {:induction false} FinishFewer(k: Kcb, hist: seq<Frag>, prevUna: int, sc: Scan)
    requires SenderOk(k, hist)
    ensures Fewer(k, InputFinish(Ideal, prevUna, k, sc))
  {
    if sc.MaxAck? { FastackFewer(k, sc.sn, sc.ts); }
  }

  lemma {:induction false} InputFewer(x: Endpoint, y: Endpoint, d: Datagram)
    requires Half(x, y) && Half(y, x) && d in y.net
    ensures var r := Input(Ideal, x.k, d); Fewer(x.k, r) && forall p :: p in d && p.cmd == CMD_ACK ==> !Unacked(r, p.sn)
  {
    AllFewer(x.k, x.hist, x.taken, y.k, y.hist, d);
    InputAllOk(x.k, x.hist, x.taken, y.k, y.hist, d);
    FinishFewer(InputAll(Ideal, x.k, d), x.hist, x.k.sndUna, ScanAll(Ideal, NoAck, d));
  }

  /** One answer after the queue has filled: everything is acknowledged cumulatively. */
  lemma {:induction false} CumulativeAck(s: Sys, i: nat) returns (es: seq<Event>)
    requires Scene(s, i) && s.a.k.sndNxt == 128 && s.b.k.rcvNxt == 128 && s.b.k.acks != []
    ensures Cont(s, es)
    ensures var s' := Run(Ideal, s, es);
            && Scene(s', i) && s'.a.k.sndUna == 128 && s'.a.k.sndNxt == 128 && s'.a.k.sndQueue == s.a.k.sndQueue
            && s'.b.k.rcvNxt == 128
  {
    var n := s.b.k.acks[0].sn;
    assert HasAcks(s.b.k, n, n + 1) by { assert HasAck(s.b.k, n) by { assert s.b.k.acks[0] in s.b.k.acks; } }
    var e1, k := AnswerAcks(s, i, n, n + 1);
    var s1 := Run(Ideal, s, e1);
    assert FreshNumber(s1.b, k, CMD_ACK, n);
    var j: nat, p: Pkt :| FreshAt(s1.b, k, j, p) && p.cmd == CMD_ACK && p.sn == n;
    var e2, k' := DeliverScene(s1, true, i, k, j, p);
    assert JustWritten(k, 0, s1.b.net[j][0]);
    ContThen(s, e1, e2);
    es := e1 + e2;
  }

  /** No number from 128 to n - 1 is outstanding. */
  ghost predicate Gone(k: Kcb, n: int) { forall m :: 128 <= m < n ==> !Unacked(k, m) }

  lemma {:induction false} GoneNext(k: Kcb, k': Kcb, n: int)
    requires Gone(k, n) && Fewer(k, k') && !Unacked(k', n)
    ensures Gone(k', n + 1)
  {
  }

  lemma {:induction false} NothingLeft(k: Kcb, hist: seq<Frag>)
    requires SenderOk(k, hist) && k.sndUna >= 128 && k.sndNxt == 256 && Gone(k, 256)
    ensures k.sndUna == k.sndNxt
  {
    if k.sndBuf != [] {
      assert k.sndBuf[0] in k.sndBuf;
      assert Unacked(k, k.sndBuf[0].pkt.sn);
    }
  }

  /** Selective acknowledgements of everything outstanding empty snd_buf, although the receive queue
      has not moved. */
  lemma {:induction false} SelectiveAcks(s: Sys, i: nat, k: Kcb, n: int) returns (es: seq<Event>)
    requires Scene(s, i) && s.a.k.sndNxt == 256 && s.a.k.sndUna >= 128 && Wrote(s.b, k, CMD_ACK, 128, 256)
    requires 128 <= n <= 256 && Gone(s.a.k, n)
    ensures Cont(s, es)
    ensures var s' := Run(Ideal, s, es);
            && s'.b == s.b && Scene(s', i) && s'.a.k.sndUna == 256 && s'.a.k.sndNxt == 256
            && s'.a.k.sndQueue == s.a.k.sndQueue && s'.a.k.clock == s.a.k.clock
    decreases 256 - n
  {
    if n == 256 {
      es := [];
      NothingLeft(s.a.k, s.a.hist);
    } else {
      assert FreshNumber(s.b, k, CMD_ACK, n);
      var j: nat, p: Pkt :| FreshAt(s.b, k, j, p) && p.cmd == CMD_ACK && p.sn == n;
      var e1, k' := DeliverScene(s, true, i, k, j, p);
      assert s.b.net[j] in s.b.net;
      InputFewer(s.a, s.b, s.b.net[j]);
      GoneNext(s.a.k, k', n);
      var e2 := SelectiveAcks(Run(Ideal, s, e1), i, k, n + 1);
      ContThen(s, e1, e2);
      es := e1 + e2;
    }
  }

  /** The stale datagram arrives once more: A believes the whole window to be open. */
  lemma {:induction false} Replay(s: Sys, i: nat) returns (es: seq<Event>)
    requires Scene(s, i) && s.a.k.sndUna == s.a.k.sndNxt
    ensures Cont(s, es)
    ensures var s' := Run(Ideal, s, es);
            && Scene(s', i) && s'.b == s.b && s'.a.k.rmtWnd == 128
            && s'.a.k.sndUna == s.a.k.sndUna && s'.a.k.sndNxt == s.a.k.sndNxt
            && s'.a.k.sndQueue == s.a.k.sndQueue && s'.a.k.clock == s.a.k.clock
  {
    var d := s.b.net[i];
    forall p | p in d ensures Young(s.a.k, p) { }
    var k';
    es, k' := Arrives(s, true, i, i);
    InputWindow(s.a.k, d);
    assert d[|d| - 1] in d;
  }

  // ---- The whole run ----------------------------------------------------------------------

  lemma {:induction false} OneByte(k: Kcb)
    requires k.cfg == CFG
    ensures Engine.Send(k, [0]) == SendOut(k.(sndQueue := k.sndQueue + [Frag(0, [0])]), 1)
  {
    assert [0][0..] == [0];
    assert Fragments(CFG.Mss(), [0], 1, false) == [Frag(0, [0])] by { assert [0][..1] == [0]; }
  }

  /** n one-byte writes at one side. */
  lemma {:induction false} Writes(s: Sys, atA: bool, n: nat) returns (es: seq<Event>)
    requires Near(s, atA).k.cfg == CFG
    ensures Fair(s, es)
    ensures var x := Near(s, atA); var x' := Near(Run(Ideal, s, es), atA);
            && Run(Ideal, s, es) == Put(s, atA, x') && x'.k == x.k.(sndQueue := x'.k.sndQueue)
            && |x'.k.sndQueue| == |x.k.sndQueue| + n && x'.net == x.net && x'.hist == x.hist && x'.taken == x.taken
  {
    es := [];
    var i := 0;
    while i < n
      invariant 0 <= i <= n && Fair(s, es)
      invariant var x := Near(s, atA); var x' := Near(Run(Ideal, s, es), atA);
                && Run(Ideal, s, es) == Put(s, atA, x') && x'.k == x.k.(sndQueue := x'.k.sndQueue)
                && |x'.k.sndQueue| == |x.k.sndQueue| + i && x'.net == x.net && x'.hist == x.hist && x'.taken == x.taken
    {
      var e := Event(atA, Write([0]));
      OneByte(Near(Run(Ideal, s, es), atA).k);
      assert (es + [e])[..|es|] == es;
      es := es + [e];
      i := i + 1;
    }
  }

  /** The scene is set: both sides have written, and B has advertised its window. */
  lemma {:induction false} SetScene() returns (es: seq<Event>, i: nat)
    ensures Fair(Init(CFG, CFG), es)
    ensures var s := Run(Ideal, Init(CFG, CFG), es);
            && Scene(s, i) && s.a.k.sndUna == 0 && s.a.k.sndNxt == 0 && s.a.k.rmtWnd == 128 && |s.a.k.sndQueue| == 257
            && s.b.k.rcvNxt == 0
  {
    var s0 := Init(CFG, CFG);
    var wb := Writes(s0, false, 1);
    var s1 := Run(Ideal, s0, wb);
    var wa := Writes(s1, true, 257);
    FairThen(s0, wb, wa);
    var s2 := Run(Ideal, s0, wb + wa);
    InitOrdered(CFG, CFG);
    RunOrdered(s0, wb + wa);
    var fb, k := FlushSoon(s2, false, 0);
    FairThen(s0, wb + wa, fb);
    es := wb + wa + fb;
    i := Advertised(s2.b, s2.a, k);
    FlushTotal(s2.b, k);
  }

  /** B's first datagram carries its whole window. */
  lemma {:induction false} Advertised(x: Endpoint, y: Endpoint, k: Kcb) returns (i: nat)
    requires Half(x, y) && Half(y, x) && k == x.k.(clock := k.clock) && k.clock.updated && k.cfg == CFG
    requires |k.sndQueue| == 1 && k.rmtWnd == 128 && k.sndUna == k.sndNxt && k.rcvNxt == 0 && k.rcvQueue == []
    requires AllWritten(k, 0, Engine.Flush(Ideal, k).out)
    ensures var net := Emit(x, Engine.Flush(Ideal, k)).net; i < |net| && Stale(net[i])
  {
    var n := FillRun(Cleared(k), EffWnd(k));
    var p := NewSent(k, n, 0);
    i := EmittedAt(x, k, 0, p);
    WholeWindow(k, Emit(x, Engine.Flush(Ideal, k)).net[i]);
  }

  lemma {:induction false} WholeWindow(k: Kcb, d: Datagram)
    requires d != [] && DatagramOf(k, 0, d) && WndUnused(k) == 128 && 0 <= k.rcvNxt && 0 <= k.sndUna
    ensures Stale(d)
  {
    forall q | q in d ensures q.wnd == 128 && 0 <= q.una && (q.cmd == CMD_ACK || q.cmd == CMD_PUSH ==> 0 <= q.sn) {
      assert JustWritten(k, 0, q);
    }
  }

  /** Up to the point where A has been acknowledged 256 segments, of which B's application could
      have read 128. */
  lemma {:induction false} TwoWindows(s: Sys, i: nat) returns (es: seq<Event>)
    requires Scene(s, i) && s.a.k.sndUna == 0 && s.a.k.sndNxt == 0 && s.a.k.rmtWnd == 128 && |s.a.k.sndQueue| == 257
    requires s.b.k.rcvNxt == 0
    ensures Cont(s, es)
    ensures var s' := Run(Ideal, s, es);
            && Scene(s', i) && s'.a.k.sndUna == 256 && s'.a.k.sndNxt == 256 && s'.b.k.rcvNxt == 128
            && s'.a.k.clock.updated
  {
    var e1, k1 := SendWindow(s, i);
    var s1 := Run(Ideal, s, e1);
    var e2 := Fill128(s1, i, k1);
    var s2 := Run(Ideal, s1, e2);
    var e3 := CumulativeAck(s2, i);
    var s3 := Run(Ideal, s2, e3);
    var e4 := Replay(s3, i);
    var s4 := Run(Ideal, s3, e4);
    var e5, k5 := SendWindow(s4, i);
    var s5 := Run(Ideal, s4, e5);
    var e6 := Hold256(s5, i, k5, 128);
    var s6 := Run(Ideal, s5, e6);
    var e7, k7 := AnswerAcks(s6, i, 128, 256);
    var s7 := Run(Ideal, s6, e7);
    var e8 := SelectiveAcks(s7, i, k7, 128);
    ContThen(s6, e7, e8);
    ContThen(s5, e6, e7 + e8);
    ContThen(s4, e5, e6 + (e7 + e8));
    ContThen(s3, e4, e5 + (e6 + (e7 + e8)));
    ContThen(s2, e3, e4 + (e5 + (e6 + (e7 + e8))));
    ContThen(s1, e2, e3 + (e4 + (e5 + (e6 + (e7 + e8)))));
    ContThen(s, e1, e2 + (e3 + (e4 + (e5 + (e6 + (e7 + e8))))));
    es := e1 + (e2 + (e3 + (e4 + (e5 + (e6 + (e7 + e8))))));
  }

  /** A run after which A has one segment to send and believes that it may, while B's window ends
      before it. */
  lemma {:induction false} Misled() returns (es: seq<Event>, i: nat)
    ensures Fair(Init(CFG, CFG), es)
    ensures var s := Run(Ideal, Init(CFG, CFG), es);
            && Scene(s, i) && s.a.k.sndUna == 256 && s.a.k.sndNxt == 256 && s.a.k.rmtWnd == 128
            && s.b.k.rcvNxt == 128 && s.a.k.clock.updated
  {
    var s0 := Init(CFG, CFG);
    var e1;
    e1, i := SetScene();
    var s1 := Run(Ideal, s0, e1);
    var e2 := TwoWindows(s1, i);
    var s2 := Run(Ideal, s1, e2);
    var e3 := Replay(s2, i);
    ContThen(s1, e2, e3);
    FairThen(s0, e1, e2 + e3);
    es := e1 + (e2 + e3);
  }

  lemma {:induction false} MisledReaches(s: Sys, i: nat)
    requires Scene(s, i) && s.a.k.sndUna == 256 && s.a.k.sndNxt == 256 && s.a.k.rmtWnd == 128
    requires s.b.k.rcvNxt == 128 && s.a.k.clock.updated
    ensures |s.a.k.sndQueue| == 1 && s.a.k.sndBuf == [] && EffWnd(s.a.k) == 128 && Reaches(s.a.k, s.b)
    ensures Overruns(s.a.k, s.b)
  {
    OverrunIff(s.a, s.b, s.a.k);
    WindowFacts(s.a.k, s.a.hist);
  }

  /** Flow control can fail, in a run whose every delivery is timely and whose clocks only advance: A's
      next flush meets the guard and numbers a segment beyond B's window. */
  lemma {:induction false} FlowControlFails() returns (es: seq<Event>)
    ensures Serial.Timely(CFG, CFG, es) && ClockRun(Ideal, Init(CFG, CFG), es)
    ensures var s := Run(Ideal, Init(CFG, CFG), es);
            && OverrunsAt(s, Event(true, FlushNow)) && Overruns(s.a.k, s.b)
            && !AllInWindow(Step(Ideal, s, Event(true, FlushNow)))
  {
    var i;
    es, i := Misled();
    var s := Run(Ideal, Init(CFG, CFG), es);
    MisledReaches(s, i);
    StepBeyond(s, Event(true, FlushNow));
  }

  // ---- And again --------------------------------------------------------------------------

  /** The flush of that segment: it is the only one left, and due again within the clock's range. */
  lemma {:induction false} SentBeyond(s: Sys, i: nat) returns (es: seq<Event>)
    requires Scene(s, i) && s.a.k.sndUna == 256 && s.a.k.sndNxt == 256 && s.a.k.rmtWnd == 128
    requires s.b.k.rcvNxt == 128 && s.a.k.clock.updated && s.a.k.rtt.rto <= RTO_MAX
    ensures Cont(s, es)
    ensures var s' := Run(Ideal, s, es);
            && Scene(s', i) && s'.b == s.b && s'.a.k.sndUna == 256 && s'.a.k.sndQueue == [] && s'.a.k.sndBuf != []
            && Itimediff(s'.a.k.sndBuf[0].resendts, s'.a.k.clock.current) >= 0
  {
    MisledReaches(s, i);
    var k;
    es, k := FlushScene(s, true, i);
    LastSent(k);
  }

  lemma {:induction false} LastSent(k: Kcb)
    requires k.clock.updated && k.sndBuf == [] && k.sndUna == k.sndNxt && |k.sndQueue| == 1 && EffWnd(k) >= 1
    requires k.rtt.rto <= RTO_MAX
    ensures var r := Engine.Flush(Ideal, k).k;
            && r.sndQueue == [] && r.sndUna == k.sndUna && r.sndBuf != []
            && Itimediff(r.sndBuf[0].resendts, r.clock.current) >= 0
  {
    FlushFrame(k);
    NewHead(k);
    OneNumbered(k);
    I32Small(0);
    ShiftLater(k.clock.current, k.clock.current, k.rtt.rto + if k.cfg.nodelay == 0 then k.rtt.rto / 8 else 0);
  }

  lemma {:induction false} OneNumbered(k: Kcb)
    requires k.clock.updated && k.sndUna == k.sndNxt && |k.sndQueue| == 1 && EffWnd(k) >= 1
    ensures Engine.Flush(Ideal, k).k.sndQueue == []
  {
    var n := FillRun(Cleared(k), EffWnd(k));
    FlushParts(k);
  }

  /** The guard is not met, yet a flush sends a segment beyond the window: the one numbered before,
      when its timeout comes. */
  lemma {:induction false} ResentBeyond(s: Sys, k: Kcb)
    requires Half(s.a, s.b) && Half(s.b, s.a) && k == s.a.k.(clock := k.clock) && k.clock.updated
    requires s.a.k.sndUna == 256 && s.b.k.rcvNxt == 128 && s.b.k.cfg == CFG && k.sndQueue == [] && k.sndBuf != []
    requires Itimediff(k.clock.current, k.sndBuf[0].resendts) >= 0
    ensures !Reaches(k, s.b) && SendsBeyond(k, s.b)
  {
    WindowFacts(s.a.k, s.a.hist);
    assert k.sndBuf[0] in k.sndBuf && !DueOf(k, k.sndBuf[0]).Quiet?;
    SendsBeyondIff(s.a, s.b, k);
  }

  /** Such a flush happens when the clock reaches the deadline: at once, or at the next call. */
  lemma {:induction false} FlushesThen(s: Sys) returns (es: seq<Event>, e: Event)
    requires Inv(s) && s.a.k.sndUna == 256 && s.a.k.sndQueue == [] && s.a.k.sndBuf != []
    requires s.b.k.rcvNxt == 128 && s.b.k.cfg == CFG
    requires Itimediff(s.a.k.sndBuf[0].resendts, s.a.k.clock.current) >= 0
    ensures Cont(s, es) && e.atA
    ensures var s' := Run(Ideal, s, es);
            Flushes(s'.a.k, e.act) && !OverrunsAt(s', e) && SendsBeyond(FlushFrom(s'.a.k, e.act), s'.b)
  {
    var now := s.a.k.sndBuf[0].resendts;
    var k := s.a.k.(clock := Tick(s.a.k.clock, s.a.k.cfg.interval, now).0);
    assert k.clock.current == now && k.clock.updated;
    I32Small(0);
    ResentBeyond(s, k);
    e := Event(true, Drive(now));
    es := [];
    assert Run(Ideal, s, []) == s;
    if !Flushes(s.a.k, Drive(now)) {
      One(s, e);
      es := [e];
      DriveOnly(s.a, s.b.net, now, k);
      e := Event(true, FlushNow);
    }
  }

  lemma {:induction false} DriveOnly(x: Endpoint, peer: seq<Datagram>, now: u32, k: Kcb)
    requires !Flushes(x.k, Drive(now)) && k == x.k.(clock := Tick(x.k.clock, x.k.cfg.interval, now).0)
    ensures ActOn(Ideal, x, peer, Drive(now)) == x.(k := k)
  {
    assert x.hist + x.k.sndQueue[..0] == x.hist && x.net + [] == x.net;
  }

  /** A timely run and an event at A that flushes without meeting the guard, and sends beyond B's
      window all the same: retransmissions are only ruled out by the run before. */
  lemma {:induction false} RetransmissionBeyond() returns (es: seq<Event>, e: Event)
    ensures Serial.Timely(CFG, CFG, es) && ClockRun(Ideal, Init(CFG, CFG), es) && e.atA
    ensures var s := Run(Ideal, Init(CFG, CFG), es);
            Flushes(s.a.k, e.act) && !OverrunsAt(s, e) && SendsBeyond(FlushFrom(s.a.k, e.act), s.b)
  {
    var s0 := Init(CFG, CFG);
    var e1, i := Misled();
    Backoff.RunsInRange(Ideal, CFG, CFG, e1);
    var s1 := Run(Ideal, s0, e1);
    var e2 := SentBeyond(s1, i);
    var e3;
    e3, e := FlushesThen(Run(Ideal, s1, e2));
    ContThen(s1, e2, e3);
    FairThen(s0, e1, e2 + e3);
    es := e1 + (e2 + e3);
  }
}
