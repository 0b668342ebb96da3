/** Continuations of a run in which nothing new is written, no old datagram is delivered and no clock
    is turned back, and the moves they are made of. */
module Continuation {
  import opened Words
  import opened Engine
  import opened Scans
  import opened Network
  import opened Transport
  import opened Steps
  import opened Messages
  import opened Timers

  const MAX_AGE: int := 0x7fff_ffff - 0x4_0000

  /** The packet is not older than half the sequence space, seen from the engine that gets it. */
  ghost predicate Young(k: Kcb, p: Pkt) {
    && p.una >= k.sndNxt - MAX_AGE
    && (p.cmd == CMD_ACK ==> p.sn >= k.sndNxt - MAX_AGE)
    && (p.cmd == CMD_PUSH ==> p.sn >= k.rcvNxt - MAX_AGE)
  }

  function Near(s: Sys, atA: bool): Endpoint { if atA then s.a else s.b }

  function Far(s: Sys, atA: bool): Endpoint { if atA then s.b else s.a }

  function Put(s: Sys, atA: bool, x: Endpoint): Sys { if atA then s.(a := x) else s.(b := x) }

  ghost predicate YoungEvent(s: Sys, e: Event) {
    e.act.Deliver? && e.act.i < |Far(s, e.atA).net| ==>
      forall p :: p in Far(s, e.atA).net[e.act.i] ==> Young(Near(s, e.atA).k, p)
  }

  /** No datagram delivered in the run is too old. */
  ghost predicate YoungRun(s: Sys, es: seq<Event>) {
    es == [] ||
    (YoungRun(s, es[..|es| - 1]) && YoungEvent(Run(Ideal, s, es[..|es| - 1]), es[|es| - 1]))
  }

  /** An update is given a time not before the last one. */
  ghost predicate Onward(k: Kcb, act: Act) {
    act.Drive? ==> Itimediff(act.now, k.clock.current) >= 0
  }

  /** Both clocks only advance in the run. */
  ghost predicate ClockRun(ar: Arith, s: Sys, es: seq<Event>) {
    es == [] ||
    (ClockRun(ar, s, es[..|es| - 1])
     && Onward(Near(Run(ar, s, es[..|es| - 1]), es[|es| - 1].atA).k, es[|es| - 1].act))
  }

  ghost predicate NoWrites(es: seq<Event>) {
    forall e :: e in es ==> !e.act.Write?
  }

  /** Nothing old is delivered, and both clocks only advance. */
  ghost predicate Fair(s: Sys, es: seq<Event>) { YoungRun(s, es) && ClockRun(Ideal, s, es) }

  /** The engines are driven by updates alone, never by a call of flush. */
  ghost predicate UpdatesOnly(es: seq<Event>) {
    forall e :: e in es ==> !e.act.FlushNow?
  }

  /** An admissible continuation: moreover nothing new is written, and flushing is left to updates. */
  ghost predicate Cont(s: Sys, es: seq<Event>) { NoWrites(es) && UpdatesOnly(es) && Fair(s, es) }

  lemma {:induction false} YoungConcat(s: Sys, es: seq<Event>, fs: seq<Event>)
    requires YoungRun(s, es) && YoungRun(Run(Ideal, s, es), fs)
    ensures YoungRun(s, es + fs)
  {
    if fs == [] {
      assert es + fs == es;
    } else {
      var n := |fs| - 1;
      YoungConcat(s, es, fs[..n]);
      assert (es + fs)[..|es + fs| - 1] == es + fs[..n];
      RunConcat(Ideal, s, es, fs[..n]);
    }
  }

  lemma {:induction false} YoungRest(s: Sys, es: seq<Event>, fs: seq<Event>)
    requires YoungRun(s, es + fs)
    ensures YoungRun(Run(Ideal, s, es), fs)
  {
    if fs != [] {
      var n := |fs| - 1;
      assert (es + fs)[..|es + fs| - 1] == es + fs[..n];
      YoungRest(s, es, fs[..n]);
      RunConcat(Ideal, s, es, fs[..n]);
    }
  }

  lemma {:induction false} ClockConcat(ar: Arith, s: Sys, es: seq<Event>, fs: seq<Event>)
    requires ClockRun(ar, s, es) && ClockRun(ar, Run(ar, s, es), fs)
    ensures ClockRun(ar, s, es + fs)
  {
    if fs == [] {
      assert es + fs == es;
    } else {
      var n := |fs| - 1;
      ClockConcat(ar, s, es, fs[..n]);
      assert (es + fs)[..|es + fs| - 1] == es + fs[..n];
      RunConcat(ar, s, es, fs[..n]);
    }
  }

  lemma {:induction false} FairThen(s: Sys, es: seq<Event>, fs: seq<Event>)
    requires Fair(s, es) && Fair(Run(Ideal, s, es), fs)
    ensures Fair(s, es + fs) && Run(Ideal, s, es + fs) == Run(Ideal, Run(Ideal, s, es), fs)
  {
    YoungConcat(s, es, fs);
    ClockConcat(Ideal, s, es, fs);
    RunConcat(Ideal, s, es, fs);
  }

  lemma {:induction false} ContThen(s: Sys, es: seq<Event>, fs: seq<Event>)
    requires Cont(s, es) && Cont(Run(Ideal, s, es), fs)
    ensures Cont(s, es + fs) && Run(Ideal, s, es + fs) == Run(Ideal, Run(Ideal, s, es), fs)
  {
    FairThen(s, es, fs);
  }

  lemma {:induction false} One(s: Sys, e: Event)
    requires !e.act.Write? && !e.act.FlushNow? && YoungEvent(s, e) && Onward(Near(s, e.atA).k, e.act)
    ensures Cont(s, [e]) && Run(Ideal, s, [e]) == Put(s, e.atA, ActOn(Ideal, Near(s, e.atA), Far(s, e.atA).net, e.act))
  {
    assert [e][..0] == [];
    assert Run(Ideal, s, []) == s;
    assert YoungRun(s, []) && ClockRun(Ideal, s, []);
  }

  /** What a continuation keeps. */
  ghost predicate Kept(s: Sys, s': Sys) {
    && Ordered(s')
    && s'.a.k.cfg == s.a.k.cfg && s'.b.k.cfg == s.b.k.cfg
    && s'.a.sent == s.a.sent && s'.b.sent == s.b.sent
    && |s'.a.hist| + |s'.a.k.sndQueue| == |s.a.hist| + |s.a.k.sndQueue|
    && s'.a.k.sndUna >= s.a.k.sndUna
  }

  lemma {:induction false} QuietKept(x: Endpoint, peer: seq<Datagram>, act: Act)
    requires !act.Write?
    ensures var x' := ActOn(Ideal, x, peer, act);
            x'.k.cfg == x.k.cfg && x'.sent == x.sent && |x'.hist| + |x'.k.sndQueue| == |x.hist| + |x.k.sndQueue|
  {
    if act.Read? {
      ReadFrame(x, act.len);
    } else {
      QuietAct(x, peer, act);
      var x' := ActOn(Ideal, x, peer, act);
      assert |x'.hist + x'.k.sndQueue| == |x.hist + x.k.sndQueue|;
    }
  }

  lemma {:induction false} QuietStep(s: Sys, e: Event)
    requires Ordered(s) && !e.act.Write?
    ensures Kept(s, Step(Ideal, s, e))
  {
    StepOrdered(s, e);
    ActOk(Near(s, e.atA), Far(s, e.atA), e.act);
    QuietKept(Near(s, e.atA), Far(s, e.atA).net, e.act);
  }

  lemma {:induction false} QuietRun(s: Sys, es: seq<Event>)
    requires Ordered(s) && NoWrites(es)
    ensures Kept(s, Run(Ideal, s, es))
  {
    if es != [] {
      QuietRun(s, es[..|es| - 1]);
      QuietStep(Run(Ideal, s, es[..|es| - 1]), es[|es| - 1]);
    }
  }

  // ---- Reading everything that is complete ----------------------------------------------

  lemma {:induction false} MsgCountPositive(q: seq<Pkt>)
    requires q != []
    ensures MsgCount(q) >= 1
  {
  }

  lemma {:induction false} ReadShrinks(x: Endpoint, len: nat)
    requires 0 <= PeekSize(x.k) <= len
    ensures var x' := ActOn(Ideal, x, [], Read(len));
            && |x'.k.rcvQueue| + |x'.k.rcvBuf| < |x.k.rcvQueue| + |x.k.rcvBuf|
            && x'.net == x.net && x'.k.acks == x.k.acks && (x.k.probe.tell ==> x'.k.probe.tell)
            && x'.k.sndNxt == x.k.sndNxt && x'.hist == x.hist
  {
    PeekIsRecv(x.k, len);
    RecvShape(x.k, len);
    MsgCountPositive(x.k.rcvQueue);
    var k1 := x.k.(rcvQueue := x.k.rcvQueue[MsgCount(x.k.rcvQueue)..]);
    var n := MoveReadyRun(k1);
  }

  /** Reading until no complete message is left; then the receive queue is not full. */
  lemma {:induction false} Drain(s: Sys) returns (es: seq<Event>)
    requires Ordered(s)
    ensures Cont(s, es)
    ensures var s' := Run(Ideal, s, es);
            && s'.a == s.a && PeekSize(s'.b.k) < 0 && |s'.b.k.rcvQueue| < WND_RCV - 1
            && s'.b.net == s.b.net && s'.b.k.acks == s.b.k.acks && s'.b.hist == s.b.hist
            && (s.b.k.probe.tell ==> s'.b.k.probe.tell)
            && s'.b.k.sndNxt == s.b.k.sndNxt
    decreases |s.b.k.rcvQueue| + |s.b.k.rcvBuf|
  {
    if PeekSize(s.b.k) < 0 {
      es := [];
      if |s.b.k.rcvQueue| >= WND_RCV - 1 { FullHead(s.a, s.b); }
    } else {
      var e := Event(false, Read(PeekSize(s.b.k)));
      One(s, e);
      ReadShrinks(s.b, PeekSize(s.b.k));
      QuietStep(s, e);
      var s1 := Step(Ideal, s, e);
      var fs := Drain(s1);
      ContThen(s, [e], fs);
      es := [e] + fs;
    }
  }

  /** With room in the receive queue, everything acknowledged has been moved there. */
  lemma {:induction false} UnaBehind(x: Endpoint, y: Endpoint)
    requires Half(x, y) && |y.k.rcvQueue| < y.k.cfg.rcvWnd
    ensures x.k.sndUna <= y.k.rcvNxt
  {
    if y.k.rcvNxt < x.k.sndUna {
      assert !Unacked(x.k, y.k.rcvNxt);
      assert Held(y.k, y.k.rcvNxt);
      var p :| p in y.k.rcvBuf && p.sn == y.k.rcvNxt;
      HeadLeast(y.k.rcvBuf, p);
    }
  }

  lemma {:induction false} HeadLeast(buf: seq<Pkt>, p: Pkt)
    requires SortedPkts(buf) && p in buf
    ensures buf[0].sn <= p.sn
  {
  }

  /** The receiver is never further behind the sender than the two windows. */
  lemma {:induction false} Close(x: Endpoint, y: Endpoint)
    requires Half(x, y)
    ensures x.k.sndUna <= y.k.rcvNxt + y.k.cfg.rcvWnd
    ensures x.k.sndNxt - MAX_WND - y.k.cfg.rcvWnd <= y.k.rcvNxt <= x.k.sndNxt
  {
    var n := y.k.rcvNxt + y.k.cfg.rcvWnd;
    assert !Held(y.k, n);
    assert Unacked(x.k, n) ==> x.k.sndUna <= n;
  }

  // ---- Flushing at a chosen time --------------------------------------------------------

  /** Lets an endpoint flush, by an update at a time when that flushes. */
  lemma {:induction false} FlushAt(s: Sys, atA: bool, now: u32) returns (es: seq<Event>, k: Kcb)
    requires FlushesAt(Near(s, atA).k.clock, Near(s, atA).k.cfg.interval, now)
    ensures Cont(s, es)
    ensures k == Near(s, atA).k.(clock := k.clock) && k.clock.current == now && k.clock.updated
    ensures Armed(k.clock, k.cfg.interval)
    ensures Run(Ideal, s, es) == Put(s, atA, Emit(Near(s, atA), Engine.Flush(Ideal, k)))
  {
    var x := Near(s, atA);
    k := x.k.(clock := Tick(x.k.clock, x.k.cfg.interval, now).0);
    FlushArms(x.k.clock, x.k.cfg.interval, now);
    var e := Event(atA, Drive(now));
    One(s, e);
    es := [e];
  }

  // ---- What a flush emits ---------------------------------------------------------------

  ghost predicate AckedFrom(k: Kcb, lo: int) {
    forall a :: a in k.acks ==> a.sn >= lo
  }

  /** A packet just written by k: current una and window, data from the window, acknowledgements
      from `lo` on. */
  ghost predicate JustWritten(k: Kcb, lo: int, p: Pkt) {
    && p.una == k.rcvNxt && p.wnd == WndUnused(k)
    && (p.cmd == CMD_PUSH ==> p.sn >= k.sndUna)
    && (p.cmd == CMD_ACK ==> p.sn >= lo)
  }

  ghost predicate AllWritten(k: Kcb, lo: int, ds: seq<Datagram>) {
    forall d :: d in ds ==> d != [] && forall p :: p in d ==> JustWritten(k, lo, p)
  }

  lemma {:induction false} AckFrom(k: Kcb, hist: seq<Frag>, lo: int, p: Pkt)
    requires AckedFrom(k, lo) && p in Emitted(Ideal, k) && p.cmd == CMD_ACK
    requires DataSent(k, Filled(Ideal, k), hist)
    ensures p.sn >= lo
  {
    AckPktsOk(Header(k), k.acks);
    assert p in FlushData(Filled(Ideal, k), Filled(Ideal, k).sndBuf).pkts ==> SentNow(k, hist, p);
    if p in AckPkts(Header(k), k.acks) {
      var a :| a in k.acks && p == Header(k).(sn := a.sn, ts := a.ts);
    }
  }

  lemma {:induction false} FlushWrites(x: Endpoint, y: Endpoint, k: Kcb, lo: int)
    requires Half(x, y) && Half(y, x) && k == x.k.(clock := k.clock) && k.clock.updated && AckedFrom(k, lo)
    ensures AllWritten(k, lo, Engine.Flush(Ideal, k).out)
  {
    var n := FlushWritten(x, y, k);
    var hist := x.hist + k.sndQueue[..n];
    forall p | p in Emitted(Ideal, k) ensures JustWritten(k, lo, p) {
      assert WrittenNow(k, hist, p);
      if p.cmd == CMD_ACK { AckFrom(k, hist, lo, p); }
    }
    PackOk(k.cfg.mtu, [], Emitted(Ideal, k));
  }

  lemma {:induction false} PackHas(mtu: nat, cur: Datagram, pkts: seq<Pkt>, p: Pkt) returns (j: nat)
    requires p in cur || p in pkts
    ensures j < |Pack(mtu, cur, pkts)| && p in Pack(mtu, cur, pkts)[j]
    decreases |pkts|
  {
    if pkts == [] {
      j := 0;
    } else if Size(cur) + PktSize(pkts[0]) > mtu {
      if p in cur {
        j := 0;
      } else {
        var i := PackHas(mtu, [pkts[0]], pkts[1..], p);
        j := i + if cur == [] then 0 else 1;
      }
    } else {
      j := PackHas(mtu, cur + [pkts[0]], pkts[1..], p);
    }
  }

  /** The head of snd_buf is sent when it is due. */
  lemma {:induction false} HeadSent(k: Kcb) returns (p: Pkt)
    requires k.clock.updated && k.sndBuf != [] && !DueOf(k, k.sndBuf[0]).Quiet?
    ensures p in Emitted(Ideal, k) && p.sn == k.sndBuf[0].pkt.sn && p.cmd == k.sndBuf[0].pkt.cmd
  {
    var n := FillRun(Cleared(k), EffWnd(k));
    var f := Filled(Ideal, k);
    assert f.sndBuf[0] == k.sndBuf[0];
    FlushDataAt(f, f.sndBuf);
    assert !DueOf(f, f.sndBuf[0]).Quiet?;
    FlushSegSame(f, f.sndBuf[0]);
    p := FlushData(f, f.sndBuf).buf[0].pkt;
  }

  // ---- Delivering -----------------------------------------------------------------------

  lemma {:induction false} InputAcks(k: Kcb, p: Pkt)
    ensures var r := InputPkt(Ideal, k, p);
            r.acks == k.acks || (p.cmd == CMD_PUSH && r.acks == k.acks + [Ack(p.sn, p.ts)])
    ensures InputPkt(Ideal, k, p).rmtWnd == p.wnd
    ensures var r := InputPkt(Ideal, k, p); (k.probe.tell || p.cmd == CMD_WASK ==> r.probe.tell)
  {
    var k1 := InputHead(Ideal, k, p);
    InputAckFrame(Ideal, k1, p);
    InputPushFrame(Ideal, k1, p);
    PushAcks(k1, p);
  }

  lemma {:induction false} PushAcks(k: Kcb, p: Pkt)
    ensures var r := InputPush(Ideal, k, p); r.acks == k.acks || r.acks == k.acks + [Ack(p.sn, p.ts)]
  {
    var s1 := k.(acks := k.acks + [Ack(p.sn, p.ts)]);
    MoveReadyFrame(Ideal, s1.(rcvBuf := Insert(Ideal, s1.rcvBuf, p)));
  }

  lemma {:induction false} InputAllAcks(k: Kcb, d: Datagram, lo: int)
    requires AckedFrom(k, lo) && forall p :: p in d ==> p.cmd == CMD_PUSH ==> p.sn >= lo
    ensures var r := InputAll(Ideal, k, d);
            && AckedFrom(r, lo) && k.acks <= r.acks
            && (d != [] ==> r.rmtWnd == d[|d| - 1].wnd)
            && ((k.probe.tell || exists p :: p in d && p.cmd == CMD_WASK) ==> r.probe.tell)
    decreases |d|
  {
    if d != [] {
      InputAcks(k, d[0]);
      InputAllAcks(InputPkt(Ideal, k, d[0]), d[1..], lo);
    }
  }

  /** Delivering a datagram with the next needed segment moves rcv_nxt past it and leaves an
      acknowledgement to send. */
  lemma {:induction false} PushArrives(k: Kcb, hist: seq<Frag>, taken: seq<Frag>, peer: Kcb, peerHist: seq<Frag>,
                                       d: Datagram, p: Pkt)
    requires Good(k, hist, taken, peer, peerHist) && AllEmittable(peer, peerHist, d)
    requires p in d && p.cmd == CMD_PUSH
    requires p.sn < k.rcvNxt || (p.sn == k.rcvNxt && |k.rcvQueue| < k.cfg.rcvWnd)
    ensures var r := InputAll(Ideal, k, d); r.rcvNxt > p.sn && r.acks != []
    decreases |d|
  {
    var q := d[0];
    var k1 := InputPkt(Ideal, k, q);
    PktOk(k, hist, taken, peer, peerHist, q);
    InputPktCfg(Ideal, k, q);
    InputAllOk(k1, hist, taken, peer, peerHist, d[1..]);
    if p == q {
      PushPkt(k, hist, taken, peer, peerHist, p);
      InputAllGrows(k1, d[1..]);
    } else {
      PushArrives(k1, hist, taken, peer, peerHist, d[1..], p);
    }
  }

  lemma {:induction false} InputAllGrows(k: Kcb, d: Datagram)
    ensures k.acks <= InputAll(Ideal, k, d).acks
    decreases |d|
  {
    if d != [] {
      InputAcks(k, d[0]);
      InputAllGrows(InputPkt(Ideal, k, d[0]), d[1..]);
    }
  }

  lemma {:induction false} PushPkt(k: Kcb, hist: seq<Frag>, taken: seq<Frag>, peer: Kcb, peerHist: seq<Frag>, p: Pkt)
    requires Good(k, hist, taken, peer, peerHist) && Emittable(peer, peerHist, p) && p.cmd == CMD_PUSH
    requires p.sn < k.rcvNxt || (p.sn == k.rcvNxt && |k.rcvQueue| < k.cfg.rcvWnd)
    ensures var r := InputPkt(Ideal, k, p); r.rcvNxt > p.sn && r.acks != []
  {
    var k1 := InputHead(Ideal, k, p);
    assert AcksHeld(k1) && ReceiverOk(k1, taken, peerHist) by { assert HeldMore(k, k1); }
    PushOk(k1, taken, peerHist, p);
  }
}
