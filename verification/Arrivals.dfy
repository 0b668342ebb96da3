/** What one arriving segment does: which outstanding segments it acknowledges, where its data goes, and
    what the round-trip estimator has seen over a whole run. */
module Arrivals {
  import opened Words
  import opened Engine
  import opened Scans
  import opened Network
  import Rto
  import Backoff
  import Transport
  import Seqs

  // ---- Acknowledged segments ----------------------------------------------------------------

  /** Segment g is still outstanding after packet p. */
  predicate StaysOut(p: Pkt, g: Seg) { p.una <= g.pkt.sn && !(p.cmd == CMD_ACK && p.sn == g.pkt.sn) }

  /** snd_buf lies in [snd_una, snd_nxt), in order. */
  ghost predicate InOrder(k: Kcb) {
    SortedSegs(k.sndBuf) && forall g :: g in k.sndBuf ==> g.pkt.sn < k.sndNxt
  }

  lemma {:induction false} UnaRemoves(buf: seq<Seg>, una: int)
    requires SortedSegs(buf)
    ensures var r := ParseUna(Ideal, buf, una);
            SortedSegs(r) && forall g :: g in r <==> g in buf && una <= g.pkt.sn
  {
    var n := ParseUnaSuffix(buf, una);
    forall g | g in buf && una <= g.pkt.sn ensures g in buf[n..] {
      var i :| 0 <= i < |buf| && buf[i] == g;
      assert buf[n..][i - n] == g;
    }
  }

  lemma {:induction false} AckRemoves(buf: seq<Seg>, sn: int)
    requires SortedSegs(buf)
    ensures var r := AckScan(Ideal, buf, sn);
            SortedSegs(r) && forall g :: g in r <==> g in buf && sn != g.pkt.sn
  {
    var m := AckScanOne(buf, sn);
    if m < |buf| {
      Transport.SkipOne(buf, m);
      var r := buf[..m] + buf[m + 1..];
      assert forall i :: 0 <= i < |r| ==> r[i] == if i < m then buf[i] else buf[i + 1];
    }
  }

  /** A segment that arrives leaves exactly the outstanding segments that it does not acknowledge, moves
      snd_una to the first of them, and sets the peer's window; only an acknowledgement that answers a
      sending in the past is a round-trip sample. */
  lemma {:induction false} PktDoes(k: Kcb, p: Pkt)
    requires InOrder(k)
    ensures var r := InputPkt(Ideal, k, p); var rtt := Itimediff(k.clock.current, p.ts);
            && InOrder(r) && (forall g :: g in r.sndBuf <==> g in k.sndBuf && StaysOut(p, g))
            && r.sndUna == (if r.sndBuf == [] then k.sndNxt else r.sndBuf[0].pkt.sn) && r.sndNxt == k.sndNxt
            && r.rmtWnd == p.wnd && r.probe == k.probe.(tell := k.probe.tell || p.cmd == CMD_WASK)
            && r.rtt == if p.cmd == CMD_ACK && rtt >= 0 then UpdateAck(k.cfg, k.rtt, rtt) else k.rtt
  {
    var h := InputHead(Ideal, k, p);
    UnaRemoves(k.sndBuf, p.una);
    InputPushFrame(Ideal, h, p);
    if p.cmd == CMD_ACK {
      AckRemoves(h.sndBuf, p.sn);
      if !AckInWindow(Ideal, h, p.sn) { AckInRange(h, p.sn); }
    }
  }

  /** An acknowledgement outside the window names no outstanding segment. */
  lemma {:induction false} AckInRange(k: Kcb, sn: int)
    requires InOrder(k) && k.sndUna == (if k.sndBuf == [] then k.sndNxt else k.sndBuf[0].pkt.sn)
    requires !AckInWindow(Ideal, k, sn)
    ensures forall g :: g in k.sndBuf ==> g.pkt.sn != sn
  {
    forall g | g in k.sndBuf ensures k.sndUna <= g.pkt.sn {
      var i :| 0 <= i < |k.sndBuf| && k.sndBuf[i] == g;
    }
  }

  // ---- Arriving data ------------------------------------------------------------------------

  /** Data inside the receive window is acknowledged, kept in order unless its number is already there, and
      everything then in sequence moves to rcv_queue while there is room.  Older data is acknowledged and
      dropped, data beyond the window is dropped. */
  lemma {:induction false} PushDoes(k: Kcb, p: Pkt) returns (buf: seq<Pkt>, m: nat)
    requires SortedPkts(k.rcvBuf) && p.cmd == CMD_PUSH
    ensures var r := InputPkt(Ideal, k, p); var top := k.rcvNxt + k.cfg.rcvWnd;
            && r.acks == k.acks + (if p.sn < top then [Ack(p.sn, p.ts)] else [])
            && (!(k.rcvNxt <= p.sn < top) ==> buf == k.rcvBuf && m == 0)
            && (k.rcvNxt <= p.sn < top ==> m <= |buf| && Kept(k.rcvBuf, p, buf) && Moved(k, buf, m))
            && r.rcvBuf == buf[m..] && r.rcvQueue == k.rcvQueue + buf[..m] && r.rcvNxt == k.rcvNxt + m
  {
    var h := InputHead(Ideal, k, p);
    buf, m := k.rcvBuf, 0;
    assert k.acks + [] == k.acks && k.rcvQueue + buf[..0] == k.rcvQueue;
    if k.rcvNxt <= p.sn < k.rcvNxt + k.cfg.rcvWnd {
      buf := Insert(Ideal, k.rcvBuf, p);
      InsertSorted(k.rcvBuf, p);
      var h1 := h.(acks := h.acks + [Ack(p.sn, p.ts)], rcvBuf := buf);
      m := MoveReadyRun(h1);
    }
  }

  /** buf has the segments of `was`, in order, and p unless its number is there. */
  ghost predicate Kept(was: seq<Pkt>, p: Pkt, buf: seq<Pkt>) {
    && SortedPkts(buf) && (exists q :: q in buf && q.sn == p.sn) && (forall q :: q in was ==> q in buf)
    && forall q :: q in buf ==> q in was || (q == p && forall r :: r in was ==> r.sn != p.sn)
  }

  /** The first m segments of buf are the longest run in sequence that fits the queue. */
  ghost predicate Moved(k: Kcb, buf: seq<Pkt>, m: nat)
    requires m <= |buf|
  {
    && (forall i :: 0 <= i < m ==> buf[i].sn == k.rcvNxt + i)
    && (m > 0 ==> |k.rcvQueue| + m <= k.cfg.rcvWnd)
    && (m < |buf| && buf[m].sn == k.rcvNxt + m ==> |k.rcvQueue| + m >= k.cfg.rcvWnd)
  }

  // ---- Round-trip samples -------------------------------------------------------------------

  /** The samples in one datagram: how long ago the sendings were that its acknowledgements answer. */
  function SamplesIn(now: u32, d: Datagram): seq<int> {
    if d == [] then []
    else
      var rtt := Itimediff(now, d[0].ts);
      (if d[0].cmd == CMD_ACK && rtt >= 0 then [rtt] else []) + SamplesIn(now, d[1..])
  }

  /** All samples that A's engine has seen in a run. */
  function SamplesOf(ar: Arith, s: Sys, es: seq<Event>): seq<int> {
    if es == [] then []
    else
      var n := |es| - 1;
      var s1 := Run(ar, s, es[..n]);
      SamplesOf(ar, s, es[..n])
      + if es[n].atA && es[n].act.Deliver? && es[n].act.i < |s1.b.net|
        then SamplesIn(s1.a.k.clock.current, s1.b.net[es[n].act.i]) else []
  }

  lemma {:induction false} EstimateSnoc(cfg: Config, samples: seq<int>, rtt: int)
    ensures Rto.Estimate(cfg, samples + [rtt]) == UpdateAck(cfg, Rto.Estimate(cfg, samples), rtt)
  {
    assert (samples + [rtt])[..|samples|] == samples;
  }

  lemma {:induction false} PktSample(ar: Arith, k: Kcb, p: Pkt)
    ensures var rtt := Itimediff(k.clock.current, p.ts); var r := InputPkt(ar, k, p);
            && r.rtt == (if p.cmd == CMD_ACK && rtt >= 0 then UpdateAck(k.cfg, k.rtt, rtt) else k.rtt)
            && r.cfg == k.cfg && r.clock == k.clock
  {
    InputPushFrame(ar, InputHead(ar, k, p), p);
  }

  lemma {:induction false} AllSamples(ar: Arith, k: Kcb, d: Datagram, before: seq<int>)
    requires k.rtt == Rto.Estimate(k.cfg, before)
    ensures InputAll(ar, k, d).rtt == Rto.Estimate(k.cfg, before + SamplesIn(k.clock.current, d))
    decreases |d|
  {
    if d == [] {
      assert before + [] == before;
    } else {
      var rtt := Itimediff(k.clock.current, d[0].ts);
      var first := if d[0].cmd == CMD_ACK && rtt >= 0 then [rtt] else [];
      PktSample(ar, k, d[0]);
      if first != [] { EstimateSnoc(k.cfg, before, rtt); } else { assert before + first == before; }
      AllSamples(ar, InputPkt(ar, k, d[0]), d[1..], before + first);
      Seqs.Assoc(before, first, SamplesIn(k.clock.current, d[1..]));
    }
  }

  lemma {:induction false} InputSamples(ar: Arith, k: Kcb, d: Datagram, before: seq<int>)
    requires k.rtt == Rto.Estimate(k.cfg, before)
    ensures Input(ar, k, d).rtt == Rto.Estimate(k.cfg, before + SamplesIn(k.clock.current, d))
  {
    AllSamples(ar, k, d, before);
  }

  /** Only arriving datagrams change the estimate. */
  lemma {:induction false} OthersKeepRtt(ar: Arith, x: Endpoint, peer: seq<Datagram>, act: Act)
    requires !act.Deliver?
    ensures ActOn(ar, x, peer, act).k.rtt == x.k.rtt
  {
    match act {
      case Write(data) =>
      case Read(len) => Backoff.RecvSameRtt(ar, x.k, len);
      case Drive(now) => Backoff.FlushSameRtt(ar, x.k.(clock := Tick(x.k.clock, x.k.cfg.interval, now).0));
      case FlushNow => Backoff.FlushSameRtt(ar, x.k);
    }
  }

  lemma {:induction false} EstimatorRuns(ar: Arith, cfgA: Config, cfgB: Config, es: seq<Event>)
    ensures Run(ar, Init(cfgA, cfgB), es).a.k.rtt == Rto.Estimate(cfgA, SamplesOf(ar, Init(cfgA, cfgB), es))
  {
    if es != [] {
      var n := |es| - 1;
      var s := Run(ar, Init(cfgA, cfgB), es[..n]);
      var before := SamplesOf(ar, Init(cfgA, cfgB), es[..n]);
      EstimatorRuns(ar, cfgA, cfgB, es[..n]);
      Backoff.RunBackedOff(ar, cfgA, cfgB, es[..n]);
      assert before + [] == before;
      if es[n].atA && es[n].act.Deliver? {
        if es[n].act.i < |s.b.net| { InputSamples(ar, s.a.k, s.b.net[es[n].act.i], before); }
      } else if es[n].atA {
        OthersKeepRtt(ar, s.a, s.b.net, es[n].act);
      }
    }
  }

  lemma {:induction false} SamplesPositive(now: u32, d: Datagram)
    ensures forall x :: x in SamplesIn(now, d) ==> x >= 0
  {
    if d != [] { SamplesPositive(now, d[1..]); }
  }

  lemma {:induction false} AllPositive(ar: Arith, s: Sys, es: seq<Event>)
    ensures forall x :: x in SamplesOf(ar, s, es) ==> x >= 0
  {
    if es != [] {
      var n := |es| - 1;
      var s1 := Run(ar, s, es[..n]);
      AllPositive(ar, s, es[..n]);
      if es[n].atA && es[n].act.Deliver? && es[n].act.i < |s1.b.net| {
        SamplesPositive(s1.a.k.clock.current, s1.b.net[es[n].act.i]);
      }
    }
  }

  /** In every run the estimate is the exact estimator's on exactly the samples that have arrived, as long
      as these are below 2^28 ms. */
  lemma {:induction false} ExactInRuns(ar: Arith, cfgA: Config, cfgB: Config, es: seq<Event>)
    ensures var samples := SamplesOf(ar, Init(cfgA, cfgB), es);
            (forall x :: x in samples ==> x < 0x1000_0000) ==>
              Run(ar, Init(cfgA, cfgB), es).a.k.rtt == Rto.PlainEstimate(cfgA, samples)
  {
    EstimatorRuns(ar, cfgA, cfgB, es);
    var samples := SamplesOf(ar, Init(cfgA, cfgB), es);
    AllPositive(ar, Init(cfgA, cfgB), es);
    if forall x :: x in samples ==> x < 0x1000_0000 {
      Rto.EstimateOk(cfgA, samples, 0xfff_ffff);
    }
  }
}
