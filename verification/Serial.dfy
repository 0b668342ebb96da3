/** The engine on wrapping 32-bit sequence numbers simulates the engine on unbounded ones, step
    for step and for runs of any length, as long as no datagram is delivered when it is older
    than (almost) half the sequence space.  The delivery theorems therefore hold of the 32-bit
    engine. */
module Serial {
  import opened Words
  import opened Seqs
  import opened Engine
  import opened Scans
  import opened Network
  import opened Transport
  import opened Messages
  import opened Continuation
  import Progress

  function WrapPkt(p: Pkt): Pkt { p.(sn := U32(p.sn), una := U32(p.una)) }

  function WrapSeg(g: Seg): Seg { g.(pkt := WrapPkt(g.pkt)) }

  function WrapAck(a: Ack): Ack { a.(sn := U32(a.sn)) }

  function WrapDatagram(d: Datagram): Datagram { Map(WrapPkt, d) }

  function WrapKcb(k: Kcb): Kcb {
    k.(sndUna := U32(k.sndUna), sndNxt := U32(k.sndNxt), rcvNxt := U32(k.rcvNxt),
       sndBuf := Map(WrapSeg, k.sndBuf), rcvBuf := Map(WrapPkt, k.rcvBuf), rcvQueue := Map(WrapPkt, k.rcvQueue),
       acks := Map(WrapAck, k.acks))
  }

  function WrapEnd(x: Endpoint): Endpoint { x.(k := WrapKcb(x.k), net := Map(WrapDatagram, x.net)) }

  function WrapSys(s: Sys): Sys { Sys(WrapEnd(s.a), WrapEnd(s.b)) }

  // ---- Arithmetic -----------------------------------------------------------------------

  lemma {:induction false} DiffExact(a: int, b: int)
    requires -H32 <= a - b < H32
    ensures Wrap32.Diff(U32(a), U32(b)) == a - b
  {
    ItimediffExact(a, b);
  }

  lemma {:induction false} U32Sub(a: int, b: int)
    ensures U32(U32(a) - U32(b)) == U32(a - b)
  {
  }

  lemma {:induction false} U32Eq(a: int, b: int)
    requires -M32 < a - b < M32
    ensures U32(a) == U32(b) <==> a == b
  {
  }

  // ---- Acknowledgements -----------------------------------------------------------------

  /** All segments of the buffer are within half the sequence space of n. */
  ghost predicate Around(buf: seq<Seg>, n: int) {
    forall g :: g in buf ==> -H32 <= n - g.pkt.sn < H32
  }

  lemma {:induction false} ParseUnaWrap(buf: seq<Seg>, una: int)
    requires Around(buf, una)
    ensures ParseUna(Wrap32, Map(WrapSeg, buf), U32(una)) == Map(WrapSeg, ParseUna(Ideal, buf, una))
  {
    if buf != [] {
      assert buf[0] in buf;
      DiffExact(una, buf[0].pkt.sn);
      ParseUnaWrap(buf[1..], una);
      assert Map(WrapSeg, buf)[1..] == Map(WrapSeg, buf[1..]);
    }
  }

  lemma {:induction false} AckScanWrap(buf: seq<Seg>, sn: int)
    requires Around(buf, sn)
    ensures AckScan(Wrap32, Map(WrapSeg, buf), U32(sn)) == Map(WrapSeg, AckScan(Ideal, buf, sn))
  {
    if buf != [] {
      assert buf[0] in buf;
      DiffExact(sn, buf[0].pkt.sn);
      U32Eq(sn, buf[0].pkt.sn);
      AckScanWrap(buf[1..], sn);
      assert Map(WrapSeg, buf)[1..] == Map(WrapSeg, buf[1..]);
      MapAppend(WrapSeg, [buf[0]], AckScan(Ideal, buf[1..], sn));
    }
  }

  lemma {:induction false} FastackScanWrap(buf: seq<Seg>, sn: int, ts: u32)
    requires Around(buf, sn)
    ensures FastackScan(Wrap32, Map(WrapSeg, buf), U32(sn), ts) == Map(WrapSeg, FastackScan(Ideal, buf, sn, ts))
  {
    if buf != [] {
      assert buf[0] in buf;
      DiffExact(sn, buf[0].pkt.sn);
      U32Eq(sn, buf[0].pkt.sn);
      FastackScanWrap(buf[1..], sn, ts);
      assert Map(WrapSeg, buf)[1..] == Map(WrapSeg, buf[1..]);
      MapAppend(WrapSeg, [CountFastack(buf[0], sn, ts)], FastackScan(Ideal, buf[1..], sn, ts));
    }
  }

  // ---- Data -----------------------------------------------------------------------------

  lemma {:induction false} InsertWrap(buf: seq<Pkt>, p: Pkt)
    requires forall q :: q in buf ==> -H32 <= p.sn - q.sn < H32
    ensures Insert(Wrap32, Map(WrapPkt, buf), WrapPkt(p)) == Map(WrapPkt, Insert(Ideal, buf, p))
  {
    if buf == [] {
      assert Map(WrapPkt, [p]) == [WrapPkt(p)];
    } else {
      var n := |buf| - 1;
      assert buf[n] in buf;
      DiffExact(p.sn, buf[n].sn);
      U32Eq(p.sn, buf[n].sn);
      InsertWrap(buf[..n], p);
      MapTake(WrapPkt, buf, n);
      MapAppend(WrapPkt, Insert(Ideal, buf[..n], p), [buf[n]]);
      MapAppend(WrapPkt, buf, [p]);
    }
  }

  lemma {:induction false} MoveOneWrap(k: Kcb)
    requires k.rcvBuf != []
    ensures MoveOne(Wrap32, WrapKcb(k)) == WrapKcb(MoveOne(Ideal, k))
  {
    MapTake(WrapPkt, k.rcvBuf, 1);
    MapAppend(WrapPkt, k.rcvQueue, [k.rcvBuf[0]]);
    U32Add(k.rcvNxt, 1);
  }

  ghost predicate Ahead(buf: seq<Pkt>, n: int) {
    forall p :: p in buf ==> 0 <= p.sn - n < H32
  }

  lemma {:induction false} StillAhead(buf: seq<Pkt>, n: int)
    requires SortedPkts(buf) && Ahead(buf, n) && buf != [] && buf[0].sn == n
    ensures SortedPkts(buf[1..]) && Ahead(buf[1..], n + 1)
  {
    forall p | p in buf[1..] ensures 0 <= p.sn - (n + 1) < H32 {
      var i :| 0 < i < |buf| && buf[i] == p;
      assert p in buf;
    }
  }

  lemma {:induction false} MoveReadyWrap(k: Kcb)
    requires SortedPkts(k.rcvBuf) && Ahead(k.rcvBuf, k.rcvNxt)
    ensures MoveReady(Wrap32, WrapKcb(k)) == WrapKcb(MoveReady(Ideal, k))
    decreases |k.rcvBuf|
  {
    if k.rcvBuf != [] {
      assert k.rcvBuf[0] in k.rcvBuf;
      U32Eq(k.rcvBuf[0].sn, k.rcvNxt);
      if k.rcvBuf[0].sn == k.rcvNxt && |k.rcvQueue| < k.cfg.rcvWnd {
        var k1 := MoveOne(Ideal, k);
        StillAhead(k.rcvBuf, k.rcvNxt);
        MoveReadyWrap(k1);
        MoveOneWrap(k);
        assert MoveReady(Ideal, k) == MoveReady(Ideal, k1);
        assert MoveReady(Wrap32, WrapKcb(k)) == MoveReady(Wrap32, MoveOne(Wrap32, WrapKcb(k)));
      }
    }
  }

  // ---- One packet -----------------------------------------------------------------------

  /** Distances that a packet of a young datagram can have, seen from an engine whose next number
      to send is `nxt` and whose reader has consumed `taken` segments. */
  ghost predicate InRange(nxt: int, taken: int, p: Pkt) {
    && nxt - MAX_AGE <= p.una <= nxt
    && (p.cmd == CMD_ACK ==> nxt - MAX_AGE <= p.sn <= nxt)
    && (p.cmd == CMD_PUSH ==> taken - MAX_AGE <= p.sn <= taken + 0x3000_0000)
  }

  lemma {:induction false} BufAround(k: Kcb, hist: seq<Frag>, n: int)
    requires SenderOk(k, hist)
    requires k.sndNxt - MAX_AGE <= n <= k.sndNxt
    ensures Around(k.sndBuf, n)
    ensures -H32 <= n - k.sndUna < H32 && -H32 <= n - k.sndNxt < H32
  {
  }

  lemma {:induction false} ShrinkWrap(k: Kcb)
    ensures ShrinkBuf(WrapKcb(k)) == WrapKcb(ShrinkBuf(k))
  {
  }

  lemma {:induction false} HeadWrap(k: Kcb, hist: seq<Frag>, p: Pkt)
    requires SenderOk(k, hist) && k.sndNxt - MAX_AGE <= p.una <= k.sndNxt
    ensures InputHead(Wrap32, WrapKcb(k), WrapPkt(p)) == WrapKcb(InputHead(Ideal, k, p))
  {
    BufAround(k, hist, p.una);
    ParseUnaWrap(k.sndBuf, p.una);
    ShrinkWrap(k.(rmtWnd := p.wnd, sndBuf := ParseUna(Ideal, k.sndBuf, p.una)));
  }

  lemma {:induction false} ParseAckWrap(k: Kcb, hist: seq<Frag>, sn: int)
    requires SenderOk(k, hist) && k.sndNxt - MAX_AGE <= sn <= k.sndNxt
    ensures ParseAck(Wrap32, WrapKcb(k), U32(sn)) == WrapKcb(ParseAck(Ideal, k, sn))
  {
    BufAround(k, hist, sn);
    DiffExact(sn, k.sndUna);
    DiffExact(sn, k.sndNxt);
    AckScanWrap(k.sndBuf, sn);
  }

  lemma {:induction false} ParseFastackWrap(k: Kcb, hist: seq<Frag>, sn: int, ts: u32)
    requires SenderOk(k, hist) && k.sndNxt - MAX_AGE <= sn <= k.sndNxt
    ensures ParseFastack(Wrap32, WrapKcb(k), U32(sn), ts) == WrapKcb(ParseFastack(Ideal, k, sn, ts))
  {
    BufAround(k, hist, sn);
    DiffExact(sn, k.sndUna);
    DiffExact(sn, k.sndNxt);
    FastackScanWrap(k.sndBuf, sn, ts);
  }

  /** The round-trip estimate changes alike on both sides. */
  function Sampled(k: Kcb, p: Pkt): Kcb {
    var rtt := Itimediff(k.clock.current, p.ts);
    if rtt >= 0 then k.(rtt := UpdateAck(k.cfg, k.rtt, rtt)) else k
  }

  lemma {:induction false} InputAckIs(ar: Arith, k: Kcb, p: Pkt)
    ensures InputAck(ar, k, p) == ShrinkBuf(ParseAck(ar, Sampled(k, p), p.sn))
  {
  }

  lemma {:induction false} SampledWrap(k: Kcb, hist: seq<Frag>, p: Pkt)
    requires SenderOk(k, hist)
    ensures Sampled(WrapKcb(k), WrapPkt(p)) == WrapKcb(Sampled(k, p))
    ensures SenderOk(Sampled(k, p), hist) && Sampled(k, p) == k.(rtt := Sampled(k, p).rtt)
  {
  }

  lemma {:induction false} AckWrap(k: Kcb, hist: seq<Frag>, p: Pkt)
    requires SenderOk(k, hist) && k.sndNxt - MAX_AGE <= p.sn <= k.sndNxt
    ensures InputAck(Wrap32, WrapKcb(k), WrapPkt(p)) == WrapKcb(InputAck(Ideal, k, p))
  {
    InputAckIs(Wrap32, WrapKcb(k), WrapPkt(p));
    InputAckIs(Ideal, k, p);
    SampledWrap(k, hist, p);
    ParseAckWrap(Sampled(k, p), hist, p.sn);
    ShrinkWrap(ParseAck(Ideal, Sampled(k, p), p.sn));
  }

  /** The two window tests on wrapped numbers. */
  lemma {:induction false} WindowTests(nxt: int, wnd: int, sn: int)
    requires -H32 <= sn - nxt < H32 && -H32 <= sn - (nxt + wnd) < H32
    ensures Wrap32.Diff(U32(sn), Wrap32.Norm(U32(nxt) + wnd)) == sn - (nxt + wnd)
    ensures Wrap32.Diff(U32(sn), U32(nxt)) == sn - nxt
  {
    U32Add(nxt, wnd);
    DiffExact(sn, nxt + wnd);
    DiffExact(sn, nxt);
  }

  lemma {:induction false} InsertedAhead(buf: seq<Pkt>, nxt: int, wnd: int, p: Pkt)
    requires SortedPkts(buf) && forall q :: q in buf ==> nxt <= q.sn < nxt + wnd
    requires nxt <= p.sn < nxt + wnd && wnd < H32
    ensures var r := Insert(Ideal, buf, p); SortedPkts(r) && Ahead(r, nxt)
    ensures Insert(Wrap32, Map(WrapPkt, buf), WrapPkt(p)) == Map(WrapPkt, Insert(Ideal, buf, p))
  {
    InsertWrap(buf, p);
    InsertSorted(buf, p);
  }

  lemma {:induction false} InsertDataWrap(k: Kcb, taken: seq<Frag>, peerHist: seq<Frag>, p: Pkt)
    requires ReceiverOk(k, taken, peerHist) && k.rcvNxt <= p.sn < k.rcvNxt + k.cfg.rcvWnd
    ensures MoveReady(Wrap32, WrapKcb(k).(rcvBuf := Insert(Wrap32, Map(WrapPkt, k.rcvBuf), WrapPkt(p)))) ==
            WrapKcb(MoveReady(Ideal, k.(rcvBuf := Insert(Ideal, k.rcvBuf, p))))
  {
    InsertedAhead(k.rcvBuf, k.rcvNxt, k.cfg.rcvWnd, p);
    MoveReadyWrap(k.(rcvBuf := Insert(Ideal, k.rcvBuf, p)));
  }

  ghost predicate Testable(k: Kcb, sn: int) {
    -H32 <= sn - k.rcvNxt < H32 && -H32 <= sn - (k.rcvNxt + k.cfg.rcvWnd) < H32
  }

  lemma {:induction false} ParseDataIs(ar: Arith, k: Kcb, p: Pkt, tooFar: int, ahead: int)
    requires tooFar == ar.Diff(p.sn, ar.Norm(k.rcvNxt + k.cfg.rcvWnd)) && ahead == ar.Diff(p.sn, k.rcvNxt)
    ensures ParseData(ar, k, p) ==
            if tooFar >= 0 || ahead < 0 then k else MoveReady(ar, k.(rcvBuf := Insert(ar, k.rcvBuf, p)))
  {
  }

  lemma {:induction false} DataWrap(k: Kcb, taken: seq<Frag>, peerHist: seq<Frag>, p: Pkt)
    requires ReceiverOk(k, taken, peerHist) && Testable(k, p.sn)
    ensures ParseData(Wrap32, WrapKcb(k), WrapPkt(p)) == WrapKcb(ParseData(Ideal, k, p))
  {
    var tooFar := p.sn - (k.rcvNxt + k.cfg.rcvWnd);
    var ahead := p.sn - k.rcvNxt;
    WindowTests(k.rcvNxt, k.cfg.rcvWnd, p.sn);
    ParseDataIs(Wrap32, WrapKcb(k), WrapPkt(p), tooFar, ahead);
    ParseDataIs(Ideal, k, p, tooFar, ahead);
    if tooFar < 0 && ahead >= 0 {
      InsertDataWrap(k, taken, peerHist, p);
    }
  }

  lemma {:induction false} InputPushIs(ar: Arith, k: Kcb, p: Pkt, tooFar: int, ahead: int, k1: Kcb)
    requires tooFar == ar.Diff(p.sn, ar.Norm(k.rcvNxt + k.cfg.rcvWnd)) && ahead == ar.Diff(p.sn, k.rcvNxt)
    requires k1 == k.(acks := k.acks + [Ack(p.sn, p.ts)])
    ensures InputPush(ar, k, p) == if tooFar >= 0 then k else if ahead < 0 then k1 else ParseData(ar, k1, p)
  {
  }

  lemma {:induction false} AckedWrap(k: Kcb, p: Pkt)
    ensures WrapKcb(k.(acks := k.acks + [Ack(p.sn, p.ts)])) ==
            WrapKcb(k).(acks := WrapKcb(k).acks + [Ack(U32(p.sn), p.ts)])
  {
    MapAppend(WrapAck, k.acks, [Ack(p.sn, p.ts)]);
    assert Map(WrapAck, [Ack(p.sn, p.ts)]) == [Ack(U32(p.sn), p.ts)];
  }

  lemma {:induction false} PushWrap(k: Kcb, taken: seq<Frag>, peerHist: seq<Frag>, p: Pkt)
    requires ReceiverOk(k, taken, peerHist) && Testable(k, p.sn)
    ensures InputPush(Wrap32, WrapKcb(k), WrapPkt(p)) == WrapKcb(InputPush(Ideal, k, p))
  {
    var tooFar := p.sn - (k.rcvNxt + k.cfg.rcvWnd);
    var ahead := p.sn - k.rcvNxt;
    var k1 := k.(acks := k.acks + [Ack(p.sn, p.ts)]);
    WindowTests(k.rcvNxt, k.cfg.rcvWnd, p.sn);
    AckedWrap(k, p);
    InputPushIs(Wrap32, WrapKcb(k), WrapPkt(p), tooFar, ahead, WrapKcb(k1));
    InputPushIs(Ideal, k, p, tooFar, ahead, k1);
    DataWrap(k1, taken, peerHist, p);
  }

  lemma {:induction false} PktWrap(k: Kcb, hist: seq<Frag>, taken: seq<Frag>, peer: Kcb, peerHist: seq<Frag>, p: Pkt)
    requires Good(k, hist, taken, peer, peerHist) && Emittable(peer, peerHist, p)
    requires InRange(k.sndNxt, |taken|, p)
    ensures InputPkt(Wrap32, WrapKcb(k), WrapPkt(p)) == WrapKcb(InputPkt(Ideal, k, p))
  {
    var k1 := InputHead(Ideal, k, p);
    HeadWrap(k, hist, p);
    HeadOk(k, hist, peer, p);
    assert ReceiverOk(k1, taken, peerHist);
    if p.cmd == CMD_ACK {
      AckWrap(k1, hist, p);
    } else if p.cmd == CMD_PUSH {
      PushWrap(k1, taken, peerHist, p);
    }
  }

  ghost predicate AllInRange(nxt: int, taken: int, d: Datagram) {
    forall p :: p in d ==> InRange(nxt, taken, p)
  }

  lemma {:induction false} InputAllWrap(k: Kcb, hist: seq<Frag>, taken: seq<Frag>, peer: Kcb, peerHist: seq<Frag>,
                                        d: Datagram)
    requires Good(k, hist, taken, peer, peerHist) && AllEmittable(peer, peerHist, d)
    requires AllInRange(k.sndNxt, |taken|, d)
    ensures InputAll(Wrap32, WrapKcb(k), WrapDatagram(d)) == WrapKcb(InputAll(Ideal, k, d))
    decreases |d|
  {
    if d != [] {
      PktWrap(k, hist, taken, peer, peerHist, d[0]);
      PktOk(k, hist, taken, peer, peerHist, d[0]);
      InputPktCfg(Ideal, k, d[0]);
      InputAllWrap(InputPkt(Ideal, k, d[0]), hist, taken, peer, peerHist, d[1..]);
      MapTake(WrapPkt, d, 1);
    }
  }

  function WrapScan(sc: Scan): Scan {
    if sc.MaxAck? then MaxAck(U32(sc.sn), sc.ts) else NoAck
  }

  lemma {:induction false} ScanAllWrap(sc: Scan, d: Datagram, nxt: int, taken: int)
    requires AllInRange(nxt, taken, d) && (sc.MaxAck? ==> nxt - MAX_AGE <= sc.sn <= nxt)
    ensures ScanAll(Wrap32, WrapScan(sc), WrapDatagram(d)) == WrapScan(ScanAll(Ideal, sc, d))
    ensures var r := ScanAll(Ideal, sc, d); r.MaxAck? ==> nxt - MAX_AGE <= r.sn <= nxt
    decreases |d|
  {
    if d != [] {
      assert InRange(nxt, taken, d[0]);
      if sc.MaxAck? && d[0].cmd == CMD_ACK { DiffExact(d[0].sn, sc.sn); }
      ScanAllWrap(ScanPkt(Ideal, sc, d[0]), d[1..], nxt, taken);
      MapTake(WrapPkt, d, 1);
    }
  }

  lemma {:induction false} FinishWrap(k: Kcb, hist: seq<Frag>, prevUna: int, sc: Scan)
    requires SenderOk(k, hist)
    requires sc.MaxAck? ==> k.sndNxt - MAX_AGE <= sc.sn <= k.sndNxt
    requires 0 <= k.sndUna - prevUna < H32
    ensures InputFinish(Wrap32, U32(prevUna), WrapKcb(k), WrapScan(sc)) == WrapKcb(InputFinish(Ideal, prevUna, k, sc))
  {
    if sc.MaxAck? { ParseFastackWrap(k, hist, sc.sn, sc.ts); }
    DiffExact(k.sndUna, prevUna);
  }

  // ---- Sending --------------------------------------------------------------------------

  lemma {:induction false} AckPktsWrap(h: Pkt, acks: seq<Ack>)
    ensures AckPkts(WrapPkt(h), Map(WrapAck, acks)) == Map(WrapPkt, AckPkts(h, acks))
  {
    if acks != [] {
      AckPktsWrap(h, acks[1..]);
      MapTake(WrapAck, acks, 1);
      MapAppend(WrapPkt, [h.(sn := acks[0].sn, ts := acks[0].ts)], AckPkts(h, acks[1..]));
    }
  }

  lemma {:induction false} HeaderWrap(k: Kcb)
    ensures Header(WrapKcb(k)) == WrapPkt(Header(k))
    ensures AfterAcks(Header(WrapKcb(k)), WrapKcb(k).acks) == WrapPkt(AfterAcks(Header(k), k.acks))
    ensures ProbeTimer(WrapKcb(k)) == ProbeTimer(k) && EffWnd(WrapKcb(k)) == EffWnd(k)
    ensures Cleared(WrapKcb(k)) == WrapKcb(Cleared(k))
  {
  }

  lemma {:induction false} FillOneWrap(k: Kcb)
    requires k.sndQueue != []
    ensures FillOne(Wrap32, WrapKcb(k)) == WrapKcb(FillOne(Ideal, k))
  {
    var g := NewSeg(DataHeader(k), k.rtt.rto, k.sndNxt, k.sndQueue[0]);
    MapAppend(WrapSeg, k.sndBuf, [g]);
    assert WrapSeg(g) == NewSeg(DataHeader(WrapKcb(k)), k.rtt.rto, U32(k.sndNxt), k.sndQueue[0]);
    U32Add(k.sndNxt, 1);
  }

  lemma {:induction false} FillIs(ar: Arith, k: Kcb, wnd: u32, ahead: int)
    requires ahead == ar.Diff(k.sndNxt, ar.Norm(k.sndUna + wnd))
    ensures Fill(ar, k, wnd) == if k.sndQueue == [] || ahead >= 0 then k else Fill(ar, FillOne(ar, k), wnd)
    decreases |k.sndQueue|
  {
  }

  lemma {:induction false} FillWrap(k: Kcb, wnd: u32)
    requires 0 <= k.sndNxt - k.sndUna <= MAX_WND && wnd <= MAX_WND
    ensures Fill(Wrap32, WrapKcb(k), wnd) == WrapKcb(Fill(Ideal, k, wnd))
    decreases |k.sndQueue|
  {
    U32Add(k.sndUna, wnd);
    DiffExact(k.sndNxt, k.sndUna + wnd);
    FillIs(Ideal, k, wnd, k.sndNxt - (k.sndUna + wnd));
    FillIs(Wrap32, WrapKcb(k), wnd, k.sndNxt - (k.sndUna + wnd));
    if k.sndQueue != [] && k.sndNxt < k.sndUna + wnd {
      FillWrap(FillOne(Ideal, k), wnd);
      FillOneWrap(k);
    }
  }

  lemma {:induction false} FlushSegWrap(f: Kcb, g: Seg)
    ensures DueOf(WrapKcb(f), WrapSeg(g)) == DueOf(f, g)
    ensures FlushSeg(WrapKcb(f), WrapSeg(g)) == WrapSeg(FlushSeg(f, g))
  {
  }

  function WrapData(d: DataOut): DataOut { d.(buf := Map(WrapSeg, d.buf), pkts := Map(WrapPkt, d.pkts)) }

  lemma {:induction false} OutcomeWrap(o: Outcome, rest: DataOut)
    ensures Outcome(WrapSeg(o.seg), o.due).Before(WrapData(rest)) == WrapData(o.Before(rest))
  {
    MapAppend(WrapSeg, [o.seg], rest.buf);
    MapAppend(WrapPkt, o.Pkts(), rest.pkts);
  }

  lemma {:induction false} FlushDataWrap(f: Kcb, buf: seq<Seg>)
    ensures FlushData(WrapKcb(f), Map(WrapSeg, buf)) == WrapData(FlushData(f, buf))
  {
    if buf != [] {
      var o := OutcomeOf(f, buf[0]);
      FlushSegWrap(f, buf[0]);
      FlushDataWrap(f, buf[1..]);
      MapTake(WrapSeg, buf, 1);
      FlushDataCons(f, buf, o);
      FlushDataCons(WrapKcb(f), Map(WrapSeg, buf), Outcome(WrapSeg(o.seg), o.due));
      OutcomeWrap(o, FlushData(f, buf[1..]));
    }
  }

  lemma {:induction false} SizeWrap(d: Datagram)
    ensures Size(WrapDatagram(d)) == Size(d)
  {
    if d != [] {
      SizeWrap(d[1..]);
      MapTake(WrapPkt, d, 1);
    }
  }

  lemma {:induction false} PackWrap(mtu: nat, cur: Datagram, pkts: seq<Pkt>)
    ensures Pack(mtu, WrapDatagram(cur), Map(WrapPkt, pkts)) == Map(WrapDatagram, Pack(mtu, cur, pkts))
    decreases |pkts|
  {
    SizeWrap(cur);
    if pkts != [] {
      MapTake(WrapPkt, pkts, 1);
      var done := if cur == [] then [] else [cur];
      PackWrap(mtu, [pkts[0]], pkts[1..]);
      PackWrap(mtu, cur + [pkts[0]], pkts[1..]);
      MapAppend(WrapPkt, cur, [pkts[0]]);
      MapAppend(WrapDatagram, done, Pack(mtu, [pkts[0]], pkts[1..]));
      assert WrapDatagram([pkts[0]]) == [WrapPkt(pkts[0])];
    }
  }

  lemma {:induction false} EmittedWrap(k: Kcb)
    requires 0 <= k.sndNxt - k.sndUna <= MAX_WND
    ensures Filled(Wrap32, WrapKcb(k)) == WrapKcb(Filled(Ideal, k))
    ensures Emitted(Wrap32, WrapKcb(k)) == Map(WrapPkt, Emitted(Ideal, k))
  {
    HeaderWrap(k);
    FillWrap(Cleared(k), EffWnd(k));
    var f := Filled(Ideal, k);
    FlushDataWrap(f, f.sndBuf);
    AckPktsWrap(Header(k), k.acks);
    var acks := AckPkts(Header(k), k.acks);
    var probes := ProbePkts(AfterAcks(Header(k), k.acks), ProbeTimer(k));
    ProbePktsWrap(AfterAcks(Header(k), k.acks), ProbeTimer(k));
    MapAppend(WrapPkt, acks, probes);
    MapAppend(WrapPkt, acks + probes, FlushData(f, f.sndBuf).pkts);
  }

  lemma {:induction false} ProbePktsWrap(h: Pkt, pr: Probe)
    ensures ProbePkts(WrapPkt(h), pr) == Map(WrapPkt, ProbePkts(h, pr))
  {
  }

  function WrapFlush(f: FlushOut): FlushOut { FlushOut(WrapKcb(f.k), Map(WrapDatagram, f.out)) }

  lemma {:induction false} FlushWrap(k: Kcb)
    requires 0 <= k.sndNxt - k.sndUna <= MAX_WND
    ensures Engine.Flush(Wrap32, WrapKcb(k)) == WrapFlush(Engine.Flush(Ideal, k))
  {
    if k.clock.updated {
      HeaderWrap(k);
      EmittedWrap(k);
      var f := Filled(Ideal, k);
      FlushDataWrap(f, f.sndBuf);
      PackWrap(k.cfg.mtu, [], Emitted(Ideal, k));
      var d := FlushData(f, f.sndBuf);
      FlushIsSent(Ideal, k, f, d);
      FlushIsSent(Wrap32, WrapKcb(k), WrapKcb(f), WrapData(d));
      SentWrap(f, d, EffWnd(k));
    }
  }

  lemma {:induction false} SentWrap(f: Kcb, d: DataOut, win: u32)
    ensures Sent(WrapKcb(f), WrapData(d), win) == WrapKcb(Sent(f, d, win))
  {
    U32Sub(f.sndNxt, f.sndUna);
  }

  lemma {:induction false} EmitWrap(x: Endpoint, f: FlushOut)
    ensures Emit(WrapEnd(x), WrapFlush(f)) == WrapEnd(Emit(x, f))
  {
    MapAppend(WrapDatagram, x.net, f.out);
  }

  // ---- Reading --------------------------------------------------------------------------

  lemma {:induction false} MsgWrap(q: seq<Pkt>)
    ensures MsgCount(Map(WrapPkt, q)) == MsgCount(q)
  {
    if q != [] {
      MsgWrap(q[1..]);
      MapTake(WrapPkt, q, 1);
    }
  }

  lemma {:induction false} BytesWrap(q: seq<Pkt>)
    ensures Bytes(Map(WrapPkt, q)) == Bytes(q)
    ensures ToFrags(Map(WrapPkt, q)) == ToFrags(q)
  {
    if q != [] {
      BytesWrap(q[1..]);
      MapTake(WrapPkt, q, 1);
    }
  }

  lemma {:induction false} PeekWrap(k: Kcb)
    ensures PeekSize(WrapKcb(k)) == PeekSize(k)
    ensures MsgBytes(Map(WrapPkt, k.rcvQueue)) == MsgBytes(k.rcvQueue)
  {
    MsgWrap(k.rcvQueue);
    MapTake(WrapPkt, k.rcvQueue, MsgCount(k.rcvQueue));
    BytesWrap(k.rcvQueue[..MsgCount(k.rcvQueue)]);
  }

  lemma {:induction false} MoveWrap(k: Kcb, taken: seq<Frag>, peerHist: seq<Frag>, n: nat)
    requires ReceiverOk(k, taken, peerHist) && n <= |k.rcvQueue|
    ensures MoveReady(Wrap32, WrapKcb(k).(rcvQueue := Map(WrapPkt, k.rcvQueue)[n..])) ==
            WrapKcb(MoveReady(Ideal, k.(rcvQueue := k.rcvQueue[n..])))
  {
    MapTake(WrapPkt, k.rcvQueue, n);
    MoveReadyWrap(k.(rcvQueue := k.rcvQueue[n..]));
  }

  function WrapRecv(r: RecvOut): RecvOut { r.(k := WrapKcb(r.k)) }

  lemma {:induction false} RecvWrap(k: Kcb, taken: seq<Frag>, peerHist: seq<Frag>, len: int)
    requires ReceiverOk(k, taken, peerHist)
    ensures Recv(Wrap32, WrapKcb(k), len) == WrapRecv(Recv(Ideal, k, len))
  {
    PeekWrap(k);
    MsgWrap(k.rcvQueue);
    if len < 0 {
      MoveReadyWrap(k);
    } else {
      MoveWrap(k, taken, peerHist, MsgCount(k.rcvQueue));
    }
  }

  lemma {:induction false} SendWrap(k: Kcb, data: seq<byte>)
    ensures var r := Engine.Send(k, data); Engine.Send(WrapKcb(k), data) == r.(k := WrapKcb(r.k))
  {
  }

  // ---- Steps and runs -------------------------------------------------------------------

  lemma {:induction false} YoungInRange(x: Endpoint, y: Endpoint, p: Pkt)
    requires Half(x, y) && Half(y, x)
    requires Emittable(y.k, y.hist, p) && Young(x.k, p)
    ensures InRange(x.k.sndNxt, |x.taken|, p)
  {
    Close(y, x);
    if p.cmd == CMD_ACK && p.sn >= y.k.rcvNxt {
      var q :| q in y.k.rcvBuf && q.sn == p.sn;
    }
  }

  lemma {:induction false} InputWrap(x: Endpoint, y: Endpoint, d: Datagram)
    requires Half(x, y) && Half(y, x)
    requires AllEmittable(y.k, y.hist, d) && forall p :: p in d ==> Young(x.k, p)
    ensures Input(Wrap32, WrapKcb(x.k), WrapDatagram(d)) == WrapKcb(Input(Ideal, x.k, d))
  {
    forall p | p in d ensures InRange(x.k.sndNxt, |x.taken|, p) {
      YoungInRange(x, y, p);
    }
    InputAllWrap(x.k, x.hist, x.taken, y.k, y.hist, d);
    InputAllOk(x.k, x.hist, x.taken, y.k, y.hist, d);
    InputAllCfg(Ideal, x.k, d);
    ScanAllWrap(NoAck, d, x.k.sndNxt, |x.taken|);
    FinishWrap(InputAll(Ideal, x.k, d), x.hist, x.k.sndUna, ScanAll(Ideal, NoAck, d));
  }

  lemma {:induction false} FlushEmitWrap(x: Endpoint, k: Kcb)
    requires 0 <= k.sndNxt - k.sndUna <= MAX_WND
    ensures Emit(WrapEnd(x), Engine.Flush(Wrap32, WrapKcb(k))) == WrapEnd(Emit(x, Engine.Flush(Ideal, k)))
  {
    FlushWrap(k);
    EmitWrap(x, Engine.Flush(Ideal, k));
  }

  lemma {:induction false} DriveWrap(x: Endpoint, now: u32)
    requires 0 <= x.k.sndNxt - x.k.sndUna <= MAX_WND
    ensures ActOn(Wrap32, WrapEnd(x), [], Drive(now)) == WrapEnd(ActOn(Ideal, x, [], Drive(now)))
  {
    var tick := Tick(x.k.clock, x.k.cfg.interval, now);
    var k := x.k.(clock := tick.0);
    assert WrapKcb(k) == WrapKcb(x.k).(clock := tick.0);
    if tick.1 {
      FlushEmitWrap(x, k);
    } else {
      EmitWrap(x, FlushOut(k, []));
    }
  }

  lemma {:induction false} ReadWrap(x: Endpoint, peerHist: seq<Frag>, len: int)
    requires ReceiverOk(x.k, x.taken, peerHist)
    ensures ActOn(Wrap32, WrapEnd(x), [], Read(len)) == WrapEnd(ActOn(Ideal, x, [], Read(len)))
  {
    RecvWrap(x.k, x.taken, peerHist, len);
    MsgWrap(x.k.rcvQueue);
    MapTake(WrapPkt, x.k.rcvQueue, MsgCount(x.k.rcvQueue));
    BytesWrap(x.k.rcvQueue[..MsgCount(x.k.rcvQueue)]);
  }

  lemma {:induction false} DeliverWrap(x: Endpoint, y: Endpoint, i: nat)
    requires Half(x, y) && Half(y, x)
    requires i < |y.net| ==> forall p :: p in y.net[i] ==> Young(x.k, p)
    ensures ActOn(Wrap32, WrapEnd(x), Map(WrapDatagram, y.net), Deliver(i)) ==
            WrapEnd(ActOn(Ideal, x, y.net, Deliver(i)))
  {
    if i < |y.net| {
      assert y.net[i] in y.net;
      InputWrap(x, y, y.net[i]);
      DeliverEnd(x, y.net, i);
    }
  }

  lemma {:induction false} DeliverEnd(x: Endpoint, net: seq<Datagram>, i: nat)
    requires i < |net| && Input(Wrap32, WrapKcb(x.k), WrapDatagram(net[i])) == WrapKcb(Input(Ideal, x.k, net[i]))
    ensures ActOn(Wrap32, WrapEnd(x), Map(WrapDatagram, net), Deliver(i)) == WrapEnd(ActOn(Ideal, x, net, Deliver(i)))
  {
  }

  lemma {:induction false} ActWrap(x: Endpoint, y: Endpoint, act: Act)
    requires Half(x, y) && Half(y, x)
    requires act.Deliver? && act.i < |y.net| ==> forall p :: p in y.net[act.i] ==> Young(x.k, p)
    ensures ActOn(Wrap32, WrapEnd(x), Map(WrapDatagram, y.net), act) == WrapEnd(ActOn(Ideal, x, y.net, act))
  {
    match act
    case Write(data) =>
      SendWrap(x.k, data);
    case Read(len) =>
      ReadWrap(x, y.hist, len);
    case Drive(now) =>
      DriveWrap(x, now);
    case FlushNow =>
      FlushEmitWrap(x, x.k);
    case Deliver(i) =>
      DeliverWrap(x, y, i);
  }

  lemma {:induction false} StepWrap(s: Sys, e: Event)
    requires Inv(s) && YoungEvent(s, e)
    ensures Step(Wrap32, WrapSys(s), e) == WrapSys(Step(Ideal, s, e))
  {
    ActWrap(Near(s, e.atA), Far(s, e.atA), e.act);
  }

  lemma {:induction false} RunWrap(s: Sys, es: seq<Event>)
    requires Ordered(s) && YoungRun(s, es)
    ensures Run(Wrap32, WrapSys(s), es) == WrapSys(Run(Ideal, s, es))
  {
    if es != [] {
      RunWrap(s, es[..|es| - 1]);
      RunOrdered(s, es[..|es| - 1]);
      StepWrap(Run(Ideal, s, es[..|es| - 1]), es[|es| - 1]);
    }
  }

  /** A run of the unbounded engine from the start in which every delivered datagram is young. */
  ghost predicate Timely(cfgA: Config, cfgB: Config, es: seq<Event>) {
    && cfgA.conv == cfgB.conv && YoungRun(Init(cfgA, cfgB), es)
  }

  /** The 32-bit engines, driven by the same events, are in the wrapped states. */
  lemma {:induction false} Simulation(cfgA: Config, cfgB: Config, es: seq<Event>)
    requires Timely(cfgA, cfgB, es)
    ensures Run(Wrap32, Init(cfgA, cfgB), es) == WrapSys(Run(Ideal, Init(cfgA, cfgB), es))
  {
    InitOrdered(cfgA, cfgB);
    assert WrapSys(Init(cfgA, cfgB)) == Init(cfgA, cfgB);
    RunWrap(Init(cfgA, cfgB), es);
  }

  /** In-order, exactly-once delivery by the 32-bit engines. */
  lemma {:induction false} Delivery32(cfgA: Config, cfgB: Config, es: seq<Event>)
    requires Timely(cfgA, cfgB, es)
    ensures var s := Run(Wrap32, Init(cfgA, cfgB), es);
            && Concat(s.b.got) + Bytes(s.b.k.rcvQueue) <= Concat(s.a.sent)
            && (!cfgA.stream ==> s.b.got <= s.a.sent)
  {
    Simulation(cfgA, cfgB, es);
    BytesConserved(cfgA, cfgB, es);
    OrderedRuns(cfgA, cfgB, es);
    BytesWrap(Run(Ideal, Init(cfgA, cfgB), es).b.k.rcvQueue);
  }

  /** The clocks of the 32-bit engines advance as those of the unbounded ones. */
  lemma {:induction false} ClockWrap(s: Sys, es: seq<Event>)
    requires Ordered(s) && YoungRun(s, es) && ClockRun(Ideal, s, es)
    ensures ClockRun(Wrap32, WrapSys(s), es)
  {
    if es != [] {
      ClockWrap(s, es[..|es| - 1]);
      RunWrap(s, es[..|es| - 1]);
    }
  }

  /** No deadlock of the 32-bit engines: every timely run has a timely continuation, without
      writes, by updates alone and on clocks that only advance, that delivers everything accepted. */
  lemma {:induction false} NoDeadlock32(cfgA: Config, cfgB: Config, es: seq<Event>) returns (fs: seq<Event>)
    requires Timely(cfgA, cfgB, es)
    ensures NoWrites(fs) && UpdatesOnly(fs) && Timely(cfgA, cfgB, es + fs)
    ensures ClockRun(Wrap32, Run(Wrap32, Init(cfgA, cfgB), es), fs)
    ensures var s := Run(Wrap32, Init(cfgA, cfgB), es); var s' := Run(Wrap32, Init(cfgA, cfgB), es + fs);
            && s'.a.k.sndBuf == [] && s'.a.k.sndQueue == [] && s'.b.k.rcvQueue == []
            && Concat(s'.b.got) == Concat(s.a.sent)
            && (!cfgA.stream ==> s'.b.got == s.a.sent)
  {
    fs := Progress.NoDeadlock(cfgA, cfgB, es);
    YoungConcat(Init(cfgA, cfgB), es, fs);
    Simulation(cfgA, cfgB, es);
    Simulation(cfgA, cfgB, es + fs);
    OrderedRuns(cfgA, cfgB, es);
    ClockWrap(Run(Ideal, Init(cfgA, cfgB), es), fs);
  }
}
