/** No reachable deadlock: from every reachable state some continuation without further writes
    empties A's queues and hands B everything that A accepted.  Lost data is recovered by the
    resend timeout of the head segment, a closed window by probing. */
module Progress {
  import opened Words
  import opened Seqs
  import opened Engine
  import opened Scans
  import opened Network
  import opened Transport
  import opened Steps
  import opened Messages
  import opened Continuation
  import opened Timers

  /** Segments accepted but not yet acknowledged, counting gaps. */
  function Left(s: Sys): int { |s.a.hist| + |s.a.k.sndQueue| - s.a.k.sndUna }

  lemma {:induction false} Go(s: Sys, es: seq<Event>)
    requires Ordered(s) && Cont(s, es)
    ensures var s' := Run(Ideal, s, es); Kept(s, s') && Left(s') <= Left(s)
  {
    QuietRun(s, es);
  }

  /** A flush at one side, as a state change, with what it wrote. */
  lemma {:induction false} FlushSide(s: Sys, atA: bool, now: u32, lo: int) returns (es: seq<Event>, k: Kcb)
    requires Ordered(s) && AckedFrom(Near(s, atA).k, lo)
    requires FlushesAt(Near(s, atA).k.clock, Near(s, atA).k.cfg.interval, now)
    ensures Cont(s, es)
    ensures k == Near(s, atA).k.(clock := k.clock) && k.clock.current == now && k.clock.updated
    ensures Armed(k.clock, k.cfg.interval)
    ensures var s' := Run(Ideal, s, es);
            && s' == Put(s, atA, Emit(Near(s, atA), Engine.Flush(Ideal, k)))
            && Kept(s, s') && Left(s') <= Left(s)
            && Near(s', atA).k.acks == []
            && AllWritten(k, lo, Engine.Flush(Ideal, k).out)
  {
    es, k := FlushAt(s, atA, now);
    Go(s, es);
    FlushFrame(k);
    FlushWrites(Near(s, atA), Far(s, atA), k, lo);
  }

  /** A flush at the earliest time. */
  lemma {:induction false} FlushSoon(s: Sys, atA: bool, lo: int) returns (es: seq<Event>, k: Kcb)
    requires Ordered(s) && AckedFrom(Near(s, atA).k, lo)
    ensures Cont(s, es)
    ensures k == Near(s, atA).k.(clock := k.clock) && k.clock.updated
    ensures var s' := Run(Ideal, s, es);
            && s' == Put(s, atA, Emit(Near(s, atA), Engine.Flush(Ideal, k)))
            && Kept(s, s') && Left(s') <= Left(s)
            && Near(s', atA).k.acks == []
            && AllWritten(k, lo, Engine.Flush(Ideal, k).out)
  {
    var c, interval := Near(s, atA).k.clock, Near(s, atA).k.cfg.interval;
    SoonFlushes(c, interval);
    es, k := FlushSide(s, atA, Soon(c, interval), lo);
  }

  lemma {:induction false} YoungNow(x: Endpoint, y: Endpoint, k: Kcb, lo: int, p: Pkt)
    requires Half(x, y) && Half(y, x)
    requires JustWritten(k, lo, p) && k.rcvNxt == y.k.rcvNxt && k.sndUna == y.k.sndUna
    requires lo >= x.k.sndNxt - MAX_AGE
    ensures Young(x.k, p)
  {
    Close(x, y);
    Close(y, x);
  }

  lemma {:induction false} DeliverShape(x: Endpoint, y: Endpoint, i: nat) returns (k: Kcb)
    requires Half(x, y) && Half(y, x) && i < |y.net|
    ensures ActOn(Ideal, x, y.net, Deliver(i)) == x.(k := k)
    ensures var m := InputAll(Ideal, x.k, y.net[i]); k == m.(sndBuf := k.sndBuf, cong := k.cong)
  {
    assert y.net[i] in y.net;
    InputOk(x.k, x.hist, x.taken, y.k, y.hist, y.net[i]);
    k := Input(Ideal, x.k, y.net[i]);
  }

  lemma {:induction false} DeliverEvent(s: Sys, toA: bool, i: nat, k': Kcb) returns (es: seq<Event>)
    requires Ordered(s) && i < |Far(s, toA).net|
    requires forall p :: p in Far(s, toA).net[i] ==> Young(Near(s, toA).k, p)
    requires ActOn(Ideal, Near(s, toA), Far(s, toA).net, Deliver(i)) == Near(s, toA).(k := k')
    ensures Cont(s, es)
    ensures var s' := Run(Ideal, s, es);
            s' == Put(s, toA, Near(s, toA).(k := k')) && Kept(s, s') && Left(s') <= Left(s)
  {
    var e := Event(toA, Deliver(i));
    One(s, e);
    es := [e];
    Go(s, es);
  }

  ghost predicate DatagramOf(k: Kcb, lo: int, d: Datagram) {
    forall p :: p in d ==> JustWritten(k, lo, p)
  }

  /** Delivers a datagram that the other side has just written. */
  lemma {:induction false} DeliverFresh(s: Sys, toA: bool, i: nat, k: Kcb, lo: int) returns (es: seq<Event>, k': Kcb)
    requires Ordered(s) && i < |Far(s, toA).net| && DatagramOf(k, lo, Far(s, toA).net[i])
    requires k.rcvNxt == Far(s, toA).k.rcvNxt && k.sndUna == Far(s, toA).k.sndUna
    requires lo >= Near(s, toA).k.sndNxt - MAX_AGE
    ensures Cont(s, es)
    ensures var m := InputAll(Ideal, Near(s, toA).k, Far(s, toA).net[i]); k' == m.(sndBuf := k'.sndBuf, cong := k'.cong)
    ensures var s' := Run(Ideal, s, es);
            s' == Put(s, toA, Near(s, toA).(k := k')) && Kept(s, s') && Left(s') <= Left(s)
  {
    var x := Near(s, toA);
    var y := Far(s, toA);
    forall p | p in y.net[i] ensures Young(x.k, p) {
      YoungNow(x, y, k, lo, p);
    }
    k' := DeliverShape(x, y, i);
    es := DeliverEvent(s, toA, i, k');
  }

  // ---- Retransmission -------------------------------------------------------------------

  lemma {:induction false} FlushKeepsBuf(k: Kcb)
    requires k.clock.updated
    ensures var r := Engine.Flush(Ideal, k).k;
            |r.sndBuf| >= |k.sndBuf| && r.cong.cwnd >= 1
            && (k.sndQueue != [] && EffWnd(k) >= 1 && k.sndUna == k.sndNxt ==> r.sndBuf != [])
            && (k.rmtWnd == 0 && k.probe.wait <= PROBE_LIMIT ==> r.probe.wait > 0)
  {
    var n := FillRun(Cleared(k), EffWnd(k));
    NewSegsAt(DataHeader(Cleared(k)), k.rtt.rto, k.sndNxt, k.sndQueue, n);
    FlushParts(k);
    FlushDataAt(Filled(Ideal, k), Filled(Ideal, k).sndBuf);
    if k.rmtWnd == 0 && k.probe.wait <= PROBE_LIMIT { ProbeWaits(k); }
  }

  /** Facing a closed window the probe timer runs, and when it expires the peer is asked. */
  lemma {:induction false} ProbeWaits(k: Kcb)
    requires k.rmtWnd == 0 && k.probe.wait <= PROBE_LIMIT
    ensures ProbeTimer(k).wait > 0
    ensures k.probe.wait > 0 && Itimediff(k.clock.current, k.probe.ts) >= 0 ==> ProbeTimer(k).ask
  {
  }

  /** Both sides flush, and nothing of it arrives: their pending acknowledgements are gone. */
  lemma {:induction false} ClearBoth(s: Sys) returns (es: seq<Event>)
    requires Ordered(s)
    ensures Cont(s, es)
    ensures var s' := Run(Ideal, s, es);
            && Kept(s, s') && Left(s') <= Left(s)
            && s'.a.k.acks == [] && s'.b.k.acks == []
            && |s'.a.k.sndBuf| >= |s.a.k.sndBuf| && s'.a.k.cong.cwnd >= 1 && s'.a.k.rmtWnd == s.a.k.rmtWnd
            && s'.b.k.rcvQueue == s.b.k.rcvQueue && s'.a.k.sndUna == s.a.k.sndUna
            && (s.a.k.rmtWnd == 0 ==> s'.a.k.probe.wait > 0)
  {
    var lo := LowestAck(s.a.k);
    var ea, ka := FlushSoon(s, true, lo);
    FlushKeepsBuf(ka);
    FlushFrame(ka);
    var s1 := Run(Ideal, s, ea);
    var lo1 := LowestAck(s1.b.k);
    var eb, kb := FlushSoon(s1, false, lo1);
    FlushFrame(kb);
    ContThen(s, ea, eb);
    es := ea + eb;
  }

  lemma {:induction false} LowestAck(k: Kcb) returns (lo: int)
    ensures AckedFrom(k, lo)
  {
    lo := 0;
    for i := 0 to |k.acks|
      invariant forall j :: 0 <= j < i ==> k.acks[j].sn >= lo
    {
      lo := Min(lo, k.acks[i].sn);
    }
  }

  /** Where a packet written by the last flush is in the log. */
  lemma {:induction false} EmittedAt(x: Endpoint, k: Kcb, lo: int, p: Pkt) returns (i: nat)
    requires k.clock.updated && p in Emitted(Ideal, k) && AllWritten(k, lo, Engine.Flush(Ideal, k).out)
    ensures var net := Emit(x, Engine.Flush(Ideal, k)).net; i < |net| && p in net[i] && DatagramOf(k, lo, net[i])
  {
    var j := PackHas(k.cfg.mtu, [], Emitted(Ideal, k), p);
    var out := Engine.Flush(Ideal, k).out;
    i := |x.net| + j;
    assert (x.net + out)[i] == out[j] && out[j] in out;
  }

  /** The clock of k at another time. */
  function At(k: Kcb, now: u32): Kcb { k.(clock := k.clock.(current := now)) }

  /** Whether a segment is due depends on the clock's time alone. */
  lemma {:induction false} SameDue(k: Kcb, k': Kcb, g: Seg)
    requires k' == k.(clock := k'.clock)
    ensures DueOf(k', g) == DueOf(At(k, k'.clock.current), g)
  {
  }

  /** A flushes at a time when its oldest segment is due and that datagram arrives. */
  lemma {:induction false} SendHeadAt(s: Sys, now: u32) returns (es: seq<Event>)
    requires Ordered(s) && s.a.k.sndBuf != [] && |s.b.k.rcvQueue| < s.b.k.cfg.rcvWnd
    requires s.a.k.acks == [] && s.b.k.acks == []
    requires FlushesAt(s.a.k.clock, s.a.k.cfg.interval, now) && !DueOf(At(s.a.k, now), s.a.k.sndBuf[0]).Quiet?
    ensures Cont(s, es)
    ensures var s' := Run(Ideal, s, es);
            && Kept(s, s') && Left(s') <= Left(s)
            && s'.a.k.sndUna == s.a.k.sndUna < s'.a.k.sndNxt
            && s'.b.k.rcvNxt > s.a.k.sndUna && s'.b.k.acks != [] && AckedFrom(s'.b.k, s.a.k.sndUna)
  {
    var lo := s.b.k.sndNxt;
    assert s.a.k.sndBuf[0] in s.a.k.sndBuf;
    var ea, k := FlushSide(s, true, now, lo);
    var s1 := Run(Ideal, s, ea);
    FlushFrame(k);
    SameDue(s.a.k, k, s.a.k.sndBuf[0]);
    var p := HeadSent(k);
    var i := EmittedAt(s.a, k, lo, p);
    var eb, kb := DeliverFresh(s1, false, i, k, lo);
    ContThen(s, ea, eb);
    es := ea + eb;
    HeadArrives(s1.a, s1.b, s1.a.net[i], p, k, lo);
  }

  /** What a flush makes of the head of snd_buf. */
  lemma {:induction false} FlushHeadIs(k: Kcb)
    requires k.clock.updated
    ensures var f := Filled(Ideal, k); var r := Engine.Flush(Ideal, k).k;
            && f.cfg == k.cfg && f.clock == k.clock && f.rtt == k.rtt && k.sndBuf <= f.sndBuf
            && |r.sndBuf| == |f.sndBuf| && (f.sndBuf != [] ==> r.sndBuf[0] == FlushSeg(f, f.sndBuf[0]))
  {
    var n := FillRun(Cleared(k), EffWnd(k));
    FlushParts(k);
    FlushDataAt(Filled(Ideal, k), Filled(Ideal, k).sndBuf);
  }

  /** The head of snd_buf stays as it is in a flush in which it is not due. */
  lemma {:induction false} HeadStays(k: Kcb)
    requires k.clock.updated && k.sndBuf != [] && DueOf(k, k.sndBuf[0]).Quiet?
    ensures var r := Engine.Flush(Ideal, k).k; r.sndBuf != [] && r.sndBuf[0] == k.sndBuf[0]
  {
    FlushHeadIs(k);
    StaysQuiet(k, Filled(Ideal, k), k.sndBuf[0]);
  }

  lemma {:induction false} StaysQuiet(k: Kcb, f: Kcb, g: Seg)
    requires f.cfg == k.cfg && f.clock == k.clock && DueOf(k, g).Quiet?
    ensures FlushSeg(f, g) == g
  {
  }

  /** A closed window and a probe not due leave the probe timer alone. */
  lemma {:induction false} ProbeStays(k: Kcb)
    requires k.clock.updated && k.rmtWnd == 0 && k.probe.wait > 0 && Itimediff(k.clock.current, k.probe.ts) < 0
    ensures var r := Engine.Flush(Ideal, k).k; r.probe.wait == k.probe.wait && r.probe.ts == k.probe.ts
  {
    FlushParts(k);
    FillFrame(Ideal, Cleared(k), EffWnd(k));
  }

  /** A flush of A at `now`: what it leaves of the head of snd_buf and of the probe timer when they are
      not due. */
  lemma {:induction false} FlushOnce(s: Sys, now: u32) returns (es: seq<Event>)
    requires Ordered(s) && s.a.k.acks == [] && FlushesAt(s.a.k.clock, s.a.k.cfg.interval, now)
    ensures Cont(s, es)
    ensures var s' := Run(Ideal, s, es);
            && Kept(s, s') && Left(s') <= Left(s) && s'.b == s.b
            && s'.a.k.acks == [] && s'.a.k.sndUna == s.a.k.sndUna && s'.a.k.rmtWnd == s.a.k.rmtWnd
            && s'.a.k.clock.current == now && Armed(s'.a.k.clock, s'.a.k.cfg.interval)
            && (s.a.k.sndBuf != [] && DueOf(At(s.a.k, now), s.a.k.sndBuf[0]).Quiet? ==>
                  s'.a.k.sndBuf != [] && s'.a.k.sndBuf[0] == s.a.k.sndBuf[0])
            && (s.a.k.rmtWnd == 0 && s.a.k.probe.wait > 0 && Itimediff(now, s.a.k.probe.ts) < 0 ==>
                  s'.a.k.probe.wait > 0 && s'.a.k.probe.ts == s.a.k.probe.ts)
  {
    var k;
    es, k := FlushSide(s, true, now, 0);
    FlushFrame(k);
    if s.a.k.sndBuf != [] && DueOf(At(s.a.k, now), s.a.k.sndBuf[0]).Quiet? {
      SameDue(s.a.k, k, s.a.k.sndBuf[0]);
      HeadStays(k);
    }
    if s.a.k.rmtWnd == 0 && s.a.k.probe.wait > 0 && Itimediff(now, s.a.k.probe.ts) < 0 {
      ProbeStays(k);
    }
  }

  lemma {:induction false} LaterDue(k: Kcb, g: Seg, now: u32)
    requires Itimediff(now, g.resendts) >= 0
    ensures !DueOf(At(k, now), g).Quiet?
  {
  }

  lemma {:induction false} KeptThen(s: Sys, s1: Sys, s2: Sys)
    requires Kept(s, s1) && Kept(s1, s2)
    ensures Kept(s, s2)
  {
  }

  lemma {:induction false} FilledHead(k: Kcb)
    requires k.sndBuf == [] && k.sndQueue != [] && k.sndUna == k.sndNxt && EffWnd(k) >= 1
    ensures var f := Filled(Ideal, k);
            f.sndBuf != [] && f.sndBuf[0] == NewSeg(DataHeader(Cleared(k)), k.rtt.rto, k.sndNxt, k.sndQueue[0])
  {
    var n := FillRun(Cleared(k), EffWnd(k));
    NewSegsAt(DataHeader(Cleared(k)), k.rtt.rto, k.sndNxt, k.sndQueue, n);
  }

  lemma {:induction false} FreshSeg(f: Kcb, g: Seg)
    requires g.xmit == 0
    ensures var r := FlushSeg(f, g);
            && r.xmit == 1 && r.fastack == g.fastack && r.rto == f.rtt.rto
            && r.resendts == U32(f.clock.current + f.rtt.rto + if f.cfg.nodelay == 0 then f.rtt.rto / 8 else 0)
  {
  }

  /** The first segment that a flush puts into an empty snd_buf is sent at once, and due again one
      timeout later. */
  lemma {:induction false} NewHead(k: Kcb)
    requires k.clock.updated && k.sndBuf == [] && k.sndQueue != [] && k.sndUna == k.sndNxt && EffWnd(k) >= 1
    ensures var r := Engine.Flush(Ideal, k).k;
            && r.sndBuf != [] && r.sndBuf[0].xmit == 1 && r.sndBuf[0].fastack == 0 && r.sndBuf[0].rto == k.rtt.rto
            && r.sndBuf[0].resendts ==
               U32(k.clock.current + k.rtt.rto + if k.cfg.nodelay == 0 then k.rtt.rto / 8 else 0)
  {
    FilledHead(k);
    FlushHeadIs(k);
    FreshSeg(Filled(Ideal, k), Filled(Ideal, k).sndBuf[0]);
  }

  /** With the timer armed and its oldest segment not due, A flushes at the resend time, or soon after,
      and that datagram arrives. */
  lemma {:induction false} SendHeadArmed(s: Sys) returns (es: seq<Event>)
    requires Ordered(s) && s.a.k.sndBuf != [] && |s.b.k.rcvQueue| < s.b.k.cfg.rcvWnd
    requires s.a.k.acks == [] && s.b.k.acks == [] && Armed(s.a.k.clock, s.a.k.cfg.interval)
    requires -H32 < Itimediff(s.a.k.clock.current, s.a.k.sndBuf[0].resendts) < 0
    ensures Cont(s, es)
    ensures var s' := Run(Ideal, s, es);
            && Kept(s, s') && Left(s') <= Left(s)
            && s'.a.k.sndUna == s.a.k.sndUna < s'.a.k.sndNxt
            && s'.b.k.rcvNxt > s.a.k.sndUna && s'.b.k.acks != [] && AckedFrom(s'.b.k, s.a.k.sndUna)
  {
    var head := s.a.k.sndBuf[0];
    var now := Reach(s.a.k.clock, head.resendts);
    ReachFlushes(s.a.k.clock, s.a.k.cfg.interval, head.resendts);
    LaterDue(s.a.k, head, now);
    es := SendHeadAt(s, now);
  }

  /** A flush at `now`; unless it sends the oldest segment, the rest of the way from there. */
  lemma {:induction false} SendHeadFrom(s: Sys, now: u32) returns (es: seq<Event>)
    requires Ordered(s) && s.a.k.sndBuf != [] && |s.b.k.rcvQueue| < s.b.k.cfg.rcvWnd
    requires s.a.k.acks == [] && s.b.k.acks == [] && FlushesAt(s.a.k.clock, s.a.k.cfg.interval, now)
    requires Itimediff(now, s.a.k.sndBuf[0].resendts) != -H32
    ensures Cont(s, es)
    ensures var s' := Run(Ideal, s, es);
            && Kept(s, s') && Left(s') <= Left(s)
            && s'.a.k.sndUna == s.a.k.sndUna < s'.a.k.sndNxt
            && s'.b.k.rcvNxt > s.a.k.sndUna && s'.b.k.acks != [] && AckedFrom(s'.b.k, s.a.k.sndUna)
  {
    if DueOf(At(s.a.k, now), s.a.k.sndBuf[0]).Quiet? {
      NotDue(s.a.k, s.a.k.sndBuf[0], now);
      var e1 := FlushOnce(s, now);
      var s1 := Run(Ideal, s, e1);
      var e2 := SendHeadArmed(s1);
      ContThen(s, e1, e2);
      KeptThen(s, s1, Run(Ideal, s1, e2));
      es := e1 + e2;
    } else {
      es := SendHeadAt(s, now);
    }
  }

  lemma {:induction false} NotDue(k: Kcb, g: Seg, now: u32)
    requires DueOf(At(k, now), g).Quiet?
    ensures Itimediff(now, g.resendts) < 0
  {
  }

  /** A flushes when its oldest segment is due, and that datagram arrives. */
  lemma {:induction false} SendHead(s: Sys) returns (es: seq<Event>)
    requires Ordered(s) && s.a.k.sndBuf != [] && |s.b.k.rcvQueue| < s.b.k.cfg.rcvWnd
    requires s.a.k.acks == [] && s.b.k.acks == []
    ensures Cont(s, es)
    ensures var s' := Run(Ideal, s, es);
            && Kept(s, s') && Left(s') <= Left(s)
            && s'.a.k.sndUna == s.a.k.sndUna < s'.a.k.sndNxt
            && s'.b.k.rcvNxt > s.a.k.sndUna && s'.b.k.acks != [] && AckedFrom(s'.b.k, s.a.k.sndUna)
  {
    var head := s.a.k.sndBuf[0];
    var now := Soon(s.a.k.clock, s.a.k.cfg.interval);
    SoonFlushes(s.a.k.clock, s.a.k.cfg.interval);
    if Itimediff(now, head.resendts) != -H32 {
      es := SendHeadFrom(s, now);
    } else if !DueOf(At(s.a.k, now), head).Quiet? {
      es := SendHeadAt(s, now);
    } else {
      var e1 := FlushOnce(s, now);
      var s1 := Run(Ideal, s, e1);
      FarFlushes(s1.a.k.clock, s1.a.k.cfg.interval, head.resendts);
      var e2 := SendHeadFrom(s1, s1.a.k.clock.tsFlush);
      ContThen(s, e1, e2);
      KeptThen(s, s1, Run(Ideal, s1, e2));
      es := e1 + e2;
    }
  }

  lemma {:induction false} HeadArrives(x: Endpoint, y: Endpoint, d: Datagram, p: Pkt, k: Kcb, lo: int)
    requires Half(x, y) && Half(y, x) && d in x.net && p in d && p.cmd == CMD_PUSH && p.sn == x.k.sndUna
    requires |y.k.rcvQueue| < y.k.cfg.rcvWnd && y.k.acks == []
    requires DatagramOf(k, lo, d) && k.sndUna == x.k.sndUna
    ensures var m := InputAll(Ideal, y.k, d); m.rcvNxt > p.sn && m.acks != [] && AckedFrom(m, x.k.sndUna)
  {
    UnaBehind(x, y);
    PushArrives(y.k, y.hist, y.taken, x.k, x.hist, d, p);
    InputAllAcks(y.k, d, x.k.sndUna);
  }

  /** B answers; its cumulative acknowledgement moves A's snd_una. */
  lemma {:induction false} Answer(s: Sys, lo: int) returns (es: seq<Event>)
    requires Ordered(s) && s.a.k.sndUna < s.a.k.sndNxt && s.b.k.rcvNxt > s.a.k.sndUna
    requires s.b.k.acks != [] && AckedFrom(s.b.k, lo) && lo >= s.a.k.sndNxt - MAX_AGE
    ensures Cont(s, es)
    ensures var s' := Run(Ideal, s, es); Kept(s, s') && Left(s') < Left(s)
  {
    var eb, k := FlushSoon(s, false, lo);
    var s1 := Run(Ideal, s, eb);
    FlushFrame(k);
    AckPktsOk(Header(k), k.acks);
    var p := AckPkts(Header(k), k.acks)[0];
    var i := EmittedAt(s.b, k, lo, p);
    var ea, ka := DeliverFresh(s1, true, i, k, lo);
    ContThen(s, eb, ea);
    es := eb + ea;
    UnaArrives(s1.a, s1.b, s1.b.net[i], k, lo);
  }

  lemma {:induction false} UnaArrives(x: Endpoint, y: Endpoint, d: Datagram, k: Kcb, lo: int)
    requires Half(x, y) && Half(y, x) && d in y.net && d != [] && DatagramOf(k, lo, d) && k.rcvNxt == y.k.rcvNxt
    requires y.k.rcvNxt > x.k.sndUna && x.k.sndNxt > x.k.sndUna
    ensures InputAll(Ideal, x.k, d).sndUna > x.k.sndUna
  {
    assert JustWritten(k, lo, d[0]);
    InputAllOk(x.k, x.hist, x.taken, y.k, y.hist, d);
  }

  /** Room at B, and nothing to acknowledge on either side. */
  lemma {:induction false} Prepare(s: Sys) returns (es: seq<Event>)
    requires Ordered(s) && s.a.k.sndBuf != []
    ensures Cont(s, es)
    ensures var s' := Run(Ideal, s, es);
            && Kept(s, s') && Left(s') <= Left(s) && s'.a.k.sndBuf != []
            && |s'.b.k.rcvQueue| < s'.b.k.cfg.rcvWnd && s'.a.k.acks == [] && s'.b.k.acks == []
  {
    var e1 := Drain(s);
    Go(s, e1);
    var s1 := Run(Ideal, s, e1);
    var e2 := ClearBoth(s1);
    ContThen(s, e1, e2);
    KeptThen(s, s1, Run(Ideal, s1, e2));
    es := e1 + e2;
  }

  /** The oldest segment reaches B, and B's answer reaches A. */
  lemma {:induction false} Exchange(s: Sys) returns (es: seq<Event>)
    requires Ordered(s) && s.a.k.sndBuf != [] && |s.b.k.rcvQueue| < s.b.k.cfg.rcvWnd
    requires s.a.k.acks == [] && s.b.k.acks == []
    ensures Cont(s, es)
    ensures var s' := Run(Ideal, s, es); Kept(s, s') && Left(s') < Left(s)
  {
    var e1 := SendHead(s);
    var s1 := Run(Ideal, s, e1);
    WindowFacts(s1.a.k, s1.a.hist);
    var e2 := Answer(s1, s.a.k.sndUna);
    ContThen(s, e1, e2);
    KeptThen(s, s1, Run(Ideal, s1, e2));
    es := e1 + e2;
  }

  /** One round of retransmission reduces what is left. */
  lemma {:induction false} Retransmit(s: Sys) returns (es: seq<Event>)
    requires Ordered(s) && s.a.k.sndBuf != []
    ensures Cont(s, es)
    ensures var s' := Run(Ideal, s, es); Kept(s, s') && Left(s') < Left(s)
  {
    var e1 := Prepare(s);
    var s1 := Run(Ideal, s, e1);
    var e2 := Exchange(s1);
    ContThen(s, e1, e2);
    KeptThen(s, s1, Run(Ideal, s1, e2));
    es := e1 + e2;
  }

  // ---- Opening a closed window ----------------------------------------------------------

  lemma {:induction false} StillQueued(s: Sys, s': Sys)
    requires Ordered(s) && Ordered(s') && Kept(s, s') && s'.a.k.sndUna == s.a.k.sndUna
    requires s.a.k.sndBuf == [] && s.a.k.sndQueue != [] && s'.a.k.sndBuf == []
    ensures s'.a.k.sndQueue != [] && s'.a.k.sndUna == s'.a.k.sndNxt
  {
  }

  lemma {:induction false} WindowOpen(k: Kcb)
    requires k.rmtWnd > 0 && k.cong.cwnd >= 1
    ensures EffWnd(k) >= 1
  {
  }

  /** With a nonzero remote window two flushes put a segment into snd_buf: the first makes the
      congestion window at least 1, the second fills. */
  lemma {:induction false} FillWindow(s: Sys) returns (es: seq<Event>)
    requires Ordered(s) && (s.a.k.sndBuf != [] || s.a.k.sndQueue != []) && s.a.k.rmtWnd > 0
    ensures Cont(s, es)
    ensures var s' := Run(Ideal, s, es); Kept(s, s') && Left(s') <= Left(s) && s'.a.k.sndBuf != []
  {
    var e1 := ClearBoth(s);
    var s1 := Run(Ideal, s, e1);
    var e2, k := FlushSoon(s1, true, 0);
    ContThen(s, e1, e2);
    es := e1 + e2;
    FlushKeepsBuf(k);
    WindowOpen(k);
    if s1.a.k.sndBuf == [] {
      StillQueued(s, s1);
    }
  }

  lemma {:induction false} AskSent(k: Kcb) returns (p: Pkt)
    requires k.clock.updated && ProbeTimer(k).ask
    ensures p in Emitted(Ideal, k) && p.cmd == CMD_WASK
  {
    p := AfterAcks(Header(k), k.acks).(cmd := CMD_WASK);
    assert p in ProbePkts(AfterAcks(Header(k), k.acks), ProbeTimer(k));
  }

  lemma {:induction false} TellSent(k: Kcb) returns (p: Pkt)
    requires k.clock.updated && k.probe.tell
    ensures p in Emitted(Ideal, k) && p.cmd == CMD_WINS
  {
    p := AfterAcks(Header(k), k.acks).(cmd := CMD_WINS);
    assert ProbeTimer(k).tell;
    assert p in ProbePkts(AfterAcks(Header(k), k.acks), ProbeTimer(k));
  }

  /** A's window probe, sent at a time when it is due, reaches B. */
  lemma {:induction false} AskAt(s: Sys, now: u32) returns (es: seq<Event>)
    requires Ordered(s) && s.a.k.rmtWnd == 0 && s.a.k.probe.wait > 0 && s.a.k.acks == [] && s.b.k.acks == []
    requires FlushesAt(s.a.k.clock, s.a.k.cfg.interval, now) && Itimediff(now, s.a.k.probe.ts) >= 0
    ensures Cont(s, es)
    ensures var s' := Run(Ideal, s, es);
            && Kept(s, s') && Left(s') <= Left(s)
            && s'.b.k.probe.tell && AckedFrom(s'.b.k, s'.a.k.sndUna)
  {
    var lo := s.b.k.sndNxt;
    var ea, k := FlushSide(s, true, now, lo);
    var s1 := Run(Ideal, s, ea);
    FlushFrame(k);
    ProbeWaits(k);
    var p := AskSent(k);
    var i := EmittedAt(s.a, k, lo, p);
    var eb, kb := DeliverFresh(s1, false, i, k, lo);
    ContThen(s, ea, eb);
    es := ea + eb;
    assert forall q: Pkt :: q in s1.a.net[i] && q.cmd == CMD_PUSH ==> JustWritten(k, lo, q);
    InputAllAcks(s1.b.k, s1.a.net[i], s1.a.k.sndUna);
  }

  /** A flush at `now`; unless it asks, the rest of the way to the probe time. */
  lemma {:induction false} AskFrom(s: Sys, now: u32) returns (es: seq<Event>)
    requires Ordered(s) && s.a.k.rmtWnd == 0 && s.a.k.probe.wait > 0 && s.a.k.acks == [] && s.b.k.acks == []
    requires FlushesAt(s.a.k.clock, s.a.k.cfg.interval, now) && Itimediff(now, s.a.k.probe.ts) != -H32
    ensures Cont(s, es)
    ensures var s' := Run(Ideal, s, es);
            && Kept(s, s') && Left(s') <= Left(s)
            && s'.b.k.probe.tell && AckedFrom(s'.b.k, s'.a.k.sndUna)
  {
    var ts := s.a.k.probe.ts;
    if Itimediff(now, ts) >= 0 {
      es := AskAt(s, now);
    } else {
      var e1 := FlushOnce(s, now);
      var s1 := Run(Ideal, s, e1);
      ReachFlushes(s1.a.k.clock, s1.a.k.cfg.interval, ts);
      var e2 := AskAt(s1, Reach(s1.a.k.clock, ts));
      ContThen(s, e1, e2);
      KeptThen(s, s1, Run(Ideal, s1, e2));
      es := e1 + e2;
    }
  }

  /** A's window probe is sent when its time has come, and reaches B. */
  lemma {:induction false} Ask(s: Sys) returns (es: seq<Event>)
    requires Ordered(s) && s.a.k.rmtWnd == 0 && s.a.k.probe.wait > 0 && s.a.k.acks == [] && s.b.k.acks == []
    ensures Cont(s, es)
    ensures var s' := Run(Ideal, s, es);
            && Kept(s, s') && Left(s') <= Left(s)
            && s'.b.k.probe.tell && AckedFrom(s'.b.k, s'.a.k.sndUna)
  {
    var ts := s.a.k.probe.ts;
    var now := Soon(s.a.k.clock, s.a.k.cfg.interval);
    SoonFlushes(s.a.k.clock, s.a.k.cfg.interval);
    if Itimediff(now, ts) != -H32 {
      es := AskFrom(s, now);
    } else {
      var e1 := FlushOnce(s, now);
      var s1 := Run(Ideal, s, e1);
      FarFlushes(s1.a.k.clock, s1.a.k.cfg.interval, ts);
      var e2 := AskFrom(s1, s1.a.k.clock.tsFlush);
      ContThen(s, e1, e2);
      KeptThen(s, s1, Run(Ideal, s1, e2));
      es := e1 + e2;
    }
  }

  /** B's answer carries a nonzero window. */
  lemma {:induction false} Tell(s: Sys, lo: int) returns (es: seq<Event>)
    requires Ordered(s) && s.b.k.probe.tell && |s.b.k.rcvQueue| < s.b.k.cfg.rcvWnd
    requires AckedFrom(s.b.k, lo) && lo >= s.a.k.sndNxt - MAX_AGE
    ensures Cont(s, es)
    ensures var s' := Run(Ideal, s, es);
            Kept(s, s') && Left(s') <= Left(s) && s'.a.k.rmtWnd > 0
  {
    var eb, k := FlushSoon(s, false, lo);
    var s1 := Run(Ideal, s, eb);
    FlushFrame(k);
    var p := TellSent(k);
    var i := EmittedAt(s.b, k, lo, p);
    var ea, ka := DeliverFresh(s1, true, i, k, lo);
    ContThen(s, eb, ea);
    es := eb + ea;
    var d := s1.b.net[i];
    assert d[|d| - 1] in d && JustWritten(k, lo, d[|d| - 1]);
    var low := LowestAck(s1.a.k);
    LastWindow(s1.a.k, d);
  }

  lemma {:induction false} LastWindow(k: Kcb, d: Datagram)
    requires d != []
    ensures InputAll(Ideal, k, d).rmtWnd == d[|d| - 1].wnd
    decreases |d|
  {
    InputAcks(k, d[0]);
    if |d| > 1 {
      LastWindow(InputPkt(Ideal, k, d[0]), d[1..]);
    } else {
      assert InputAll(Ideal, k, d) == InputAll(Ideal, InputPkt(Ideal, k, d[0]), []);
    }
  }

  lemma {:induction false} Asked(s: Sys) returns (es: seq<Event>)
    requires Ordered(s) && s.a.k.rmtWnd == 0
    ensures Cont(s, es)
    ensures var s' := Run(Ideal, s, es);
            && Kept(s, s') && Left(s') <= Left(s)
            && s'.b.k.probe.tell && AckedFrom(s'.b.k, s'.a.k.sndUna)
  {
    var e1 := ClearBoth(s);
    var s1 := Run(Ideal, s, e1);
    var e2 := Ask(s1);
    ContThen(s, e1, e2);
    KeptThen(s, s1, Run(Ideal, s1, e2));
    es := e1 + e2;
  }

  lemma {:induction false} Told(s: Sys) returns (es: seq<Event>)
    requires Ordered(s) && s.b.k.probe.tell && AckedFrom(s.b.k, s.a.k.sndUna)
    ensures Cont(s, es)
    ensures var s' := Run(Ideal, s, es); Kept(s, s') && Left(s') <= Left(s) && s'.a.k.rmtWnd > 0
  {
    var e1 := Drain(s);
    Go(s, e1);
    var s1 := Run(Ideal, s, e1);
    WindowFacts(s.a.k, s.a.hist);
    var e2 := Tell(s1, s.a.k.sndUna);
    ContThen(s, e1, e2);
    KeptThen(s, s1, Run(Ideal, s1, e2));
    es := e1 + e2;
  }

  /** Zero-window probing reopens A's view of the window. */
  lemma {:induction false} ProbeWindow(s: Sys) returns (es: seq<Event>)
    requires Ordered(s)
    ensures Cont(s, es)
    ensures var s' := Run(Ideal, s, es);
            Kept(s, s') && Left(s') <= Left(s) && s'.a.k.rmtWnd > 0
  {
    if s.a.k.rmtWnd > 0 {
      es := [];
      Go(s, es);
    } else {
      var e1 := Asked(s);
      var s1 := Run(Ideal, s, e1);
      var e2 := Told(s1);
      ContThen(s, e1, e2);
      KeptThen(s, s1, Run(Ideal, s1, e2));
      es := e1 + e2;
    }
  }

  // ---- No deadlock ----------------------------------------------------------------------

  /** Nothing left at A, nothing readable at B. */
  ghost predicate Settled(s: Sys) {
    s.a.k.sndBuf == [] && s.a.k.sndQueue == [] && PeekSize(s.b.k) < 0
  }

  /** The window opens and takes a segment. */
  lemma {:induction false} Refill(s: Sys) returns (es: seq<Event>)
    requires Ordered(s) && s.a.k.sndBuf == [] && s.a.k.sndQueue != []
    ensures Cont(s, es)
    ensures var s' := Run(Ideal, s, es);
            Kept(s, s') && Left(s') <= Left(s) && (s'.a.k.sndBuf != [] || Left(s') < Left(s))
  {
    var e1 := ProbeWindow(s);
    var s1 := Run(Ideal, s, e1);
    if s1.a.k.sndBuf == [] && s1.a.k.sndQueue == [] {
      es := e1;
    } else {
      var e2 := FillWindow(s1);
      ContThen(s, e1, e2);
      KeptThen(s, s1, Run(Ideal, s1, e2));
      es := e1 + e2;
    }
  }

  /** Whatever is left at A, some of it gets through. */
  lemma {:induction false} Advance(s: Sys) returns (es: seq<Event>)
    requires Ordered(s) && (s.a.k.sndBuf != [] || s.a.k.sndQueue != [])
    ensures Cont(s, es)
    ensures var s' := Run(Ideal, s, es); Kept(s, s') && Left(s') < Left(s)
  {
    if s.a.k.sndBuf != [] {
      es := Retransmit(s);
    } else {
      var e1 := Refill(s);
      var s1 := Run(Ideal, s, e1);
      if s1.a.k.sndBuf == [] {
        es := e1;
      } else {
        var e2 := Retransmit(s1);
        ContThen(s, e1, e2);
        KeptThen(s, s1, Run(Ideal, s1, e2));
        es := e1 + e2;
      }
    }
  }

  lemma {:induction false} Settle(s: Sys) returns (es: seq<Event>)
    requires Ordered(s)
    ensures Cont(s, es)
    ensures var s' := Run(Ideal, s, es); Kept(s, s') && Settled(s')
    decreases Left(s)
  {
    if s.a.k.sndBuf == [] && s.a.k.sndQueue == [] {
      es := Drain(s);
      Go(s, es);
    } else {
      var e1 := Advance(s);
      var s1 := Run(Ideal, s, e1);
      var e2 := Settle(s1);
      ContThen(s, e1, e2);
      KeptThen(s, s1, Run(Ideal, s1, e2));
      es := e1 + e2;
    }
  }

  /** A settled state has delivered everything. */
  lemma {:induction false} SettledComplete(s: Sys)
    requires Ordered(s) && Settled(s)
    ensures Concat(s.b.got) + Bytes(s.b.k.rcvQueue) == Concat(s.a.sent)
    ensures !s.a.k.cfg.stream ==> s.b.got == s.a.sent
    ensures s.b.k.rcvQueue == []
  {
    AllMoved(s.a, s.b);
    Conserved(s.a, s.b);
    assert s.a.hist[s.b.k.rcvNxt..] + s.a.k.sndQueue == [];
    NoTail(s.a, s.b);
  }

  lemma {:induction false} AllMoved(x: Endpoint, y: Endpoint)
    requires Half(x, y) && SmallFrgs(x) && x.k.sndBuf == [] && PeekSize(y.k) < 0
    ensures y.k.rcvNxt == |x.hist|
  {
    if |y.k.rcvQueue| >= WND_RCV - 1 { FullHead(x, y); }
    UnaBehind(x, y);
  }

  lemma {:induction false} StreamHead(x: Endpoint, y: Endpoint)
    requires ReceiverOk(y.k, y.taken, x.hist) && SmallFrgs(x) && x.k.cfg.stream
    ensures y.k.rcvQueue != [] ==> y.k.rcvQueue[0].frg == 0
  {
    QueueInAll(x, y);
    if y.k.rcvQueue != [] {
      assert y.k.rcvQueue[0].ToFrag() in x.hist + x.k.sndQueue;
    }
  }

  lemma {:induction false} NoTail(x: Endpoint, y: Endpoint)
    requires ReceiverOk(y.k, y.taken, x.hist) && SmallFrgs(x) && MessagesAccepted(x) && MessagesReturned(x, y)
    requires x.k.sndQueue == [] && y.k.rcvNxt == |x.hist| && PeekSize(y.k) < 0
    ensures y.k.rcvQueue == [] && (!x.k.cfg.stream ==> y.got == x.sent)
  {
    var q := y.k.rcvQueue;
    QueueInAll(x, y);
    if x.k.cfg.stream {
      StreamHead(x, y);
    } else if |y.got| < |x.sent| {
      MoreFrags(x.k.cfg.Mss(), x.sent, y.got, x.hist + x.k.sndQueue, y.taken, q);
      assert false;
    } else {
      assert y.got == x.sent;
      assert |y.taken| == |x.hist + x.k.sndQueue|;
    }
  }

  /** A message not yet returned would still have all its fragments in the queue. */
  lemma {:induction false} MoreFrags(mss: int, sent: seq<seq<byte>>, got: seq<seq<byte>>, all: seq<Frag>,
                                     taken: seq<Frag>, q: seq<Pkt>)
    requires mss > 0 && got <= sent && |got| < |sent| && forall m :: m in sent ==> FragCount(mss, |m|) < WND_RCV
    requires taken == AllFrags(mss, got) && all == AllFrags(mss, sent)
    requires LinesUp(q, all, |taken|) && |taken| + |q| == |all|
    ensures q != [] && q[0].frg + 1 <= |q|
  {
    var m := sent[|got|];
    assert m in sent && got == sent[..|got|];
    FlatMapAt(Fragmenter(mss), sent, got);
    FragCountCovers(mss, |m|);
    FragmentsShape(mss, m, FragCount(mss, |m|), false);
    assert |MsgFrags(mss, m)| >= 1;
    HeadMessage(mss, m, all, |taken|, q);
  }

  /** From every reachable state some continuation, in which nothing is written, the engines are driven
      by updates alone, every datagram delivered is young and both clocks only advance, hands B all
      that A has accepted and empties A's queues. */
  lemma {:induction false} NoDeadlock(cfgA: Config, cfgB: Config, es: seq<Event>) returns (fs: seq<Event>)
    requires cfgA.conv == cfgB.conv
    ensures var s := Run(Ideal, Init(cfgA, cfgB), es); var s' := Run(Ideal, Init(cfgA, cfgB), es + fs);
            && NoWrites(fs) && UpdatesOnly(fs) && YoungRun(s, fs) && ClockRun(Ideal, s, fs)
            && s'.a.k.sndBuf == [] && s'.a.k.sndQueue == [] && s'.b.k.rcvQueue == []
            && Concat(s'.b.got) == Concat(s.a.sent)
            && (!cfgA.stream ==> s'.b.got == s.a.sent)
  {
    var s := Run(Ideal, Init(cfgA, cfgB), es);
    OrderedRuns(cfgA, cfgB, es);
    fs := Settle(s);
    RunConcat(Ideal, Init(cfgA, cfgB), es, fs);
    SettledComplete(Run(Ideal, s, fs));
  }
}
