/** Retransmission backoff: over any mix of timeouts, fast resends and quiet flushes the rto of a
    segment stays under a ceiling that grows by the mode's factor, for any number of timeouts and in
    every run.  Exactly when a timeout makes the rto grow, and when the next deadline lies ahead of the
    clock: not always, since 32 bits wrap. */
module Backoff {
  import opened Words
  import opened Engine
  import opened Network
  import Rto

  /** The engine at one flush, and the fastack count the segment has by then. */
  datatype Moment = Moment(k: Kcb, fastack: u32)

  function AtMoment(m: Moment, g: Seg): Seg { FlushSeg(m.k, g.(fastack := m.fastack)) }

  function DueAt(m: Moment, g: Seg): Due { DueOf(m.k, g.(fastack := m.fastack)) }

  function After(g: Seg, ms: seq<Moment>): Seg {
    if ms == [] then g else AtMoment(ms[|ms| - 1], After(g, ms[..|ms| - 1]))
  }

  function Timeouts(g: Seg, ms: seq<Moment>): nat {
    if ms == [] then 0
    else
      var n := |ms| - 1;
      Timeouts(g, ms[..n]) + if DueAt(ms[n], After(g, ms[..n])).Timeout? then 1 else 0
  }

  /** A history of flushes under one configuration, with estimates in their proven range. */
  ghost predicate History(cfg: Config, ms: seq<Moment>) {
    forall m :: m in ms ==> m.k.cfg == cfg && InRange(m.k)
  }

  /** Doubling, adding half of it, or adding half an estimate. */
  function Mode(cfg: Config): nat { Min(cfg.nodelay, 2) }

  /** The largest rto after some timeouts: each one applies the mode's growth to the largest
      possible estimate. */
  function Ceiling(mode: nat, timeouts: nat): nat {
    if timeouts == 0 then RTO_MAX
    else
      var c := Ceiling(mode, timeouts - 1);
      if mode == 0 then 2 * c else if mode == 1 then c + c / 2 else c + RTO_MAX / 2
  }

  /** How many timeouts keep every deadline within half the clock's range. */
  function Limit(mode: nat): nat { if mode == 0 then 15 else 20 }

  function Pow(b: nat, n: nat): nat { if n == 0 then 1 else b * Pow(b, n - 1) }

  /** In closed form: doubling, or one and a half each time. */
  lemma {:induction false} CeilingPowers(timeouts: nat)
    ensures Ceiling(0, timeouts) == RTO_MAX * Pow(2, timeouts)
    ensures Ceiling(1, timeouts) * Pow(2, timeouts) <= RTO_MAX * Pow(3, timeouts)
    ensures Ceiling(2, timeouts) == RTO_MAX + timeouts * (RTO_MAX / 2)
  {
    if timeouts > 0 {
      CeilingPowers(timeouts - 1);
      HalfMore(Ceiling(1, timeouts - 1), Pow(2, timeouts - 1), RTO_MAX * Pow(3, timeouts - 1));
    }
  }

  lemma {:induction false} HalfMore(c: nat, p: nat, q: nat)
    requires c * p <= q
    ensures (c + c / 2) * (2 * p) <= 3 * q
  {
    var d := c + c / 2;
    assert 2 * d <= 3 * c;
    MulMono(2 * d, 3 * c, p);
    assert 2 * d * p == d * (2 * p) && 3 * c * p == 3 * (c * p);
  }

  lemma {:induction false} CeilingGrows(mode: nat, m: nat, n: nat)
    requires m <= n
    ensures RTO_MAX <= Ceiling(mode, m) <= Ceiling(mode, n)
  {
    if m < n {
      CeilingGrows(mode, m, n - 1);
    } else if m > 0 {
      CeilingGrows(mode, m - 1, m - 1);
    }
  }

  lemma {:induction false} DoublingLimit()
    ensures Ceiling(0, 15) < H32
  {
    assert Ceiling(0, 5) == 1920000;
    assert Ceiling(0, 10) == 61440000;
  }

  lemma {:induction false} HalfMoreLimit()
    ensures Ceiling(1, 20) < H32
  {
    assert Ceiling(1, 5) == 455625;
    assert Ceiling(1, 10) < 3500000;
    assert Ceiling(1, 15) < 27000000;
  }

  lemma {:induction false} LimitFits(mode: nat, timeouts: nat)
    requires mode <= 2 && timeouts <= Limit(mode)
    ensures Ceiling(mode, timeouts) < H32
  {
    CeilingGrows(mode, timeouts, Limit(mode));
    if mode == 0 {
      DoublingLimit();
    } else if mode == 1 {
      HalfMoreLimit();
    } else {
      FixedLimit();
    }
  }

  lemma {:induction false} FixedLimit()
    ensures Ceiling(2, 20) < H32
  {
    assert Ceiling(2, 10) == 360000;
  }

  /** The deadline of a segment just sent at `now` with timeout `wait`. */
  lemma {:induction false} DeadlineAhead(now: u32, wait: int)
    requires 0 < wait < H32
    ensures Itimediff(U32(now + wait), now) == wait
  {
    I32Small(now - now);
    ShiftLater(now, now, wait);
  }

  // ---- One flush ------------------------------------------------------------------------

  /** A segment that was sent before, seen by one flush. */
  lemma {:induction false} OneFlush(k: Kcb, g: Seg)
    requires g.xmit >= 1
    ensures var r := FlushSeg(k, g); var due := DueOf(k, g);
            && !due.Fresh?
            && r.xmit == (if due.Quiet? then g.xmit else U32(g.xmit + 1))
            && r.rto == (if due.Timeout? then BackoffRto(k.cfg, g.rto, k.rtt.rto) else g.rto)
            && (due.Quiet? ==> r.resendts == g.resendts)
            && (!due.Quiet? ==> r.resendts == U32(k.clock.current + r.rto))
  {
  }

  lemma {:induction false} FirstFlush(m: Moment, g: Seg)
    requires g.xmit == 0
    ensures var r := AtMoment(m, g);
            && DueAt(m, g).Fresh? && r.xmit == 1 && r.rto == m.k.rtt.rto
            && r.resendts == U32(m.k.clock.current + m.k.rtt.rto
                                + (if m.k.cfg.nodelay == 0 then m.k.rtt.rto / 8 else 0))
  {
  }

  /** The rto after a timeout, in each mode.  In mode 1 the step is half the rto read as a signed
      number, so beyond 2^31 it is negative. */
  lemma {:induction false} BackoffIs(cfg: Config, rto: u32, rxRto: u32)
    requires 30 <= rxRto <= RTO_MAX
    ensures var r := BackoffRto(cfg, rto, rxRto);
            && (cfg.nodelay == 0 ==> r == U32(rto + Max(rto, rxRto)))
            && (cfg.nodelay == 1 && rto < H32 ==> r == U32(rto + rto / 2))
            && (cfg.nodelay == 1 && rto >= H32 ==> r == rto - (M32 - rto) / 2)
            && (cfg.nodelay >= 2 ==> r == U32(rto + rxRto / 2))
  {
    I32Small(rxRto);
    if rto < H32 {
      I32Small(rto);
    } else {
      I32Of(rto, rto - M32, 1);
      U32Small(rto - (M32 - rto) / 2);
    }
  }

  lemma {:induction false} WrapsTo(x: int)
    requires 0 <= x < 2 * M32
    ensures U32(x) == if x < M32 then x else x - M32
  {
  }

  /** Exactly when a timeout makes the rto grow. */
  predicate Grows(cfg: Config, rto: u32, rxRto: u32) {
    if cfg.nodelay == 0 then rto < H32
    else if cfg.nodelay == 1 then 2 <= rto < H32
    else rto + rxRto / 2 < M32
  }

  lemma {:induction false} GrowsIff(cfg: Config, rto: u32, rxRto: u32)
    requires 30 <= rxRto <= RTO_MAX
    ensures BackoffRto(cfg, rto, rxRto) > rto <==> Grows(cfg, rto, rxRto)
  {
    BackoffIs(cfg, rto, rxRto);
    WrapsTo(rto + Max(rto, rxRto));
    WrapsTo(rto + rto / 2);
    WrapsTo(rto + rxRto / 2);
  }

  // ---- The estimate in every run ----------------------------------------------------------

  ghost predicate InRange(k: Kcb) { 30 <= k.rtt.rto <= RTO_MAX }

  lemma {:induction false} AllInRange(ar: Arith, k: Kcb, d: Datagram)
    requires InRange(k)
    ensures InRange(InputAll(ar, k, d))
    decreases |d|
  {
    if d != [] {
      var h := InputHead(ar, k, d[0]);
      InputPushFrame(ar, h, d[0]);
      Rto.RtoRange(h.cfg, h.rtt, Itimediff(h.clock.current, d[0].ts));
      AllInRange(ar, InputPkt(ar, k, d[0]), d[1..]);
    }
  }

  lemma {:induction false} FlushSameRtt(ar: Arith, k: Kcb)
    ensures Engine.Flush(ar, k).k.rtt == k.rtt
  {
    FillFrame(ar, Cleared(k), EffWnd(k));
  }

  lemma {:induction false} RecvSameRtt(ar: Arith, k: Kcb, len: int)
    ensures Engine.Recv(ar, k, len).k.rtt == k.rtt
  {
    MoveReadyFrame(ar, k);
    MoveReadyFrame(ar, k.(rcvQueue := k.rcvQueue[MsgCount(k.rcvQueue)..]));
  }

  lemma {:induction false} ActInRange(ar: Arith, x: Endpoint, peer: seq<Datagram>, act: Act)
    requires InRange(x.k)
    ensures InRange(ActOn(ar, x, peer, act).k)
  {
    match act {
      case Write(data) =>
      case Read(len) => RecvSameRtt(ar, x.k, len);
      case Drive(now) => FlushSameRtt(ar, x.k.(clock := Tick(x.k.clock, x.k.cfg.interval, now).0));
      case FlushNow => FlushSameRtt(ar, x.k);
      case Deliver(i) => if i < |peer| { AllInRange(ar, x.k, peer[i]); }
    }
  }

  /** In every run, on wrapping or unbounded numbers and whatever arrives, both estimates stay in
      the range that a history of flushes assumes. */
  lemma {:induction false} RunsInRange(ar: Arith, cfgA: Config, cfgB: Config, es: seq<Event>)
    ensures var s := Run(ar, Init(cfgA, cfgB), es); InRange(s.a.k) && InRange(s.b.k)
  {
    if es != [] {
      var s := Run(ar, Init(cfgA, cfgB), es[..|es| - 1]);
      var e := es[|es| - 1];
      RunsInRange(ar, cfgA, cfgB, es[..|es| - 1]);
      if e.atA { ActInRange(ar, s.a, s.b.net, e.act); } else { ActInRange(ar, s.b, s.a.net, e.act); }
    }
  }

  // ---- Every run --------------------------------------------------------------------------

  /** A segment sent x times has an rto under the ceiling of x - 1 timeouts; within the limit the rto
      is at least 30. */
  ghost predicate BackedOff(cfg: Config, g: Seg) {
    g.xmit >= 1 ==>
      && g.rto <= Ceiling(Mode(cfg), g.xmit - 1)
      && (g.xmit - 1 <= Limit(Mode(cfg)) ==> 30 <= g.rto)
  }

  ghost predicate AllBackedOff(cfg: Config, buf: seq<Seg>) {
    forall g :: g in buf ==> BackedOff(cfg, g)
  }

  /** One timeout takes one step of the ceiling, even where the rto wraps. */
  lemma {:induction false} CeilingStep(cfg: Config, rto: u32, rxRto: u32, timeouts: nat)
    requires rto <= Ceiling(Mode(cfg), timeouts) && 30 <= rxRto <= RTO_MAX
    ensures BackoffRto(cfg, rto, rxRto) <= Ceiling(Mode(cfg), timeouts + 1)
  {
    CeilingGrows(Mode(cfg), timeouts, timeouts + 1);
    StepAtMost(cfg, rto, rxRto, Ceiling(Mode(cfg), timeouts));
  }

  lemma {:induction false} StepAtMost(cfg: Config, rto: u32, rxRto: u32, c: nat)
    requires rto <= c && RTO_MAX <= c && 30 <= rxRto <= RTO_MAX
    ensures BackoffRto(cfg, rto, rxRto) <=
            if cfg.nodelay == 0 then 2 * c else if cfg.nodelay == 1 then c + c / 2 else c + RTO_MAX / 2
  {
    BackoffIs(cfg, rto, rxRto);
    WrapsTo(rto + Max(rto, rxRto));
    WrapsTo(rto + rto / 2);
    WrapsTo(rto + rxRto / 2);
  }

  lemma {:induction false} LimitGrows(cfg: Config, rto: u32, rxRto: u32, timeouts: nat)
    requires 30 <= rto <= Ceiling(Mode(cfg), timeouts) && 30 <= rxRto <= RTO_MAX && timeouts <= Limit(Mode(cfg))
    ensures rto < H32 && BackoffRto(cfg, rto, rxRto) > rto
  {
    LimitFits(Mode(cfg), timeouts);
    GrowsIff(cfg, rto, rxRto);
  }

  lemma {:induction false} FlushSegBackedOff(k: Kcb, g: Seg)
    requires InRange(k) && BackedOff(k.cfg, g)
    ensures BackedOff(k.cfg, FlushSeg(k, g))
  {
    if g.xmit >= 1 {
      var due, r := DueOf(k, g), FlushSeg(k, g);
      OneFlush(k, g);
      if !due.Quiet? && g.xmit + 1 < M32 {
        U32Small(g.xmit + 1);
        SentBackedOff(k, g, r, due.Timeout?);
      }
    } else {
      FirstBackedOff(k, g);
    }
  }

  lemma {:induction false} FirstBackedOff(k: Kcb, g: Seg)
    requires InRange(k) && g.xmit == 0
    ensures BackedOff(k.cfg, FlushSeg(k, g))
  {
    var r := FlushSeg(k, g);
    assert r.xmit == 1 && r.rto == k.rtt.rto;
  }

  lemma {:induction false} SentBackedOff(k: Kcb, g: Seg, r: Seg, timeout: bool)
    requires InRange(k) && BackedOff(k.cfg, g) && g.xmit >= 1 && r.xmit == g.xmit + 1
    requires r.rto == if timeout then BackoffRto(k.cfg, g.rto, k.rtt.rto) else g.rto
    ensures BackedOff(k.cfg, r)
  {
    CeilingGrows(Mode(k.cfg), g.xmit - 1, g.xmit);
    if timeout {
      CeilingStep(k.cfg, g.rto, k.rtt.rto, g.xmit - 1);
      if g.xmit <= Limit(Mode(k.cfg)) { LimitGrows(k.cfg, g.rto, k.rtt.rto, g.xmit - 1); }
    }
  }

  lemma {:induction false} FlushDataBackedOff(k: Kcb, buf: seq<Seg>)
    requires InRange(k) && AllBackedOff(k.cfg, buf)
    ensures AllBackedOff(k.cfg, FlushData(k, buf).buf)
  {
    if buf != [] {
      assert buf[0] in buf;
      FlushSegBackedOff(k, buf[0]);
      FlushDataBackedOff(k, buf[1..]);
    }
  }

  lemma {:induction false} FillBackedOff(ar: Arith, k: Kcb, wnd: int)
    requires AllBackedOff(k.cfg, k.sndBuf)
    ensures var r := Fill(ar, k, wnd); AllBackedOff(k.cfg, r.sndBuf) && r.cfg == k.cfg && r.rtt == k.rtt
    decreases |k.sndQueue|
  {
    if k.sndQueue != [] && ar.Diff(k.sndNxt, ar.Norm(k.sndUna + wnd)) < 0 {
      FillBackedOff(ar, FillOne(ar, k), wnd);
    }
  }

  lemma {:induction false} FlushBackedOff(ar: Arith, k: Kcb)
    requires InRange(k) && AllBackedOff(k.cfg, k.sndBuf)
    ensures var r := Engine.Flush(ar, k).k; r.cfg == k.cfg && AllBackedOff(k.cfg, r.sndBuf)
  {
    if k.clock.updated {
      FillBackedOff(ar, Cleared(k), EffWnd(k));
      FlushDataBackedOff(Filled(ar, k), Filled(ar, k).sndBuf);
      FlushBufIs(ar, k);
    }
  }

  lemma {:induction false} FlushBufIs(ar: Arith, k: Kcb)
    requires k.clock.updated
    ensures var f := Filled(ar, k); var r := Engine.Flush(ar, k).k;
            r.cfg == f.cfg && r.sndBuf == FlushData(f, f.sndBuf).buf
  {
  }

  lemma {:induction false} UnaBackedOff(ar: Arith, cfg: Config, buf: seq<Seg>, una: int)
    requires AllBackedOff(cfg, buf)
    ensures AllBackedOff(cfg, ParseUna(ar, buf, una))
  {
    if buf != [] {
      UnaBackedOff(ar, cfg, buf[1..], una);
    }
  }

  lemma {:induction false} AckBackedOff(ar: Arith, cfg: Config, buf: seq<Seg>, sn: int)
    requires AllBackedOff(cfg, buf)
    ensures AllBackedOff(cfg, AckScan(ar, buf, sn))
  {
    if buf != [] {
      assert buf[0] in buf;
      AckBackedOff(ar, cfg, buf[1..], sn);
    }
  }

  lemma {:induction false} FastackBackedOff(ar: Arith, cfg: Config, buf: seq<Seg>, sn: int, ts: u32)
    requires AllBackedOff(cfg, buf)
    ensures AllBackedOff(cfg, FastackScan(ar, buf, sn, ts))
  {
    if buf != [] {
      assert buf[0] in buf;
      FastackBackedOff(ar, cfg, buf[1..], sn, ts);
    }
  }

  lemma {:induction false} PktBackedOff(ar: Arith, k: Kcb, p: Pkt)
    requires AllBackedOff(k.cfg, k.sndBuf)
    ensures AllBackedOff(k.cfg, InputPkt(ar, k, p).sndBuf)
  {
    var h := InputHead(ar, k, p);
    UnaBackedOff(ar, k.cfg, k.sndBuf, p.una);
    AckBackedOff(ar, k.cfg, h.sndBuf, p.sn);
    InputPushFrame(ar, h, p);
  }

  lemma {:induction false} AllPktsBackedOff(ar: Arith, k: Kcb, d: Datagram)
    requires AllBackedOff(k.cfg, k.sndBuf)
    ensures AllBackedOff(k.cfg, InputAll(ar, k, d).sndBuf)
    decreases |d|
  {
    if d != [] {
      PktBackedOff(ar, k, d[0]);
      InputPktCfg(ar, k, d[0]);
      AllPktsBackedOff(ar, InputPkt(ar, k, d[0]), d[1..]);
    }
  }

  lemma {:induction false} InputBackedOff(ar: Arith, k: Kcb, d: Datagram)
    requires AllBackedOff(k.cfg, k.sndBuf)
    ensures var r := Input(ar, k, d); r.cfg == k.cfg && AllBackedOff(k.cfg, r.sndBuf)
  {
    var m := InputAll(ar, k, d);
    var sc := ScanAll(ar, NoAck, d);
    AllPktsBackedOff(ar, k, d);
    InputAllCfg(ar, k, d);
    if sc.MaxAck? { FastackBackedOff(ar, k.cfg, m.sndBuf, sc.sn, sc.ts); }
  }

  lemma {:induction false} RecvSameBuf(ar: Arith, k: Kcb, len: int)
    ensures var r := Engine.Recv(ar, k, len).k; r.sndBuf == k.sndBuf && r.cfg == k.cfg
  {
    MoveReadyFrame(ar, k);
    MoveReadyFrame(ar, k.(rcvQueue := k.rcvQueue[MsgCount(k.rcvQueue)..]));
  }

  lemma {:induction false} ActBackedOff(ar: Arith, x: Endpoint, peer: seq<Datagram>, act: Act)
    requires InRange(x.k) && AllBackedOff(x.k.cfg, x.k.sndBuf)
    ensures var k := ActOn(ar, x, peer, act).k; k.cfg == x.k.cfg && AllBackedOff(k.cfg, k.sndBuf)
  {
    match act {
      case Write(data) =>
      case Read(len) => RecvSameBuf(ar, x.k, len);
      case Drive(now) => FlushBackedOff(ar, x.k.(clock := Tick(x.k.clock, x.k.cfg.interval, now).0));
      case FlushNow => FlushBackedOff(ar, x.k);
      case Deliver(i) => if i < |peer| { InputBackedOff(ar, x.k, peer[i]); }
    }
  }

  lemma {:induction false} RunBackedOff(ar: Arith, cfgA: Config, cfgB: Config, es: seq<Event>)
    ensures var s := Run(ar, Init(cfgA, cfgB), es);
            && s.a.k.cfg == cfgA && s.b.k.cfg == cfgB
            && AllBackedOff(cfgA, s.a.k.sndBuf) && AllBackedOff(cfgB, s.b.k.sndBuf)
  {
    if es != [] {
      var s := Run(ar, Init(cfgA, cfgB), es[..|es| - 1]);
      var e := es[|es| - 1];
      RunBackedOff(ar, cfgA, cfgB, es[..|es| - 1]);
      RunsInRange(ar, cfgA, cfgB, es[..|es| - 1]);
      if e.atA { ActBackedOff(ar, s.a, s.b.net, e.act); } else { ActBackedOff(ar, s.b, s.a.net, e.act); }
    }
  }

  /** In every run, on wrapping or unbounded numbers and whatever arrives: the rto of a segment sent
      x times is at most the ceiling of x - 1 timeouts; within the limit it is at least 30 and less
      than half the clock's range. */
  lemma {:induction false} RunsBackOff(ar: Arith, cfgA: Config, cfgB: Config, es: seq<Event>, g: Seg)
    requires g in Run(ar, Init(cfgA, cfgB), es).a.k.sndBuf && g.xmit >= 1
    ensures g.rto <= Ceiling(Mode(cfgA), g.xmit - 1)
    ensures g.xmit - 1 <= Limit(Mode(cfgA)) ==> 30 <= g.rto < H32
  {
    RunBackedOff(ar, cfgA, cfgB, es);
    BackedOffMeans(cfgA, g);
  }

  lemma {:induction false} BackedOffMeans(cfg: Config, g: Seg)
    requires BackedOff(cfg, g) && g.xmit >= 1
    ensures g.rto <= Ceiling(Mode(cfg), g.xmit - 1)
    ensures g.xmit - 1 <= Limit(Mode(cfg)) ==> 30 <= g.rto < H32
  {
    if g.xmit - 1 <= Limit(Mode(cfg)) { LimitFits(Mode(cfg), g.xmit - 1); }
  }

  // ---- Whole histories ------------------------------------------------------------------

  /** Any flush of a segment whose rto is under the ceiling. */
  lemma {:induction false} MomentBounded(m: Moment, g: Seg, timeouts: nat)
    requires InRange(m.k) && g.rto <= Ceiling(Mode(m.k.cfg), timeouts)
    ensures var r := AtMoment(m, g);
            && r.rto <= Ceiling(Mode(m.k.cfg), timeouts + if DueAt(m, g).Timeout? then 1 else 0)
            && r.xmit <= g.xmit + 1 && (g.xmit + 1 < M32 ==> r.xmit >= Max(g.xmit, 1))
  {
    CeilingGrows(Mode(m.k.cfg), timeouts, timeouts);
    if DueAt(m, g).Timeout? { CeilingStep(m.k.cfg, g.rto, m.k.rtt.rto, timeouts); }
  }

  /** A segment first sent at the start of a history: its rto after any number of timeouts, whatever
      else happened to it.  (A history of 2^32 flushes can bring xmit back to 0.) */
  lemma {:induction false} BackoffBounded(cfg: Config, g: Seg, ms: seq<Moment>)
    requires g.xmit == 0 && History(cfg, ms) && ms != []
    ensures var r := After(g, ms);
            && r.rto <= Ceiling(Mode(cfg), Timeouts(g, ms))
            && r.xmit <= |ms| && (|ms| < M32 ==> r.xmit >= 1)
  {
    var n := |ms| - 1;
    assert ms[n] in ms;
    if n == 0 {
      assert ms[..0] == [];
      FirstFlush(ms[0], g);
    } else {
      assert forall m :: m in ms[..n] ==> m in ms;
      BackoffBounded(cfg, g, ms[..n]);
      MomentBounded(ms[n], After(g, ms[..n]), Timeouts(g, ms[..n]));
    }
  }

  /** Within the limit the rto is also at least 30. */
  lemma {:induction false} WithinLimit(cfg: Config, g: Seg, ms: seq<Moment>)
    requires g.xmit == 0 && History(cfg, ms) && ms != [] && |ms| < M32 && Timeouts(g, ms) <= Limit(Mode(cfg))
    ensures 30 <= After(g, ms).rto <= Ceiling(Mode(cfg), Timeouts(g, ms)) < H32
  {
    var n := |ms| - 1;
    assert ms[n] in ms;
    BackoffBounded(cfg, g, ms);
    LimitFits(Mode(cfg), Timeouts(g, ms));
    if n == 0 {
      assert ms[..0] == [];
      FirstFlush(ms[0], g);
    } else {
      assert forall m :: m in ms[..n] ==> m in ms;
      WithinLimit(cfg, g, ms[..n]);
      BackoffBounded(cfg, g, ms[..n]);
      var h := After(g, ms[..n]);
      OneFlush(ms[n].k, h.(fastack := ms[n].fastack));
      if DueAt(ms[n], h).Timeout? { LimitGrows(cfg, h.rto, ms[n].k.rtt.rto, Timeouts(g, ms[..n])); }
    }
  }

  // ---- Deadlines --------------------------------------------------------------------------

  /** Exactly when the deadline that a sending flush sets lies ahead of the clock, and when a timeout
      makes the rto grow, for any segment. */
  lemma {:induction false} AheadIff(m: Moment, h: Seg)
    requires InRange(m.k)
    ensures var r := AtMoment(m, h); var due := DueAt(m, h);
            && (!due.Quiet? ==>
                  (Itimediff(r.resendts, m.k.clock.current) > 0 <==> 0 < r.rto < H32)
                  && (0 < r.rto < H32 ==> Itimediff(r.resendts, m.k.clock.current) >= r.rto))
            && (due.Timeout? ==> (r.rto > h.rto <==> Grows(m.k.cfg, h.rto, m.k.rtt.rto)))
  {
    var r := AtMoment(m, h);
    var now := m.k.clock.current;
    if h.xmit == 0 {
      FirstFlush(m, h);
      DeadlineAhead(now, m.k.rtt.rto + if m.k.cfg.nodelay == 0 then m.k.rtt.rto / 8 else 0);
    } else if !DueAt(m, h).Quiet? {
      OneFlush(m.k, h.(fastack := m.fastack));
      DeadlineIs(now, r.rto);
      GrowsIff(m.k.cfg, h.rto, m.k.rtt.rto);
    }
  }

  lemma {:induction false} DeadlineIs(now: u32, wait: u32)
    ensures Itimediff(U32(now + wait), now) == I32(wait)
    ensures I32(wait) > 0 <==> 0 < wait < H32
    ensures wait < H32 ==> I32(wait) == wait
  {
    var q := U32Residue(now + wait);
    var p := I32Residue(wait);
    I32Of(U32(now + wait) - now, I32(wait), p - q);
    if wait < H32 { I32Small(wait); } else { I32Of(wait, wait - M32, 1); }
  }

  /** Within the limit every deadline lies ahead of the clock, and every timeout makes the rto grow. */
  lemma {:induction false} DeadlinesAhead(cfg: Config, g: Seg, ms: seq<Moment>)
    requires g.xmit == 0 && History(cfg, ms) && ms != [] && |ms| < M32 && Timeouts(g, ms) <= Limit(Mode(cfg))
    ensures var m := ms[|ms| - 1]; var h := After(g, ms[..|ms| - 1]); var r := AtMoment(m, h);
            && (!DueAt(m, h).Quiet? ==> Itimediff(r.resendts, m.k.clock.current) >= r.rto > 0)
            && (DueAt(m, h).Timeout? ==> r.rto > h.rto)
  {
    var n := |ms| - 1;
    var h := After(g, ms[..n]);
    assert ms[n] in ms;
    WithinLimit(cfg, g, ms);
    AheadIff(ms[n], h);
    if DueAt(ms[n], h).Timeout? {
      assert n > 0;
      assert forall m :: m in ms[..n] ==> m in ms;
      WithinLimit(cfg, g, ms[..n]);
      LimitGrows(cfg, h.rto, ms[n].k.rtt.rto, Timeouts(g, ms[..n]));
    }
  }
}
