/** The congestion window in 32-bit arithmetic: after the first flush cwnd >= 1, ssthresh >= 2 and
    `incr` stays within one segment of cwnd * mss; growth never wraps. */
module Congestion {
  import opened Words
  import opened Engine
  import opened Scans
  import opened Network
  import opened Transport
  import opened Steps
  import opened Messages

  /** Limits under which the products fit 32 bits.  With fastresend 0 the threshold used is
      0xffffffff, and adding it subtracts one. */
  ghost predicate Bounded(mss: int, resend: int) {
    1 <= mss <= 0xffff && 0 <= resend <= 0x8000
  }

  /** incr tracks cwnd * mss to within one segment. */
  ghost predicate Tracks(c: Cong, mss: int) {
    && 1 <= c.cwnd <= MAX_WND && 2 <= c.ssthresh
    && (c.cwnd - 1) * mss < c.incr < (c.cwnd + 1) * mss
  }

  /** The update of `ikcp_input` on unbounded integers. */
  function PlainGrow(c: Cong, mss: int, rmtWnd: int): (int, int)
    requires mss > 0
  {
    if c.cwnd >= rmtWnd then (c.cwnd, c.incr)
    else if c.cwnd < c.ssthresh then (c.cwnd + 1, c.incr + mss)
    else
      var base := Max(c.incr, mss);
      var incr := base + mss * mss / base + mss / 16;
      if (c.cwnd + 1) * mss <= incr then
        var cwnd := (incr + mss - 1) / mss;
        if cwnd > rmtWnd then (rmtWnd, rmtWnd * mss) else (cwnd, incr)
      else (c.cwnd, incr)
  }

  /** The additive term mss * mss / base, for base at least mss. */
  lemma {:induction false} Term(mss: int, base: int) returns (t: int)
    requires 1 <= mss <= base
    ensures t == mss * mss / base && 0 <= t <= mss && t * base <= mss * mss
  {
    t := mss * mss / base;
    assert mss * mss == t * base + mss * mss % base;
    if t < 0 { MulMono(t, -1, base); }
    assert (mss + 1) * base == mss * base + base;
    if t > mss {
      MulMono(mss + 1, t, base);
      MulMono(mss, base, mss);
    }
  }

  lemma {:induction false} CeilDiv(x: int, mss: int) returns (q: int)
    requires mss > 0 && x >= 0
    ensures q == (x + mss - 1) / mss && (q - 1) * mss < x <= q * mss
  {
    q := (x + mss - 1) / mss;
    assert x + mss - 1 == q * mss + (x + mss - 1) % mss;
    assert (q - 1) * mss == q * mss - mss;
  }

  /** How far one congestion-avoidance step can move incr: less than a segment and a half more
      than the bound it started from. */
  lemma {:induction false} AvoidBound(c: Cong, mss: int) returns (base: int, incr: int)
    requires Tracks(c, mss) && 1 <= mss <= 0xffff
    ensures base == Max(c.incr, mss) && incr == base + mss * mss / base + mss / 16
    ensures (c.cwnd - 1) * mss < incr && 2 * incr <= 2 * ((c.cwnd + 1) * mss) + mss + 2 * (mss / 16)
    ensures c.incr <= incr
  {
    base := Max(c.incr, mss);
    var t := Term(mss, base);
    incr := base + t + mss / 16;
    MulMono(1, c.cwnd, mss);
    Expand(c.cwnd, mss);
    AvoidTerm(c.cwnd, mss, base, t);
  }

  /** base + mss*mss/base stays below (cwnd+1)*mss + mss/2 when mss <= base <= (cwnd+1)*mss. */
  lemma {:induction false} AvoidTerm(cwnd: int, mss: int, base: int, t: int)
    requires 1 <= cwnd && 1 <= mss <= base <= (cwnd + 1) * mss && 0 <= t <= mss && t * base <= mss * mss
    ensures 2 * (base + t) <= 2 * ((cwnd + 1) * mss) + mss
  {
    var top := (cwnd + 1) * mss;
    if 2 * (base + t) > 2 * top + mss {
      // then t > mss/2, so base < 2*mss <= top and (top - base) < t - mss/2
      assert 2 * t > mss;
      MulMono(1, cwnd, mss);
      assert top >= 2 * mss;
      assert 2 * base > 4 * mss + mss - 2 * t;
      Quadratic(mss, base, t);
    }
  }

  lemma {:induction false} Quadratic(mss: int, base: int, t: int)
    requires 1 <= mss && 0 <= t <= mss && 2 * base > 5 * mss - 2 * t
    ensures t * base > mss * mss || 2 * t <= mss
  {
    if 2 * t > mss {
      var d := mss - t;
      // 2*base >= 3*mss + 2*d + 1 and t = mss - d with 0 <= 2*d < mss
      assert 2 * base >= 3 * mss + 2 * d + 1;
      MulMono(3 * mss + 2 * d + 1, 2 * base, t);
      assert (3 * mss + 2 * d + 1) * t == 3 * mss * t + 2 * d * t + t;
      assert 3 * mss * t == 3 * mss * mss - 3 * mss * d;
      assert 2 * d * t == 2 * d * mss - 2 * d * d;
      // 3m^2 - 3md + 2dm - 2d^2 + t > 2m^2  <==  m^2 >= md + 2d^2
      MulMono(2 * d, mss, d);
      MulMono(2 * d, mss, mss);
    }
  }

  lemma {:induction false} SmallProducts(a: int, m: int)
    requires 0 <= a <= 0xffff && 0 <= m <= 0xffff
    ensures 0 <= a * m <= 0xfffe_0001
  {
    MulMono(a, 0xffff, m);
    MulMono(m, 0xffff, 0xffff);
  }

  /** The avoidance step fits 32 bits: where incr is large the additive term is at most 1. */
  lemma {:induction false} NoWrap(c: Cong, mss: int, base: int, incr: int)
    requires Tracks(c, mss) && 1 <= mss <= 0xffff && c.cwnd + 1 <= 0xffff
    requires base == Max(c.incr, mss) && incr == base + mss * mss / base + mss / 16
    requires 0 <= mss * mss / base <= mss
    ensures U32(mss * mss) == mss * mss && U32((c.cwnd + 1) * mss) == (c.cwnd + 1) * mss
    ensures U32(base + mss * mss / base + mss / 16) == incr && U32(incr + mss - 1) == incr + mss - 1
  {
    SmallProducts(mss, mss);
    SmallProducts(c.cwnd + 1, mss);
    U32Small(mss * mss);
    U32Small((c.cwnd + 1) * mss);
    var t := mss * mss / base;
    if base >= H32 {
      assert mss * mss == t * base + mss * mss % base;
      if t >= 2 { MulMono(2, t, base); }
      assert t < 2;
    }
    U32Small(base + t + mss / 16);
    U32Small(incr + mss - 1);
  }

  lemma {:induction false} Expand(a: int, m: int)
    ensures (a + 1) * m == a * m + m && (a - 1) * m == a * m - m && (a + 2) * m == a * m + 2 * m
  {
  }

  lemma {:induction false} CapOk(rmtWnd: u16, mss: int)
    requires 1 <= mss <= 0xffff
    ensures U32(rmtWnd * mss) == rmtWnd * mss
    ensures (rmtWnd - 1) * mss < rmtWnd * mss < (rmtWnd + 1) * mss
  {
    SmallProducts(rmtWnd, mss);
    Expand(rmtWnd, mss);
  }

  /** Rounding incr up to whole segments raises cwnd by one or two. */
  lemma {:induction false} CeilRange(cwnd: int, mss: int, incr: int) returns (q: int)
    requires 1 <= cwnd && 1 <= mss
    requires (cwnd + 1) * mss <= incr && 2 * incr <= 2 * ((cwnd + 1) * mss) + mss + 2 * (mss / 16)
    ensures q == (incr + mss - 1) / mss && cwnd + 1 <= q <= cwnd + 2 && (q - 1) * mss < incr < (q + 1) * mss
  {
    Expand(cwnd, mss);
    MulMono(0, cwnd + 1, mss);
    q := CeilDiv(incr, mss);
    Expand(q, mss);
    if q > cwnd + 2 { MulMono(cwnd + 2, q - 1, mss); }
    if q < cwnd + 1 { MulMono(q, cwnd, mss); }
  }

  /** The avoidance branch in terms of its intermediate values. */
  function Avoid(c: Cong, rmtWnd: u16, incr: u32, need: u32, ceil: u32, cap: u32): Cong {
    if need > incr then c.(incr := incr)
    else if ceil > rmtWnd then c.(cwnd := rmtWnd, incr := cap)
    else c.(cwnd := ceil, incr := incr)
  }

  lemma {:induction false} GrowIsAvoid(c: Cong, mss: u32, rmtWnd: u16, incr: u32)
    requires mss > 0 && c.ssthresh <= c.cwnd < rmtWnd
    requires incr == U32(Max(c.incr, mss) + U32(mss * mss) / Max(c.incr, mss) + mss / 16)
    ensures Grow(c, mss, rmtWnd) ==
            Avoid(c, rmtWnd, incr, U32((c.cwnd + 1) * mss), U32(U32(incr + mss - 1) / mss), U32(rmtWnd * mss))
  {
  }

  lemma {:induction false} PlainIsAvoid(c: Cong, mss: u32, rmtWnd: u16, incr: u32, need: u32, ceil: u32, cap: u32)
    requires mss > 0 && c.ssthresh <= c.cwnd < rmtWnd
    requires incr == Max(c.incr, mss) + mss * mss / Max(c.incr, mss) + mss / 16
    requires need == (c.cwnd + 1) * mss && cap == rmtWnd * mss
    requires need <= incr ==> ceil == (incr + mss - 1) / mss
    ensures var r := Avoid(c, rmtWnd, incr, need, ceil, cap); (r.cwnd, r.incr) == PlainGrow(c, mss, rmtWnd)
  {
  }

  lemma {:induction false} AvoidTracks(c: Cong, mss: int, rmtWnd: u16, incr: u32, need: u32, ceil: u32, cap: u32)
    requires Tracks(c, mss) && c.cwnd < rmtWnd && need == (c.cwnd + 1) * mss && (c.cwnd - 1) * mss < incr
    requires need <= incr ==> c.cwnd + 1 <= ceil <= c.cwnd + 2 && (ceil - 1) * mss < incr < (ceil + 1) * mss
    requires (rmtWnd - 1) * mss < cap < (rmtWnd + 1) * mss
    ensures var r := Avoid(c, rmtWnd, incr, need, ceil, cap);
            Tracks(r, mss) && c.cwnd <= r.cwnd <= c.cwnd + 2 && r.ssthresh == c.ssthresh
  {
  }

  lemma {:induction false} AvoidOk(c: Cong, mss: u32, rmtWnd: u16)
    requires Tracks(c, mss) && 1 <= mss <= 0xffff && c.ssthresh <= c.cwnd < rmtWnd
    ensures var r := Grow(c, mss, rmtWnd);
            && Tracks(r, mss) && c.cwnd <= r.cwnd <= c.cwnd + 2 && r.ssthresh == c.ssthresh
            && (r.cwnd, r.incr) == PlainGrow(c, mss, rmtWnd)
  {
    var base, incr := AvoidBound(c, mss);
    var t := Term(mss, base);
    NoWrap(c, mss, base, incr);
    CapOk(rmtWnd, mss);
    var need := U32((c.cwnd + 1) * mss);
    var ceil := U32(U32(incr + mss - 1) / mss);
    var cap := U32(rmtWnd * mss);
    assert need == (c.cwnd + 1) * mss && cap == rmtWnd * mss;
    if need <= incr {
      var q := CeilRange(c.cwnd, mss, incr);
      U32Small(incr + mss - 1);
      U32Small(q);
      assert ceil == q;
    }
    GrowIsAvoid(c, mss, rmtWnd, incr);
    PlainIsAvoid(c, mss, rmtWnd, incr, need, ceil, cap);
    AvoidTracks(c, mss, rmtWnd, incr, need, ceil, cap);
  }

  lemma {:induction false} SlowStartIs(c: Cong, mss: u32, rmtWnd: u16)
    requires mss > 0 && c.cwnd < rmtWnd && c.cwnd < c.ssthresh
    ensures Grow(c, mss, rmtWnd) == c.(cwnd := c.cwnd + 1, incr := U32(c.incr + mss))
    ensures PlainGrow(c, mss, rmtWnd) == (c.cwnd + 1, c.incr + mss)
  {
  }

  lemma {:induction false} SlowTracks(c: Cong, mss: int)
    requires Tracks(c, mss) && 1 <= mss <= 0xffff && c.cwnd + 1 <= MAX_WND
    ensures c.incr + mss < M32 && Tracks(c.(cwnd := c.cwnd + 1, incr := U32(c.incr + mss)), mss)
  {
    var low := (c.cwnd - 1) * mss;
    var top := (c.cwnd + 1) * mss;
    Expand(c.cwnd, mss);
    SmallProducts(c.cwnd + 1, mss);
    assert low < c.incr < top <= 0xfffe_0001;
    U32Small(c.incr + mss);
    SlowStep(c.cwnd, mss, c.incr, low, top);
  }

  lemma {:induction false} SlowStep(cwnd: int, mss: int, incr: int, low: int, top: int)
    requires low == (cwnd - 1) * mss && top == (cwnd + 1) * mss && low < incr < top
    ensures (cwnd + 1 - 1) * mss < incr + mss < (cwnd + 1 + 1) * mss
  {
    Expand(cwnd, mss);
  }

  lemma {:induction false} SlowStartOk(c: Cong, mss: u32, rmtWnd: u16)
    requires Tracks(c, mss) && 1 <= mss <= 0xffff && c.cwnd < rmtWnd && c.cwnd < c.ssthresh
    ensures var r := Grow(c, mss, rmtWnd);
            && Tracks(r, mss) && c.cwnd <= r.cwnd <= c.cwnd + 2 && r.ssthresh == c.ssthresh
            && (r.cwnd, r.incr) == PlainGrow(c, mss, rmtWnd)
  {
    SlowStartIs(c, mss, rmtWnd);
    SlowTracks(c, mss);
    U32Small(c.incr + mss);
  }

  lemma {:induction false} NoGrowth(c: Cong, mss: u32, rmtWnd: u16)
    requires mss > 0 && c.cwnd >= rmtWnd
    ensures Grow(c, mss, rmtWnd) == c && PlainGrow(c, mss, rmtWnd) == (c.cwnd, c.incr)
  {
  }

  /** One `ikcp_input`: nothing wraps, cwnd never falls and rises by at most 2, incr tracks it. */
  lemma {:induction false} GrowOk(c: Cong, mss: u32, rmtWnd: u16)
    requires Tracks(c, mss) && 1 <= mss <= 0xffff
    ensures var r := Grow(c, mss, rmtWnd);
            && Tracks(r, mss) && c.cwnd <= r.cwnd <= c.cwnd + 2 && r.ssthresh == c.ssthresh
            && (r.cwnd, r.incr) == PlainGrow(c, mss, rmtWnd)
  {
    if c.cwnd >= rmtWnd {
      NoGrowth(c, mss, rmtWnd);
    } else if c.cwnd < c.ssthresh {
      SlowStartOk(c, mss, rmtWnd);
    } else {
      AvoidOk(c, mss, rmtWnd);
    }
  }

  /** What a fast resend adds to the threshold, in 32 bits. */
  function Added(cfg: Config): int { if cfg.fastresend > 0 then cfg.fastresend else -1 }

  lemma {:induction false} AddedIs(thresh: int, cfg: Config)
    requires 2 <= thresh <= 0x7fff && cfg.fastresend <= 0x8000
    ensures U32(thresh + cfg.Resent()) == thresh + Added(cfg)
  {
    if cfg.fastresend == 0 {
      assert thresh + cfg.Resent() == (thresh - 1) + M32;
    }
    U32Small(thresh + Added(cfg));
  }

  /** Cut on a fast resend alone. */
  lemma {:induction false} CutChange(c: Cong, cfg: Config, inflight: nat, wnd: u32, cwnd: int)
    requires Bounded(cfg.Mss(), cfg.fastresend) && inflight <= MAX_WND
    requires cwnd == Max(inflight / 2, THRESH_MIN) + Added(cfg)
    ensures 1 <= cwnd <= MAX_WND
    ensures Cut(c, cfg, inflight, wnd, true, false) == Cong(cwnd, Max(inflight / 2, THRESH_MIN), U32(cwnd * cfg.Mss()))
  {
    U32Small(inflight);
    AddedIs(Max(inflight / 2, THRESH_MIN), cfg);
  }

  lemma {:induction false} ChangeOk(c: Cong, cfg: Config, inflight: nat, wnd: u32)
    requires Bounded(cfg.Mss(), cfg.fastresend) && inflight <= MAX_WND
    ensures Tracks(Cut(c, cfg, inflight, wnd, true, false), cfg.Mss())
  {
    var cwnd := Max(inflight / 2, THRESH_MIN) + Added(cfg);
    CutChange(c, cfg, inflight, wnd, cwnd);
    SmallProducts(cwnd, cfg.Mss());
    Expand(cwnd, cfg.Mss());
  }

  lemma {:induction false} CutLost(c: Cong, cfg: Config, inflight: nat, wnd: u32, change: bool)
    requires 0 < cfg.Mss() < M32
    ensures Cut(c, cfg, inflight, wnd, change, true) == Cong(1, Max(wnd / 2, THRESH_MIN), cfg.Mss())
  {
  }

  /** One flush: whatever was lost or resent, cwnd >= 1, ssthresh >= 2 and incr tracks cwnd.  A fast
      resend alone puts cwnd at the threshold plus fastresend; the sum wraps exactly with fastresend 0,
      and then gives one less than the threshold. */
  lemma {:induction false} CutOk(c: Cong, cfg: Config, inflight: nat, wnd: u32, change: bool, lost: bool)
    requires Bounded(cfg.Mss(), cfg.fastresend) && inflight <= MAX_WND
    requires Tracks(c, cfg.Mss()) || c == Cong(0, THRESH_INIT, 0)
    ensures Tracks(Cut(c, cfg, inflight, wnd, change, lost), cfg.Mss())
    ensures change && !lost ==>
              var r := Cut(c, cfg, inflight, wnd, change, lost);
              r.cwnd == r.ssthresh + Added(cfg) && (r.ssthresh + cfg.Resent() < M32 <==> cfg.fastresend > 0)
  {
    Expand(1, cfg.Mss());
    if lost {
      CutLost(c, cfg, inflight, wnd, change);
    } else if change {
      ChangeOk(c, cfg, inflight, wnd);
      CutChange(c, cfg, inflight, wnd, Max(inflight / 2, THRESH_MIN) + Added(cfg));
    }
  }

  // ---- Every run ------------------------------------------------------------------------

  /** Nothing is in flight and cwnd is 0 until the first update; from then on cwnd is tracked.
      What is in flight never exceeds the greatest window that can be advertised. */
  ghost predicate CongOk(k: Kcb) {
    && 0 <= k.sndNxt - k.sndUna <= MAX_WND
    && (if k.clock.updated then Tracks(k.cong, k.cfg.Mss()) else k.cong == Cong(0, THRESH_INIT, 0) && k.sndNxt == 0)
  }

  lemma {:induction false} FlushCong(k: Kcb)
    requires k.clock.updated && Bounded(k.cfg.Mss(), k.cfg.fastresend) && 0 <= k.sndNxt - k.sndUna <= MAX_WND
    requires Tracks(k.cong, k.cfg.Mss()) || k.cong == Cong(0, THRESH_INIT, 0)
    ensures CongOk(Engine.Flush(Ideal, k).k)
  {
    var f := Filled(Ideal, k);
    var d := FlushData(f, f.sndBuf);
    FilledInflight(k);
    FlushFrame(k);
    FlushCongIs(k);
    CutOk(k.cong, k.cfg, f.sndNxt - f.sndUna, EffWnd(k), d.change > 0, d.lost > 0);
  }

  lemma {:induction false} FilledInflight(k: Kcb)
    requires k.clock.updated && 0 <= k.sndNxt - k.sndUna <= MAX_WND
    ensures var f := Filled(Ideal, k);
            0 <= f.sndNxt - f.sndUna <= MAX_WND && U32(f.sndNxt - f.sndUna) == f.sndNxt - f.sndUna
    ensures Engine.Flush(Ideal, k).k.sndNxt == Filled(Ideal, k).sndNxt
  {
    FillInflight(Cleared(k), EffWnd(k));
    WindowSmall(k);
    FlushParts(k);
  }

  lemma {:induction false} FillInflight(k: Kcb, wnd: int)
    ensures var f := Fill(Ideal, k, wnd);
            f.sndUna == k.sndUna && k.sndNxt <= f.sndNxt <= Max(k.sndNxt, k.sndUna + wnd)
  {
    var n := FillRun(k, wnd);
  }

  lemma {:induction false} WindowSmall(k: Kcb)
    ensures EffWnd(k) <= MAX_WND
  {
  }

  lemma {:induction false} FlushCongIs(k: Kcb)
    requires k.clock.updated
    ensures var f := Filled(Ideal, k); var d := FlushData(f, f.sndBuf);
            Engine.Flush(Ideal, k).k.cong ==
            Cut(f.cong, f.cfg, U32(f.sndNxt - f.sndUna), EffWnd(k), d.change > 0, d.lost > 0)
            && f.cong == k.cong && f.cfg == k.cfg && f.sndUna == k.sndUna
  {
    FillFrame(Ideal, Cleared(k), EffWnd(k));
  }

  lemma {:induction false} InputCong(x: Endpoint, y: Endpoint, d: Datagram)
    requires Half(x, y) && Half(y, x) && d in y.net && CongOk(x.k) && 1 <= x.k.cfg.Mss() <= 0xffff
    ensures var r := Input(Ideal, x.k, d);
            && CongOk(r) && x.k.cong.cwnd <= r.cong.cwnd <= x.k.cong.cwnd + 2
  {
    InputOk(x.k, x.hist, x.taken, y.k, y.hist, d);
    InputAllOk(x.k, x.hist, x.taken, y.k, y.hist, d);
    InputAllCfg(Ideal, x.k, d);
    InputCongIs(x.k, d);
    var m := InputAll(Ideal, x.k, d);
    if m.sndUna > x.k.sndUna {
      GrowOk(x.k.cong, x.k.cfg.Mss(), m.rmtWnd);
    }
  }

  lemma {:induction false} InputCongIs(k: Kcb, d: Datagram)
    ensures var m := InputAll(Ideal, k, d);
            Input(Ideal, k, d).cong ==
            if m.sndUna > k.sndUna then Grow(k.cong, k.cfg.Mss(), m.rmtWnd) else k.cong
  {
    InputAllCfg(Ideal, k, d);
  }

  lemma {:induction false} ReadCong(x: Endpoint, peer: seq<Datagram>, len: int)
    requires CongOk(x.k)
    ensures CongOk(ActOn(Ideal, x, peer, Read(len)).k)
  {
    RecvShape(x.k, len);
    MoveReadyFrame(Ideal, x.k.(rcvQueue := x.k.rcvQueue[if len < 0 then 0 else MsgCount(x.k.rcvQueue)..]));
  }

  lemma {:induction false} ActCong(x: Endpoint, y: Endpoint, act: Act)
    requires Half(x, y) && Half(y, x) && CongOk(x.k) && Bounded(x.k.cfg.Mss(), x.k.cfg.fastresend)
    ensures CongOk(ActOn(Ideal, x, y.net, act).k)
  {
    match act {
      case Write(data) =>
      case Read(len) => ReadCong(x, y.net, len);
      case Drive(now) => DriveCong(x.k, now);
      case FlushNow => if x.k.clock.updated { FlushCong(x.k); FlushFrame(x.k); }
      case Deliver(i) => if i < |y.net| { assert y.net[i] in y.net; InputCong(x, y, y.net[i]); }
    }
  }

  /** The first update always flushes. */
  lemma {:induction false} DriveCong(k: Kcb, now: u32)
    requires CongOk(k) && Bounded(k.cfg.Mss(), k.cfg.fastresend)
    ensures CongOk(Engine.Update(Ideal, k, now).k)
  {
    var tick := Tick(k.clock, k.cfg.interval, now);
    if tick.1 {
      FlushCong(k.(clock := tick.0));
    }
  }

  /** In every run the congestion state of both engines stays within its bounds. */
  lemma {:induction false} CongestionRuns(s: Sys, es: seq<Event>)
    requires Ordered(s) && CongOk(s.a.k) && CongOk(s.b.k)
    requires Bounded(s.a.k.cfg.Mss(), s.a.k.cfg.fastresend) && Bounded(s.b.k.cfg.Mss(), s.b.k.cfg.fastresend)
    ensures var s' := Run(Ideal, s, es); CongOk(s'.a.k) && CongOk(s'.b.k)
  {
    if es != [] {
      var s1 := Run(Ideal, s, es[..|es| - 1]);
      var e := es[|es| - 1];
      CongestionRuns(s, es[..|es| - 1]);
      RunOrdered(s, es[..|es| - 1]);
      if e.atA { ActCong(s1.a, s1.b, e.act); } else { ActCong(s1.b, s1.a, e.act); }
    }
  }

  lemma {:induction false} CongestionBounded(cfgA: Config, cfgB: Config, es: seq<Event>)
    requires cfgA.conv == cfgB.conv && Bounded(cfgA.Mss(), cfgA.fastresend) && Bounded(cfgB.Mss(), cfgB.fastresend)
    ensures var k := Run(Ideal, Init(cfgA, cfgB), es).a.k;
            && k.sndNxt - k.sndUna <= MAX_WND
            && (k.clock.updated ==>
                  1 <= k.cong.cwnd <= MAX_WND && 2 <= k.cong.ssthresh
                  && (k.cong.cwnd - 1) * cfgA.Mss() < k.cong.incr < (k.cong.cwnd + 1) * cfgA.Mss())
  {
    InitOrdered(cfgA, cfgB);
    CongestionRuns(Init(cfgA, cfgB), es);
    OrderedRuns(cfgA, cfgB, es);
  }
}
