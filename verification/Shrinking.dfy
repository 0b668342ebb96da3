/** A run in which the backoff wraps: nothing ever arrives, the oldest segment times out again and
    again, its 24th timeout sets a deadline that has already passed, and its 25th makes its rto
    shrink. */
module Shrinking {
  import opened Words
  import opened Engine
  import opened Network
  import opened Steps
  import opened Continuation
  import opened Progress
  import opened Timers
  import opened Backoff
  import opened Overrun

  /** A flush when the oldest segment has timed out. */
  lemma {:induction false} HeadExpires(k: Kcb)
    requires k.clock.updated && k.sndBuf != [] && k.sndBuf[0].xmit >= 1
    requires Itimediff(k.clock.current, k.sndBuf[0].resendts) >= 0
    ensures var g := k.sndBuf[0]; var r := Engine.Flush(Ideal, k).k;
            && r.sndBuf != [] && r.cfg == k.cfg && r.rtt == k.rtt && r.clock == k.clock
            && r.sndBuf[0].xmit == U32(g.xmit + 1) && r.sndBuf[0].rto == BackoffRto(k.cfg, g.rto, k.rtt.rto)
            && r.sndBuf[0].resendts == U32(k.clock.current + r.sndBuf[0].rto)
  {
    FlushHeadIs(k);
    FlushFrame(k);
    var f := Filled(Ideal, k);
    assert f.sndBuf[0] == k.sndBuf[0];
    assert DueOf(f, k.sndBuf[0]).Timeout?;
    OneFlush(f, k.sndBuf[0]);
  }

  /** A has just sent its oldest segment, for the first time or after n timeouts; the next timeout is
      `wait` ms ahead. */
  ghost predicate JustSent(k: Kcb, n: nat, rto: int, wait: int) {
    && k.cfg == CFG && k.rtt.rto == 200 && k.sndBuf != [] && Armed(k.clock, k.cfg.interval)
    && k.sndBuf[0].xmit == n + 1 && k.sndBuf[0].rto == rto && k.sndBuf[0].resendts == U32(k.clock.current + wait)
  }

  lemma {:induction false} SentAgain(k: Kcb, n: nat, rto: u32)
    requires k.cfg == CFG && k.rtt.rto == 200 && Armed(k.clock, k.cfg.interval) && n + 2 < M32
    requires k.sndBuf != [] && k.sndBuf[0].xmit == n + 1 && k.sndBuf[0].rto == rto
    requires Itimediff(k.clock.current, k.sndBuf[0].resendts) >= 0
    ensures var r := BackoffRto(CFG, rto, 200); JustSent(Engine.Flush(Ideal, k).k, n + 1, r, r)
  {
    HeadExpires(k);
    U32Small(n + 2);
  }

  /** A flushes at a time when that segment has timed out. */
  lemma {:induction false} ExpireAt(s: Sys, now: u32, n: nat, rto: u32, wait: u32) returns (es: seq<Event>)
    requires JustSent(s.a.k, n, rto, wait) && n + 2 < M32 && FlushesAt(s.a.k.clock, s.a.k.cfg.interval, now)
    requires Itimediff(now, s.a.k.sndBuf[0].resendts) >= 0
    ensures Cont(s, es)
    ensures var r := BackoffRto(CFG, rto, 200); JustSent(Run(Ideal, s, es).a.k, n + 1, r, r)
  {
    var k;
    es, k := FlushAt(s, true, now);
    SentAgain(k, n, rto);
  }

  lemma {:induction false} WaitIs(k: Kcb, n: nat, rto: int, wait: int)
    requires JustSent(k, n, rto, wait) && 0 <= wait < M32
    ensures 0 < wait < H32 ==> Itimediff(k.clock.current, k.sndBuf[0].resendts) == -wait
    ensures wait > H32 ==> Itimediff(k.clock.current, k.sndBuf[0].resendts) == M32 - wait
  {
    DeadlineIs(k.clock.current, wait);
    if 0 < wait < H32 {
      Opposite(k.sndBuf[0].resendts, k.clock.current);
    } else if wait > H32 {
      I32Of(wait, wait - M32, 1);
      Opposite(k.sndBuf[0].resendts, k.clock.current);
    }
  }

  /** One more timeout, while the deadline lies ahead. */
  lemma {:induction false} Expire(s: Sys, n: nat, rto: u32, wait: u32) returns (es: seq<Event>)
    requires JustSent(s.a.k, n, rto, wait) && n + 2 < M32 && 0 < wait < H32
    ensures Cont(s, es)
    ensures var r := BackoffRto(CFG, rto, 200); JustSent(Run(Ideal, s, es).a.k, n + 1, r, r)
  {
    var deadline := s.a.k.sndBuf[0].resendts;
    WaitIs(s.a.k, n, rto, wait);
    ReachFlushes(s.a.k.clock, s.a.k.cfg.interval, deadline);
    es := ExpireAt(s, Reach(s.a.k.clock, deadline), n, rto, wait);
  }

  lemma {:induction false} PowTwo(n: nat)
    ensures Pow(2, 24) == 16777216 && Pow(2, n + 1) == 2 * Pow(2, n) && Pow(2, n) >= 1
    ensures n <= 23 ==> Pow(2, n) <= 8388608
  {
    assert Pow(2, 8) == 256;
    assert Pow(2, 16) == 65536;
    assert Pow(2, 23) == 8388608;
    PowGrows(n);
    if n <= 23 { PowUpTo(n, 23); }
  }

  lemma {:induction false} PowGrows(n: nat)
    ensures Pow(2, n) >= 1
  {
    if n > 0 { PowGrows(n - 1); }
  }

  lemma {:induction false} PowUpTo(m: nat, n: nat)
    requires m <= n
    ensures Pow(2, m) <= Pow(2, n)
  {
    PowGrows(n);
    if m < n {
      PowUpTo(m, n - 1);
      PowGrows(n - 1);
    }
  }

  /** The rto after n timeouts. */
  function RtoAfter(n: nat): int { 200 * Pow(2, n) }

  lemma {:induction false} RtoAfterIs(n: nat)
    ensures RtoAfter(24) == 3355443200
    ensures n <= 23 ==> 200 <= RtoAfter(n) < H32 && RtoAfter(n + 1) == 2 * RtoAfter(n)
  {
    PowTwo(n);
  }

  /** The rto doubles until it no longer fits half the clock's range. */
  lemma {:induction false} ExpireUpTo24(s: Sys, n: nat, rto: int, wait: int) returns (es: seq<Event>)
    requires n <= 24 && rto == RtoAfter(n) && JustSent(s.a.k, n, rto, wait) && wait == if n == 0 then 225 else rto
    ensures Cont(s, es) && JustSent(Run(Ideal, s, es).a.k, 24, 3355443200, 3355443200)
    decreases 24 - n
  {
    RtoAfterIs(n);
    if n == 24 {
      es := [];
      assert Run(Ideal, s, []) == s;
    } else {
      Doubles(rto);
      var e1 := Expire(s, n, rto, wait);
      var e2 := ExpireUpTo24(Run(Ideal, s, e1), n + 1, 2 * rto, 2 * rto);
      ContThen(s, e1, e2);
      es := e1 + e2;
    }
  }

  lemma {:induction false} Doubles(rto: u32)
    requires 200 <= rto < H32
    ensures BackoffRto(CFG, rto, 200) == 2 * rto
  {
    BackoffIs(CFG, rto, 200);
    U32Small(2 * rto);
  }

  lemma {:induction false} Halves()
    ensures BackoffRto(CFG, 3355443200, 200) == 2415919104
  {
    BackoffIs(CFG, 3355443200, 200);
    WrapsTo(2 * 3355443200);
  }

  lemma {:induction false} SentFirst(k: Kcb)
    requires k.cfg == CFG && k.sndBuf == [] && k.sndQueue != [] && k.sndUna == k.sndNxt && k.rmtWnd == 128
    requires k.rtt.rto == 200 && k.clock.updated && Armed(k.clock, k.cfg.interval)
    ensures JustSent(Engine.Flush(Ideal, k).k, 0, 200, 225)
  {
    assert EffWnd(k) == 128;
    NewHead(k);
    FlushFrame(k);
  }

  /** A's first write and flush, on a new engine. */
  lemma {:induction false} FirstSent(s: Sys) returns (es: seq<Event>)
    requires s.a.k.cfg == CFG && s.a.k.sndBuf == [] && s.a.k.sndUna == s.a.k.sndNxt && s.a.k.rmtWnd == 128
    requires s.a.k.rtt.rto == 200
    ensures Fair(s, es) && JustSent(Run(Ideal, s, es).a.k, 0, 200, 225)
  {
    var e1 := Writes(s, true, 1);
    var s1 := Run(Ideal, s, e1);
    SoonFlushes(s1.a.k.clock, s1.a.k.cfg.interval);
    var e2, k := FlushAt(s1, true, Soon(s1.a.k.clock, s1.a.k.cfg.interval));
    SentFirst(k);
    FairThen(s, e1, e2);
    es := e1 + e2;
  }

  ghost predicate Head(k: Kcb, xmit: u32, rto: u32) {
    k.sndBuf != [] && k.sndBuf[0].xmit == xmit && k.sndBuf[0].rto == rto
  }

  /** The state after 24 timeouts: the deadline has passed, and any flush is another timeout. */
  lemma {:induction false} Overdue(s: Sys) returns (fs: seq<Event>)
    requires JustSent(s.a.k, 24, 3355443200, 3355443200)
    ensures Cont(s, fs)
    ensures Head(s.a.k, 25, 3355443200) && Itimediff(s.a.k.sndBuf[0].resendts, s.a.k.clock.current) < 0
    ensures Head(Run(Ideal, s, fs).a.k, 26, 2415919104)
  {
    var deadline, current := s.a.k.sndBuf[0].resendts, s.a.k.clock.current;
    WaitIs(s.a.k, 24, 3355443200, 3355443200);
    Opposite(current, deadline);
    var now := s.a.k.clock.tsFlush;
    I32Small(0);
    FlushWhenDue(s.a.k.clock, s.a.k.cfg.interval, now);
    Opposite(now, current);
    Triangle(now, deadline, current);
    fs := ExpireAt(s, now, 24, 3355443200, 3355443200);
    Halves();
  }

  /** A fair run, on a new engine with default timing, after which the deadline set last has passed
      already; a continuation by updates makes the rto of that segment shrink. */
  lemma {:induction false} RtoShrinks() returns (es: seq<Event>, fs: seq<Event>)
    ensures Fair(Init(CFG, CFG), es)
    ensures var s := Run(Ideal, Init(CFG, CFG), es);
            && Head(s.a.k, 25, 3355443200) && Itimediff(s.a.k.sndBuf[0].resendts, s.a.k.clock.current) < 0
            && Cont(s, fs) && Head(Run(Ideal, s, fs).a.k, 26, 2415919104)
  {
    var s0 := Init(CFG, CFG);
    var e1 := FirstSent(s0);
    var s1 := Run(Ideal, s0, e1);
    assert RtoAfter(0) == 200;
    var e2 := ExpireUpTo24(s1, 0, 200, 225);
    FairThen(s0, e1, e2);
    es := e1 + e2;
    fs := Overdue(Run(Ideal, s0, es));
  }
}
