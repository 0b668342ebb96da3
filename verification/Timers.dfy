/** The flush timer: `ikcp_check` skips nothing, flush times keep to a grid of intervals as long as
    updates come in time, and the next flush is always within one interval of the clock, across
    wrap-around, except after one narrow range of stalls. */
module Timers {
  import opened Words
  import opened Engine

  lemma {:induction false} NearestPositive(buf: seq<Seg>, now: u32, tm: int)
    requires 0 < tm
    ensures 0 <= NearestResend(buf, now, tm) <= tm
    ensures NearestResend(buf, now, tm) == 0 <==>
              exists g :: g in buf && Itimediff(g.resendts, now) <= 0
    ensures NearestResend(buf, now, tm) > 0 ==>
              forall g :: g in buf ==> NearestResend(buf, now, tm) <= Itimediff(g.resendts, now)
  {
    if buf != [] {
      var diff := Itimediff(buf[0].resendts, now);
      if diff > 0 {
        NearestPositive(buf[1..], now, Min(diff, tm));
        assert forall g :: g in buf ==> g == buf[0] || g in buf[1..];
      } else {
        assert buf[0] in buf;
      }
    }
  }

  lemma {:induction false} WaitBack(now: u32, wait: u32)
    ensures U32(U32(now + wait) - now) == wait
  {
  }

  /** When something is left over below `top`, it is a resend deadline. */
  lemma {:induction false} NearestAttained(buf: seq<Seg>, now: u32, tm: int)
    requires 0 < NearestResend(buf, now, tm) < tm
    ensures exists g :: g in buf && Itimediff(g.resendts, now) == NearestResend(buf, now, tm)
  {
    if buf != [] {
      var diff := Itimediff(buf[0].resendts, now);
      assert buf[0] in buf && forall g :: g in buf[1..] ==> g in buf;
      if NearestResend(buf[1..], now, Min(diff, tm)) < Min(diff, tm) {
        NearestAttained(buf[1..], now, Min(diff, tm));
      } else {
        NearestPositive(buf[1..], now, Min(diff, tm));
      }
    }
  }

  /** Nothing needs an update before `wait` milliseconds have passed. */
  ghost predicate NothingBefore(s: Kcb, now: u32, wait: int) {
    && wait <= Itimediff(s.clock.tsFlush, now) && wait <= s.cfg.interval
    && forall g :: g in s.sndBuf ==> wait <= Itimediff(g.resendts, now)
  }

  /** Check waits exactly until the first of three things: the flush timer, a resend deadline, one
      interval.  It does not wait exactly when the engine was never updated, no flush is pending within
      ten seconds, or a deadline has passed. */
  lemma {:induction false} CheckIsEarly(s: Kcb, now: u32) returns (wait: u32)
    ensures wait == U32(Check(s, now) - now)
    ensures wait > 0 <==>
              && s.clock.updated && 0 < Itimediff(s.clock.tsFlush, now) <= 10000
              && forall g :: g in s.sndBuf ==> Itimediff(g.resendts, now) > 0
    ensures wait > 0 ==> forall w :: NothingBefore(s, now, w) <==> w <= wait
  {
    if s.clock.updated {
      wait := WaitIs(s, now);
    } else {
      wait := 0;
      assert Check(s, now) == now;
    }
  }

  lemma {:induction false} WaitIs(s: Kcb, now: u32) returns (wait: u32)
    requires s.clock.updated
    ensures wait == U32(Check(s, now) - now)
    ensures wait > 0 <==>
              && 0 < Itimediff(s.clock.tsFlush, now) <= 10000
              && forall g :: g in s.sndBuf ==> Itimediff(g.resendts, now) > 0
    ensures wait > 0 ==> forall w :: NothingBefore(s, now, w) <==> w <= wait
  {
    var slap := Itimediff(now, s.clock.tsFlush);
    if slap >= 0 || slap < -10000 {
      wait := 0;
    } else {
      Opposite(now, s.clock.tsFlush);
      var tm := NearestResend(s.sndBuf, now, 0x7fff_ffff);
      NearestPositive(s.sndBuf, now, 0x7fff_ffff);
      if tm == 0 {
        wait := 0;
      } else {
        U32Small(Min(tm, -slap));
        wait := Min(Min(tm, -slap), s.cfg.interval);
        WaitBack(now, wait);
        if tm < 0x7fff_ffff { NearestAttained(s.sndBuf, now, 0x7fff_ffff); }
      }
    }
  }

  lemma {:induction false} QuietTick(c: Clock, interval: u32, now: u32)
    requires c.updated && 0 < Itimediff(c.tsFlush, now) <= 10000
    ensures Tick(c, interval, now) == (Clock(now, c.tsFlush, true), false)
  {
    Opposite(c.tsFlush, now);
  }

  /** With nothing sent or received in between, an update at any time before the one returned by
      check only moves the clock. */
  lemma {:induction false} CheckSkipsNothing(ar: Arith, s: Kcb, now: u32, d: nat)
    requires s.clock.updated && d < U32(Check(s, now) - now)
    ensures Engine.Update(ar, s, U32(now + d)) == FlushOut(s.(clock := s.clock.(current := U32(now + d))), [])
  {
    var wait := CheckIsEarly(s, now);
    assert NothingBefore(s, now, wait);
    ShiftEarlier(s.clock.tsFlush, now, d);
    QuietTick(s.clock, s.cfg.interval, U32(now + d));
  }

  // ---- The flush timer ------------------------------------------------------------------

  /** The update comes at the flush time or less than one interval later. */
  predicate InTime(c: Clock, interval: u32, now: u32) {
    c.updated && 0 <= Itimediff(now, c.tsFlush) < interval
  }

  /** Where an update puts the flush time: one interval after the old flush time when it comes in time,
      one interval after itself when it flushes otherwise, and nowhere else when it does not flush. */
  lemma {:induction false} NextFlushTime(c: Clock, interval: u32, now: u32)
    requires 10 <= interval <= 5000
    ensures var (r, due) := Tick(c, interval, now);
            && r.current == now && r.updated
            && (InTime(c, interval, now) ==> due && r.tsFlush == U32(c.tsFlush + interval))
            && (due && !InTime(c, interval, now) ==> r.tsFlush == U32(now + interval))
            && (!due ==> c.updated && r.tsFlush == c.tsFlush)
  {
    I32Small(now - now);
    NextArmed(now, now, interval);
    if c.updated && 0 <= Itimediff(now, c.tsFlush) < 10000 { NextArmed(now, c.tsFlush, interval); }
    if !c.updated || !(0 <= Itimediff(now, c.tsFlush) < 10000) { LateFlushTime(c, interval, now); }
  }

  /** A first update, and one out of range. */
  lemma {:induction false} LateFlushTime(c: Clock, interval: u32, now: u32)
    requires 10 <= interval <= 5000 && !(c.updated && 0 <= Itimediff(now, c.tsFlush) < 10000)
    ensures var (r, due) := Tick(c, interval, now);
            r == Clock(now, if due then U32(now + interval) else c.tsFlush, true) && (!due ==> c.updated)
  {
    I32Small(now - now);
    NextArmed(now, now, interval);
    var next := U32(now + interval);
    Opposite(next, now);
  }

  /** The same for a whole update: flushing does not touch the clock. */
  lemma {:induction false} UpdateTimes(ar: Arith, s: Kcb, now: u32)
    ensures var c := s.clock; var r := Engine.Update(ar, s, now).k.clock;
            && r.current == now && r.updated
            && (InTime(c, s.cfg.interval, now) ==> r.tsFlush == U32(c.tsFlush + s.cfg.interval))
            && (c.updated && 0 < Itimediff(c.tsFlush, now) <= 10000 ==> r.tsFlush == c.tsFlush)
            && (!InTime(c, s.cfg.interval, now) && !(c.updated && 0 < Itimediff(c.tsFlush, now) <= 10000) ==>
                  r.tsFlush == U32(now + s.cfg.interval))
  {
    var s1 := s.(clock := Tick(s.clock, s.cfg.interval, now).0);
    NextFlushTime(s.clock, s.cfg.interval, now);
    FlushWhenDue(s.clock, s.cfg.interval, now);
    FillFrame(ar, Cleared(s1), EffWnd(s1));
  }

  /** The next flush is after now and at most one interval away. */
  ghost predicate Armed(c: Clock, interval: u32) {
    c.updated && 0 < Itimediff(c.tsFlush, c.current) <= interval
  }

  /** After any update the timer is armed, unless the clock landed more than an interval but at
      most ten seconds before the old flush time: exactly then it is left beyond the interval. */
  lemma {:induction false} ArmedIff(c: Clock, interval: u32, now: u32)
    requires 10 <= interval <= 5000
    ensures Armed(Tick(c, interval, now).0, interval) <==>
            !(c.updated && interval < Itimediff(c.tsFlush, now) <= 10000)
  {
    var flush := if c.updated then c.tsFlush else now;
    I32Small(now - now);
    NextArmed(now, now, interval);
    var slap := Itimediff(now, flush);
    if slap != -H32 { Opposite(now, flush); }
    if Itimediff(flush, now) != -H32 { Opposite(flush, now); }
    if 0 <= slap < 10000 { NextArmed(now, flush, interval); }
  }

  /** Where the next flush lands when it was due no more than ten seconds ago. */
  lemma {:induction false} NextArmed(now: u32, flush: u32, interval: u32)
    requires 10 <= interval <= 5000 && 0 <= Itimediff(now, flush) < 10000
    ensures var next := U32(flush + interval);
            && Itimediff(now, next) == Itimediff(now, flush) - interval
            && (Itimediff(now, next) < 0 ==> 0 < Itimediff(next, now) <= interval)
    ensures Itimediff(U32(now + interval), now) == interval
  {
    ShiftEarlier(now, flush, interval);
    I32Small(now - now);
    ShiftLater(now, now, interval);
    if Itimediff(now, U32(flush + interval)) < 0 { Opposite(now, U32(flush + interval)); }
  }

  lemma {:induction false} LeftAfter(flush: u32, current: u32, advance: nat)
    requires 0 < Itimediff(flush, current) <= 5000 && advance <= M32 - 10001
    ensures var left := Itimediff(flush, U32(current + advance));
            left <= Itimediff(flush, current) || left > 10000
  {
    var left := Itimediff(flush, current);
    if left - advance >= -H32 {
      ShiftEarlier(flush, current, advance);
    } else {
      ShiftEarlier(flush, current, advance - M32);
      assert U32(current + (advance - M32)) == U32(current + advance);
    }
  }

  /** On a monotone clock that means a stall of nearly 2^32 ms; any shorter advance is harmless. */
  lemma {:induction false} AdvanceArmed(c: Clock, interval: u32, advance: nat)
    requires 10 <= interval <= 5000 && Armed(c, interval) && advance <= M32 - 10001
    ensures Armed(Tick(c, interval, U32(c.current + advance)).0, interval)
  {
    ArmedIff(c, interval, U32(c.current + advance));
    LeftAfter(c.tsFlush, c.current, advance);
  }

  /** The stall that breaks it: an interval of 10 ms and an advance of 2^32 - 5000 ms. */
  lemma {:induction false} StallExample()
    ensures var c := Clock(0, 10, true); Armed(c, 10) && !Armed(Tick(c, 10, U32(M32 - 5000)).0, 10)
  {
    ArmedIff(Clock(0, 10, true), 10, U32(M32 - 5000));
  }

  function Ticks(c: Clock, interval: u32, advances: seq<nat>): Clock {
    if advances == [] then c
    else
      var c1 := Ticks(c, interval, advances[..|advances| - 1]);
      Tick(c1, interval, U32(c1.current + advances[|advances| - 1])).0
  }

  /** How many of some updates flush. */
  function FlushCount(c: Clock, interval: u32, advances: seq<nat>): nat {
    if advances == [] then 0
    else
      var n := |advances| - 1;
      var c1 := Ticks(c, interval, advances[..n]);
      FlushCount(c, interval, advances[..n]) + if Tick(c1, interval, U32(c1.current + advances[n])).1 then 1 else 0
  }

  /** Every update comes before the pending flush time, but not ten seconds before, or less than one
      interval after it. */
  ghost predicate Prompt(c: Clock, interval: u32, advances: seq<nat>) {
    advances != [] ==>
      var n := |advances| - 1;
      var c1 := Ticks(c, interval, advances[..n]);
      && Prompt(c, interval, advances[..n])
      && -10000 <= Itimediff(U32(c1.current + advances[n]), c1.tsFlush) < interval
  }

  /** The flush time k intervals after the first. */
  function Grid(first: u32, interval: u32, k: nat): u32 { U32(first + k * interval) }

  /** The flush times do not drift: while every update is prompt, the flush time pending after k flushes
      is the first one plus k intervals, however late within its interval each update came. */
  lemma {:induction false} NoDrift(c: Clock, interval: u32, advances: seq<nat>)
    requires 10 <= interval <= 5000 && c.updated && Prompt(c, interval, advances)
    ensures var r := Ticks(c, interval, advances);
            r.updated && r.tsFlush == Grid(c.tsFlush, interval, FlushCount(c, interval, advances))
  {
    if advances == [] {
      U32Small(c.tsFlush);
    } else {
      var n := |advances| - 1;
      var c1 := Ticks(c, interval, advances[..n]);
      NoDrift(c, interval, advances[..n]);
      StaysOnGrid(c1, interval, U32(c1.current + advances[n]), c.tsFlush, FlushCount(c, interval, advances[..n]));
    }
  }

  lemma {:induction false} StaysOnGrid(c: Clock, interval: u32, now: u32, first: u32, k: nat)
    requires 10 <= interval <= 5000 && c.updated && -10000 <= Itimediff(now, c.tsFlush) < interval
    requires c.tsFlush == Grid(first, interval, k)
    ensures var (r, due) := Tick(c, interval, now);
            r.updated && r.tsFlush == Grid(first, interval, if due then k + 1 else k)
  {
    NextFlushTime(c, interval, now);
    if Tick(c, interval, now).1 {
      DueInTime(c, interval, now);
      NextOnGrid(first, k, interval);
    }
  }

  lemma {:induction false} NextOnGrid(first: u32, k: nat, interval: u32)
    ensures U32(Grid(first, interval, k) + interval) == Grid(first, interval, k + 1)
  {
    U32Add(first + k * interval, interval);
    assert (k + 1) * interval == k * interval + interval;
  }

  /** A prompt update flushes only when it is in time. */
  lemma {:induction false} DueInTime(c: Clock, interval: u32, now: u32)
    requires c.updated && -10000 <= Itimediff(now, c.tsFlush) < interval && Tick(c, interval, now).1
    ensures InTime(c, interval, now)
  {
    FlushWhenDue(c, interval, now);
    Opposite(now, c.tsFlush);
  }

  lemma {:induction false} StaysArmed(c: Clock, interval: u32, advances: seq<nat>)
    requires 10 <= interval <= 5000 && Armed(c, interval)
    requires forall d :: d in advances ==> d <= M32 - 10001
    ensures Armed(Ticks(c, interval, advances), interval)
  {
    if advances != [] {
      var n := |advances| - 1;
      assert advances[n] in advances;
      assert forall d :: d in advances[..n] ==> d in advances;
      StaysArmed(c, interval, advances[..n]);
      AdvanceArmed(Ticks(c, interval, advances[..n]), interval, advances[n]);
    }
  }

  /** The first update, at any time, flushes and arms the timer; it stays armed over any sequence of
      updates on a monotone clock, over any number of wraps. */
  lemma {:induction false} AlwaysArmed(c: Clock, interval: u32, now: u32, advances: seq<nat>)
    requires 10 <= interval <= 5000 && !c.updated
    requires forall d :: d in advances ==> d <= M32 - 10001
    ensures Tick(c, interval, now).1
    ensures Armed(Ticks(Tick(c, interval, now).0, interval, advances), interval)
  {
    ArmedIff(c, interval, now);
    StaysArmed(Tick(c, interval, now).0, interval, advances);
  }

  /** Exactly when an update flushes: at the first one, and unless the flush time lies ahead by at most
      ten seconds. */
  lemma {:induction false} FlushWhenDue(c: Clock, interval: u32, now: u32)
    ensures Tick(c, interval, now).1 <==> !(c.updated && 0 < Itimediff(c.tsFlush, now) <= 10000)
  {
    I32Small(now - now);
  }

  lemma {:induction false} NearestAtLeast(buf: seq<Seg>, now: u32, tm: int, left: int)
    requires 0 < left <= tm
    ensures left <= NearestResend(buf, now, tm) <==> forall g :: g in buf ==> left <= Itimediff(g.resendts, now)
  {
    if buf != [] {
      var diff := Itimediff(buf[0].resendts, now);
      assert buf[0] in buf && forall g :: g in buf ==> g == buf[0] || g in buf[1..];
      if left <= diff { NearestAtLeast(buf[1..], now, Min(diff, tm), left); }
      if 0 < diff < left { NearestPositive(buf[1..], now, Min(diff, tm)); }
    }
  }

  /** Exactly when the update at the time that check returns flushes: when no flush is pending within
      ten seconds, or the pending one is within one interval and no resend deadline comes before it. */
  lemma {:induction false} FlushesAtCheck(s: Kcb, now: u32)
    ensures var left := Itimediff(s.clock.tsFlush, now);
            Tick(s.clock, s.cfg.interval, Check(s, now)).1 <==>
            (s.clock.updated && 0 < left <= 10000 ==>
               left <= s.cfg.interval && forall g :: g in s.sndBuf ==> left <= Itimediff(g.resendts, now))
  {
    var left := Itimediff(s.clock.tsFlush, now);
    var slap := Itimediff(now, s.clock.tsFlush);
    FlushWhenDue(s.clock, s.cfg.interval, Check(s, now));
    if slap != -H32 { Opposite(now, s.clock.tsFlush); }
    if left != -H32 { Opposite(s.clock.tsFlush, now); }
    if s.clock.updated && 0 < left <= 10000 {
      var tm := NearestResend(s.sndBuf, now, 0x7fff_ffff);
      NearestPositive(s.sndBuf, now, 0x7fff_ffff);
      NearestAtLeast(s.sndBuf, now, 0x7fff_ffff, left);
      var wait := if tm == 0 then 0 else Min(Min(tm, left), s.cfg.interval);
      WaitedTime(s, now, tm, left, wait);
      ShiftEarlier(s.clock.tsFlush, now, wait);
    }
  }

  lemma {:induction false} WaitedTime(s: Kcb, now: u32, tm: int, left: int, wait: int)
    requires s.clock.updated && 0 < left <= 10000 && left == Itimediff(s.clock.tsFlush, now)
    requires Itimediff(now, s.clock.tsFlush) == -left
    requires tm == NearestResend(s.sndBuf, now, 0x7fff_ffff) && 0 <= tm <= 0x7fff_ffff
    requires wait == if tm == 0 then 0 else Min(Min(tm, left), s.cfg.interval)
    ensures Check(s, now) == U32(now + wait)
  {
    if tm == 0 {
      U32Small(now);
    } else {
      U32Small(Min(tm, left));
    }
  }

  // ---- Driving an engine by updates alone -------------------------------------------------

  /** A time not before the last one at which an update flushes. */
  ghost predicate FlushesAt(c: Clock, interval: u32, now: u32) {
    Itimediff(now, c.current) >= 0 && Tick(c, interval, now).1
  }

  /** Now, or when the flush timer expires. */
  function Soon(c: Clock, interval: u32): u32 {
    if Tick(c, interval, c.current).1 then c.current else c.tsFlush
  }

  lemma {:induction false} SoonFlushes(c: Clock, interval: u32)
    ensures FlushesAt(c, interval, Soon(c, interval))
  {
    I32Small(0);
    FlushWhenDue(c, interval, c.current);
    FlushWhenDue(c, interval, c.tsFlush);
  }

  /** An update that flushes arms the timer. */
  lemma {:induction false} FlushArms(c: Clock, interval: u32, now: u32)
    requires 10 <= interval <= 5000 && Tick(c, interval, now).1
    ensures Armed(Tick(c, interval, now).0, interval)
  {
    FlushWhenDue(c, interval, now);
    ArmedIff(c, interval, now);
  }

  /** With the timer armed, the first flush at or after a deadline: when the timer expires, if that is
      late enough, and otherwise at the deadline. */
  function Reach(c: Clock, deadline: u32): u32 {
    if Itimediff(c.tsFlush, deadline) >= 0 then c.tsFlush else deadline
  }

  lemma {:induction false} ReachFlushes(c: Clock, interval: u32, deadline: u32)
    requires 10 <= interval <= 5000 && Armed(c, interval) && -H32 < Itimediff(c.current, deadline) < 0
    ensures FlushesAt(c, interval, Reach(c, deadline)) && Itimediff(Reach(c, deadline), deadline) >= 0
  {
    I32Small(0);
    Opposite(c.current, deadline);
    Triangle(c.tsFlush, deadline, c.current);
    FlushWhenDue(c, interval, c.tsFlush);
    FlushWhenDue(c, interval, deadline);
  }

  /** A deadline exactly half the clock's range away is less far at the next flush. */
  lemma {:induction false} FarFlushes(c: Clock, interval: u32, deadline: u32)
    requires 10 <= interval <= 5000 && Armed(c, interval) && Itimediff(c.current, deadline) == -H32
    ensures FlushesAt(c, interval, c.tsFlush) && -H32 < Itimediff(c.tsFlush, deadline) < 0
  {
    I32Small(0);
    var left := Itimediff(c.tsFlush, c.current);
    FlushWhenDue(c, interval, c.tsFlush);
    var q := I32Residue(c.current - deadline);
    var r := I32Residue(c.tsFlush - c.current);
    I32Of(c.tsFlush - deadline, left - H32, q + r);
  }
}
