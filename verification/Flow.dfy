/** Flow control.  The receiver's queues never exceed its window.  A sender stays within the
    receiver's window as long as the receive queue was never full; on a full queue a stale window
    advertisement can make it number segments beyond the window.  Over any run, everything ever sent
    is within the window exactly when no flush meets one condition on the two engines. */
module Flow {
  import opened Words
  import opened Engine
  import opened Scans
  import opened Network
  import opened Transport
  import opened Steps
  import opened Messages
  import opened Continuation

  // ---- The receiver ---------------------------------------------------------------------

  lemma {:induction false} Spread(buf: seq<Pkt>, lo: int, i: nat)
    requires SortedPkts(buf) && i < |buf| && forall p :: p in buf ==> lo <= p.sn
    ensures lo + i <= buf[i].sn
  {
    if i == 0 {
      assert buf[0] in buf;
    } else {
      Spread(buf, lo, i - 1);
    }
  }

  /** In every run both receive queues hold at most one window of segments. */
  lemma {:induction false} QueuesBounded(cfgA: Config, cfgB: Config, es: seq<Event>)
    requires cfgA.conv == cfgB.conv
    ensures var k := Run(Ideal, Init(cfgA, cfgB), es).b.k;
            |k.rcvQueue| <= cfgB.rcvWnd && |k.rcvBuf| <= cfgB.rcvWnd
  {
    OrderedRuns(cfgA, cfgB, es);
    var k := Run(Ideal, Init(cfgA, cfgB), es).b.k;
    if k.rcvBuf != [] {
      Spread(k.rcvBuf, k.rcvNxt, |k.rcvBuf| - 1);
      assert k.rcvBuf[|k.rcvBuf| - 1] in k.rcvBuf;
    }
  }

  // ---- The advertised window ------------------------------------------------------------

  /** No window above the peer's own was ever advertised. */
  ghost predicate WindowKnown(x: Endpoint, y: Endpoint) { x.k.rmtWnd <= y.k.cfg.rcvWnd }

  lemma {:induction false} InputWindow(k: Kcb, d: Datagram)
    ensures var m := InputAll(Ideal, k, d);
            m.rmtWnd == (if d == [] then k.rmtWnd else d[|d| - 1].wnd) && Input(Ideal, k, d).rmtWnd == m.rmtWnd
    decreases |d|
  {
    if d != [] {
      InputAcks(k, d[0]);
      InputWindow(InputPkt(Ideal, k, d[0]), d[1..]);
    }
  }

  lemma {:induction false} ActWindow(x: Endpoint, y: Endpoint, act: Act)
    requires Half(x, y) && Half(y, x) && WindowKnown(x, y)
    ensures WindowKnown(ActOn(Ideal, x, y.net, act), y)
  {
    match act {
      case Write(data) =>
      case Read(len) =>
        RecvShape(x.k, len);
        MoveReadyFrame(Ideal, x.k.(rcvQueue := x.k.rcvQueue[if len < 0 then 0 else MsgCount(x.k.rcvQueue)..]));
      case Drive(now) => FlushFrame(x.k.(clock := Tick(x.k.clock, x.k.cfg.interval, now).0));
      case FlushNow => FlushFrame(x.k);
      case Deliver(i) =>
        if i < |y.net| {
          var d := y.net[i];
          InputWindow(x.k, d);
          assert d in y.net && d[|d| - 1] in d;
          assert Emittable(y.k, y.hist, d[|d| - 1]);
        }
    }
  }

  lemma {:induction false} WindowRuns(s: Sys, es: seq<Event>)
    requires Ordered(s) && WindowKnown(s.a, s.b) && WindowKnown(s.b, s.a)
    ensures var s' := Run(Ideal, s, es); WindowKnown(s'.a, s'.b) && WindowKnown(s'.b, s'.a)
  {
    if es != [] {
      var s1 := Run(Ideal, s, es[..|es| - 1]);
      var e := es[|es| - 1];
      WindowRuns(s, es[..|es| - 1]);
      RunOrdered(s, es[..|es| - 1]);
      ActWindow(Near(s1, e.atA), Far(s1, e.atA), e.act);
      ActOk(Near(s1, e.atA), Far(s1, e.atA), e.act);
    }
  }

  // ---- The sender -----------------------------------------------------------------------

  /** Every number assigned so far is one that the receiver accepts. */
  ghost predicate WithinWindow(x: Endpoint, y: Endpoint) {
    x.k.sndNxt <= y.k.rcvNxt + y.k.cfg.rcvWnd
  }

  /** Some segment that this flush numbers lies beyond the receiver's window. */
  ghost predicate Overruns(k: Kcb, y: Endpoint) {
    exists p :: p in Emitted(Ideal, k) && p.cmd == CMD_PUSH && k.sndNxt <= p.sn && y.k.rcvNxt + y.k.cfg.rcvWnd <= p.sn
  }

  /** The newly numbered segments are exactly snd_nxt .. snd_nxt + n - 1, and all are sent. */
  lemma {:induction false} FreshSent(x: Endpoint, y: Endpoint, k: Kcb) returns (n: nat)
    requires Half(x, y) && Half(y, x) && k == x.k.(clock := k.clock) && k.clock.updated
    ensures n <= |k.sndQueue| && Engine.Flush(Ideal, k).k.sndNxt == k.sndNxt + n
    ensures n > 0 ==> k.sndNxt + n <= k.sndUna + EffWnd(k)
    ensures n < |k.sndQueue| ==> k.sndNxt + n >= k.sndUna + EffWnd(k)
    ensures forall p :: p in Emitted(Ideal, k) && p.cmd == CMD_PUSH ==> p.sn < k.sndNxt + n
    ensures n > 0 ==> exists p :: p in Emitted(Ideal, k) && p.cmd == CMD_PUSH && p.sn == k.sndNxt + n - 1
  {
    n := FillRun(Cleared(k), EffWnd(k));
    FlushParts(k);
    PushBelow(x, y, k);
    if n > 0 {
      var p := LastNew(k, n);
    }
  }

  lemma {:induction false} PushBelow(x: Endpoint, y: Endpoint, k: Kcb)
    requires Half(x, y) && Half(y, x) && k == x.k.(clock := k.clock) && k.clock.updated
    ensures forall p :: p in Emitted(Ideal, k) && p.cmd == CMD_PUSH ==> p.sn < Filled(Ideal, k).sndNxt
  {
    var n := FlushWritten(x, y, k);
    FilledNxt(x, y, k);
    forall p | p in Emitted(Ideal, k) && p.cmd == CMD_PUSH ensures p.sn < Filled(Ideal, k).sndNxt {
      assert WrittenNow(k, x.hist + k.sndQueue[..n], p);
      InFilled(x, y, k, p);
    }
  }

  lemma {:induction false} FilledNxt(x: Endpoint, y: Endpoint, k: Kcb)
    requires Half(x, y) && k == x.k.(clock := k.clock)
    ensures forall g :: g in Filled(Ideal, k).sndBuf ==> g.pkt.sn < Filled(Ideal, k).sndNxt
  {
    SenderOkSame(x.k, Cleared(k), x.hist, y.k);
    var n := FillOk(Cleared(k), x.hist, y.k, EffWnd(k));
  }

  /** Data packets come from the filled snd_buf. */
  lemma {:induction false} InFilled(x: Endpoint, y: Endpoint, k: Kcb, p: Pkt)
    requires Half(x, y) && k == x.k.(clock := k.clock) && k.clock.updated
    requires p in Emitted(Ideal, k) && p.cmd == CMD_PUSH
    ensures exists g :: g in Filled(Ideal, k).sndBuf && g.pkt.sn == p.sn
  {
    var i := SentAt(k, Filled(Ideal, k), p);
    assert Filled(Ideal, k).sndBuf[i] in Filled(Ideal, k).sndBuf;
  }

  lemma {:induction false} LastNew(k: Kcb, n: nat) returns (p: Pkt)
    requires k.clock.updated && 0 < n <= |k.sndQueue|
    requires Filled(Ideal, k).sndBuf ==
             k.sndBuf + NewSegs(DataHeader(Cleared(k)), k.rtt.rto, k.sndNxt, k.sndQueue, n)
    ensures p in Emitted(Ideal, k) && p.cmd == CMD_PUSH && p.sn == k.sndNxt + n - 1
  {
    var f := Filled(Ideal, k);
    NewSegsAt(DataHeader(Cleared(k)), k.rtt.rto, k.sndNxt, k.sndQueue, n);
    var i := |f.sndBuf| - 1;
    assert f.sndBuf[i] == NewSeg(DataHeader(Cleared(k)), k.rtt.rto, k.sndNxt + (n - 1), k.sndQueue[n - 1]);
    FlushDataAt(f, f.sndBuf);
    FlushSegSame(f, f.sndBuf[i]);
    p := FlushData(f, f.sndBuf).buf[i].pkt;
  }

  /** The effective window, counted from snd_una, and the data waiting both reach beyond the numbers
      that the receiver accepts and those already assigned. */
  ghost predicate Reaches(k: Kcb, y: Endpoint) {
    var limit := Max(y.k.rcvNxt + y.k.cfg.rcvWnd, k.sndNxt);
    k.sndUna + EffWnd(k) > limit && k.sndNxt + |k.sndQueue| > limit
  }

  /** Exactly when a flush numbers segments beyond the receiver's window. */
  lemma {:induction false} OverrunIff(x: Endpoint, y: Endpoint, k: Kcb)
    requires Half(x, y) && Half(y, x) && k == x.k.(clock := k.clock) && k.clock.updated
    ensures Overruns(k, y) <==> Reaches(k, y)
  {
    var n := FreshSent(x, y, k);
    var limit := Max(y.k.rcvNxt + y.k.cfg.rcvWnd, k.sndNxt);
    if n > 0 {
      var p :| p in Emitted(Ideal, k) && p.cmd == CMD_PUSH && p.sn == k.sndNxt + n - 1;
    }
  }

  /** Some segment that this flush sends, for the first time or again, is beyond the receiver's window. */
  ghost predicate SendsBeyond(k: Kcb, y: Endpoint) {
    exists p :: p in Emitted(Ideal, k) && p.cmd == CMD_PUSH && y.k.rcvNxt + y.k.cfg.rcvWnd <= p.sn
  }

  /** A segment beyond the receiver's window is in snd_buf and due. */
  ghost predicate ResendsBeyond(k: Kcb, y: Endpoint) {
    exists g :: g in k.sndBuf && y.k.rcvNxt + y.k.cfg.rcvWnd <= g.pkt.sn && !DueOf(k, g).Quiet?
  }

  /** Exactly when a flush sends anything beyond the window: new segments when the guard is met, old
      ones when they are there and due. */
  lemma {:induction false} SendsBeyondIff(x: Endpoint, y: Endpoint, k: Kcb)
    requires Half(x, y) && Half(y, x) && k == x.k.(clock := k.clock) && k.clock.updated
    ensures SendsBeyond(k, y) <==> Reaches(k, y) || ResendsBeyond(k, y)
  {
    OverrunIff(x, y, k);
    var f := Filled(Ideal, k);
    var n := FillRun(Cleared(k), EffWnd(k));
    NewSegsAt(DataHeader(Cleared(k)), k.rtt.rto, k.sndNxt, k.sndQueue, n);
    FillFrame(Ideal, Cleared(k), EffWnd(k));
    FlushDataAt(f, f.sndBuf);
    if SendsBeyond(k, y) {
      var p :| p in Emitted(Ideal, k) && p.cmd == CMD_PUSH && y.k.rcvNxt + y.k.cfg.rcvWnd <= p.sn;
      SentFrom(k, f, n, p);
    }
    if ResendsBeyond(k, y) {
      var g :| g in k.sndBuf && y.k.rcvNxt + y.k.cfg.rcvWnd <= g.pkt.sn && !DueOf(k, g).Quiet?;
      ResentFrom(x, k, f, g);
    }
  }

  /** The segment of the filled snd_buf that a data packet was sent from. */
  lemma {:induction false} SentAt(k: Kcb, f: Kcb, p: Pkt) returns (i: nat)
    requires k.clock.updated && f == Filled(Ideal, k) && p in Emitted(Ideal, k) && p.cmd == CMD_PUSH
    ensures i < |f.sndBuf| && f.sndBuf[i].pkt.sn == p.sn && !DueOf(f, f.sndBuf[i]).Quiet?
  {
    AckPktsOk(Header(k), k.acks);
    FlushDataAt(f, f.sndBuf);
    assert p in FlushData(f, f.sndBuf).pkts;
    i :| 0 <= i < |f.sndBuf| && p == FlushData(f, f.sndBuf).buf[i].pkt && !DueOf(f, f.sndBuf[i]).Quiet?;
    FlushSegSame(f, f.sndBuf[i]);
  }

  /** A data packet is sent because it is new, or because its segment in snd_buf is due. */
  lemma {:induction false} SentFrom(k: Kcb, f: Kcb, n: nat, p: Pkt)
    requires k.clock.updated && n <= |k.sndQueue| && f == Filled(Ideal, k) && f.cfg == k.cfg && f.clock == k.clock
    requires f.sndBuf == k.sndBuf + NewSegs(DataHeader(Cleared(k)), k.rtt.rto, k.sndNxt, k.sndQueue, n)
    requires p in Emitted(Ideal, k) && p.cmd == CMD_PUSH
    ensures k.sndNxt <= p.sn || exists g :: g in k.sndBuf && g.pkt.sn == p.sn && !DueOf(k, g).Quiet?
  {
    var i := SentAt(k, f, p);
    NewSegsAt(DataHeader(Cleared(k)), k.rtt.rto, k.sndNxt, k.sndQueue, n);
    if i < |k.sndBuf| {
      assert f.sndBuf[i] == k.sndBuf[i] && k.sndBuf[i] in k.sndBuf;
    } else {
      var j := i - |k.sndBuf|;
      assert f.sndBuf[i] == NewSeg(DataHeader(Cleared(k)), k.rtt.rto, k.sndNxt + j, k.sndQueue[j]);
    }
  }

  lemma {:induction false} ResentFrom(x: Endpoint, k: Kcb, f: Kcb, g: Seg)
    requires k.clock.updated && f == Filled(Ideal, k) && k.sndBuf <= f.sndBuf
    requires f.cfg == k.cfg && f.clock == k.clock && g in k.sndBuf && !DueOf(k, g).Quiet? && g.pkt.cmd == CMD_PUSH
    ensures exists p :: p in Emitted(Ideal, k) && p.cmd == CMD_PUSH && p.sn == g.pkt.sn
  {
    var i :| 0 <= i < |k.sndBuf| && k.sndBuf[i] == g;
    assert f.sndBuf[i] == g;
    FlushDataAt(f, f.sndBuf);
    FlushSegSame(f, g);
    var p := FlushData(f, f.sndBuf).buf[i].pkt;
    assert p in Emitted(Ideal, k);
  }

  /** It takes a full receive queue, and acknowledgements of segments not yet in it. */
  lemma {:induction false} OverrunNeedsFullQueue(x: Endpoint, y: Endpoint, k: Kcb)
    requires Half(x, y) && Half(y, x) && WindowKnown(x, y) && k == x.k.(clock := k.clock) && k.clock.updated
    requires Overruns(k, y)
    ensures |y.k.rcvQueue| == y.k.cfg.rcvWnd && WndUnused(y.k) == 0 && x.k.sndUna > y.k.rcvNxt
  {
    OverrunIff(x, y, k);
    if |y.k.rcvQueue| < y.k.cfg.rcvWnd { UnaBehind(x, y); }
  }

  // ---- Runs in which the receiver keeps up ------------------------------------------------

  /** B's receive queue is never full along the run. */
  ghost predicate NeverFull(s: Sys, es: seq<Event>) {
    |Run(Ideal, s, es).b.k.rcvQueue| < s.b.k.cfg.rcvWnd && (es != [] ==> NeverFull(s, es[..|es| - 1]))
  }

  lemma {:induction false} ActWithin(x: Endpoint, y: Endpoint, act: Act)
    requires Half(x, y) && Half(y, x) && WindowKnown(x, y) && WithinWindow(x, y)
    requires |y.k.rcvQueue| < y.k.cfg.rcvWnd
    ensures WithinWindow(ActOn(Ideal, x, y.net, act), y)
  {
    UnaBehind(x, y);
    match act {
      case Write(data) =>
      case Read(len) =>
        RecvShape(x.k, len);
        MoveReadyFrame(Ideal, x.k.(rcvQueue := x.k.rcvQueue[if len < 0 then 0 else MsgCount(x.k.rcvQueue)..]));
      case Drive(now) => FlushWithin(x.k.(clock := Tick(x.k.clock, x.k.cfg.interval, now).0));
      case FlushNow => FlushWithin(x.k);
      case Deliver(i) => if i < |y.net| { InputAllCfg(Ideal, x.k, y.net[i]); }
    }
  }

  lemma {:induction false} FlushWithin(k: Kcb)
    ensures var n := Engine.Flush(Ideal, k).k.sndNxt; n == k.sndNxt || n <= k.sndUna + k.rmtWnd
  {
    if k.clock.updated {
      var n := FillRun(Cleared(k), EffWnd(k));
      FlushParts(k);
    }
  }

  lemma {:induction false} WithinRuns(s: Sys, es: seq<Event>)
    requires Ordered(s) && WindowKnown(s.a, s.b) && WindowKnown(s.b, s.a) && WithinWindow(s.a, s.b) && NeverFull(s, es)
    ensures var s' := Run(Ideal, s, es); WithinWindow(s'.a, s'.b)
  {
    if es != [] {
      var s1 := Run(Ideal, s, es[..|es| - 1]);
      var e := es[|es| - 1];
      WithinRuns(s, es[..|es| - 1]);
      RunOrdered(s, es[..|es| - 1]);
      WindowRuns(s, es[..|es| - 1]);
      if e.atA {
        assert |s1.b.k.rcvQueue| < s.b.k.cfg.rcvWnd by { NeverFullAt(s, es[..|es| - 1]); }
        ActWithin(s1.a, s1.b, e.act);
      } else {
        ActOk(s1.b, s1.a, e.act);
      }
    }
  }

  lemma {:induction false} NeverFullAt(s: Sys, es: seq<Event>)
    requires NeverFull(s, es)
    ensures |Run(Ideal, s, es).b.k.rcvQueue| < s.b.k.cfg.rcvWnd
  {
  }

  /** While B keeps its queue below the window, every data packet ever sent by A, however late or
      reordered the window advertisements A acted on, is one B accepts now: it is never too far
      ahead. */
  lemma {:induction false} NothingTooFar(cfgA: Config, cfgB: Config, es: seq<Event>)
    requires cfgA.conv == cfgB.conv && NeverFull(Init(cfgA, cfgB), es)
    ensures var s := Run(Ideal, Init(cfgA, cfgB), es);
            forall d, p :: d in s.a.net && p in d && p.cmd == CMD_PUSH ==> p.sn < s.b.k.rcvNxt + cfgB.rcvWnd
  {
    InitOrdered(cfgA, cfgB);
    OrderedRuns(cfgA, cfgB, es);
    WithinRuns(Init(cfgA, cfgB), es);
    InWindow(Run(Ideal, Init(cfgA, cfgB), es));
  }

  // ---- Every run --------------------------------------------------------------------------

  predicate Flushes(k: Kcb, act: Act) {
    match act
    case Drive(now) => Tick(k.clock, k.cfg.interval, now).1
    case FlushNow => k.clock.updated
    case _ => false
  }

  /** The event makes A flush while its window and its data reach beyond B's window. */
  ghost predicate OverrunsAt(s: Sys, e: Event) { e.atA && Flushes(s.a.k, e.act) && Reaches(s.a.k, s.b) }

  /** Every data packet that A ever sent, first or again, is one that B's window covers now. */
  ghost predicate AllInWindow(s: Sys) {
    forall d, p :: d in s.a.net && p in d && p.cmd == CMD_PUSH ==> p.sn < s.b.k.rcvNxt + s.b.k.cfg.rcvWnd
  }

  lemma {:induction false} InWindow(s: Sys)
    requires Inv(s) && WithinWindow(s.a, s.b)
    ensures AllInWindow(s)
  {
    forall d, p | d in s.a.net && p in d && p.cmd == CMD_PUSH ensures p.sn < s.b.k.rcvNxt + s.b.k.cfg.rcvWnd {
      assert Emittable(s.a.k, s.a.hist, p);
    }
  }

  /** The state a flushing event flushes from. */
  function FlushFrom(k: Kcb, act: Act): Kcb {
    if act.Drive? then k.(clock := Tick(k.clock, k.cfg.interval, act.now).0) else k
  }

  lemma {:induction false} FlushEvent(x: Endpoint, peer: seq<Datagram>, act: Act)
    requires Flushes(x.k, act)
    ensures FlushFrom(x.k, act).clock.updated
    ensures ActOn(Ideal, x, peer, act) == Emit(x, Engine.Flush(Ideal, FlushFrom(x.k, act)))
  {
  }

  /** Without the guard a flush stays within the window. */
  lemma {:induction false} FlushStays(x: Endpoint, y: Endpoint, k: Kcb)
    requires Half(x, y) && Half(y, x) && k == x.k.(clock := k.clock) && k.clock.updated
    requires WithinWindow(x, y) && !Reaches(k, y)
    ensures WithinWindow(Emit(x, Engine.Flush(Ideal, k)), y)
  {
    OverrunIff(x, y, k);
    var n := FreshSent(x, y, k);
    if n > 0 {
      var p :| p in Emitted(Ideal, k) && p.cmd == CMD_PUSH && p.sn == k.sndNxt + n - 1;
    }
  }

  /** A's events that do not flush assign no numbers. */
  lemma {:induction false} NoFlush(x: Endpoint, y: Endpoint, act: Act)
    requires Half(x, y) && Half(y, x) && !Flushes(x.k, act)
    ensures ActOn(Ideal, x, y.net, act).k.sndNxt == x.k.sndNxt
  {
    match act {
      case Write(data) =>
      case Read(len) =>
        RecvShape(x.k, len);
        MoveReadyFrame(Ideal, x.k.(rcvQueue := x.k.rcvQueue[if len < 0 then 0 else MsgCount(x.k.rcvQueue)..]));
      case Drive(now) =>
      case FlushNow =>
      case Deliver(i) => if i < |y.net| { InputAllCfg(Ideal, x.k, y.net[i]); }
    }
  }

  lemma {:induction false} StepWithin(s: Sys, e: Event)
    requires Inv(s) && WithinWindow(s.a, s.b) && !OverrunsAt(s, e)
    ensures var s' := Step(Ideal, s, e); WithinWindow(s'.a, s'.b)
  {
    if !e.atA {
      ActOk(s.b, s.a, e.act);
    } else if Flushes(s.a.k, e.act) {
      FlushEvent(s.a, s.b.net, e.act);
      FlushStays(s.a, s.b, FlushFrom(s.a.k, e.act));
    } else {
      NoFlush(s.a, s.b, e.act);
    }
  }

  lemma {:induction false} StepBeyond(s: Sys, e: Event)
    requires Inv(s) && OverrunsAt(s, e)
    ensures !AllInWindow(Step(Ideal, s, e))
  {
    var k := FlushFrom(s.a.k, e.act);
    FlushEvent(s.a, s.b.net, e.act);
    OverrunIff(s.a, s.b, k);
    var p :| p in Emitted(Ideal, k) && p.cmd == CMD_PUSH && k.sndNxt <= p.sn
             && s.b.k.rcvNxt + s.b.k.cfg.rcvWnd <= p.sn;
    var j := PackHas(k.cfg.mtu, [], Emitted(Ideal, k), p);
    var d := Engine.Flush(Ideal, k).out[j];
    assert d in Step(Ideal, s, e).a.net && p in d;
  }

  lemma {:induction false} PrefixStep(s: Sys, es: seq<Event>, n: nat)
    requires n < |es|
    ensures Run(Ideal, s, es[..n + 1]) == Step(Ideal, Run(Ideal, s, es[..n]), es[n])
  {
    assert es[..n + 1][..n] == es[..n];
  }

  lemma {:induction false} WithinUpTo(s: Sys, es: seq<Event>, n: nat)
    requires Ordered(s) && WithinWindow(s.a, s.b) && n <= |es|
    requires forall m :: 0 <= m < n ==> !OverrunsAt(Run(Ideal, s, es[..m]), es[m])
    ensures var s' := Run(Ideal, s, es[..n]); WithinWindow(s'.a, s'.b)
  {
    if n > 0 {
      assert !OverrunsAt(Run(Ideal, s, es[..n - 1]), es[n - 1]);
      WithinUpTo(s, es, n - 1);
      WithinNext(s, es, n - 1);
    }
  }

  lemma {:induction false} WithinNext(s: Sys, es: seq<Event>, n: nat)
    requires Ordered(s) && n < |es| && !OverrunsAt(Run(Ideal, s, es[..n]), es[n])
    requires var s' := Run(Ideal, s, es[..n]); WithinWindow(s'.a, s'.b)
    ensures var s' := Run(Ideal, s, es[..n + 1]); WithinWindow(s'.a, s'.b)
  {
    RunOrdered(s, es[..n]);
    PrefixStep(s, es, n);
    StepWithin(Run(Ideal, s, es[..n]), es[n]);
  }

  /** Flow control, exactly: throughout a run every data packet ever sent by A is within B's window,
      retransmissions included, if and only if no flush of the run meets the guard. */
  lemma {:induction false} FlowControlIff(cfgA: Config, cfgB: Config, es: seq<Event>)
    requires cfgA.conv == cfgB.conv
    ensures var s := Init(cfgA, cfgB);
            (forall n :: 0 <= n <= |es| ==> AllInWindow(Run(Ideal, s, es[..n]))) <==>
            (forall n :: 0 <= n < |es| ==> !OverrunsAt(Run(Ideal, s, es[..n]), es[n]))
  {
    var s := Init(cfgA, cfgB);
    InitOrdered(cfgA, cfgB);
    if forall n :: 0 <= n < |es| ==> !OverrunsAt(Run(Ideal, s, es[..n]), es[n]) {
      forall n | 0 <= n <= |es| ensures AllInWindow(Run(Ideal, s, es[..n])) {
        WithinUpTo(s, es, n);
        RunOrdered(s, es[..n]);
        InWindow(Run(Ideal, s, es[..n]));
      }
    } else {
      var n :| 0 <= n < |es| && OverrunsAt(Run(Ideal, s, es[..n]), es[n]);
      RunOrdered(s, es[..n]);
      PrefixStep(s, es, n);
      StepBeyond(Run(Ideal, s, es[..n]), es[n]);
      assert !AllInWindow(Run(Ideal, s, es[..n + 1]));
    }
  }
}
