/** Where the documentation promises more than the code does: the exact condition under which the
    promise holds, and a run in which it does not. */
module Documented {
  import opened Words
  import opened Engine
  import opened Scans
  import opened Network
  import opened Transport
  import opened Steps
  import opened Messages
  import opened Continuation
  import opened Progress
  import opened Serial
  import opened Stream
  import ByteNetwork
  import Conservation
  import Overrun
  import Timers

  /** Both sides of the example runs: default sizes, no congestion window. */
  function Plain(sndWnd: u32, stream: bool): Config
    requires 1 <= sndWnd
  {
    Settings(0, 1400, sndWnd, 128, 100, 0, 0, 5, true, stream)
  }

  // ---- check ------------------------------------------------------------------------------

  /** The first update sends the segment that is waiting; with the timeout of a new engine it is due
      again at 225. */
  lemma {:induction false} SentAtZero(k: Kcb)
    requires k.cfg == Overrun.CFG && k.sndBuf == [] && k.sndQueue != [] && k.sndUna == k.sndNxt
    requires k.rmtWnd == 128 && k.rtt.rto == 200 && !k.clock.updated
    ensures var r := Engine.Update(Ideal, k, 0).k;
            && r.clock == Clock(0, 100, true) && r.cfg == Overrun.CFG && r.sndBuf != []
            && r.sndBuf[0].xmit == 1 && r.sndBuf[0].fastack == 0 && r.sndBuf[0].resendts == 225
  {
    var k1 := k.(clock := Clock(0, 100, true));
    assert Tick(k.clock, 100, 0) == (Clock(0, 100, true), true);
    assert EffWnd(k1) == 128;
    UpdateIs(k, 0, k1);
    NewHead(k1);
    FlushFrame(k1);
  }

  lemma {:induction false} UpdateIs(k: Kcb, now: u32, k1: Kcb)
    requires Tick(k.clock, k.cfg.interval, now) == (k1.clock, true) && k1 == k.(clock := k1.clock)
    ensures Engine.Update(Ideal, k, now) == Engine.Flush(Ideal, k1)
  {
  }

  /** The update at 200 leaves it alone, and will flush again at 300. */
  lemma {:induction false} QuietAt200(k: Kcb)
    requires k.clock == Clock(0, 100, true) && k.cfg == Overrun.CFG && k.sndBuf != []
    requires k.sndBuf[0].xmit == 1 && k.sndBuf[0].fastack == 0 && k.sndBuf[0].resendts == 225
    ensures var r := Engine.Update(Ideal, k, 200).k;
            r.clock == Clock(200, 300, true) && r.cfg == Overrun.CFG && r.sndBuf != [] && r.sndBuf[0].resendts == 225
  {
    var k1 := k.(clock := Clock(200, 300, true));
    assert Tick(k.clock, 100, 200) == (Clock(200, 300, true), true);
    assert DueOf(k1, k.sndBuf[0]).Quiet?;
    HeadStays(k1);
    FlushFrame(k1);
  }

  lemma {:induction false} RunOf(s: Sys, es: seq<Event>, e: Event)
    ensures Run(Ideal, s, es + [e]) == Step(Ideal, Run(Ideal, s, es), e)
    ensures ClockRun(Ideal, s, es) && Onward(Near(Run(Ideal, s, es), e.atA).k, e.act) ==>
              ClockRun(Ideal, s, es + [e])
  {
    assert (es + [e])[..|es|] == es;
  }

  lemma {:induction false} ThreeSteps(s: Sys, e1: Event, e2: Event, e3: Event, s1: Sys, s2: Sys, s3: Sys)
    requires s1 == Step(Ideal, s, e1) && s2 == Step(Ideal, s1, e2) && s3 == Step(Ideal, s2, e3)
    requires Onward(Near(s, e1.atA).k, e1.act) && Onward(Near(s1, e2.atA).k, e2.act)
    requires Onward(Near(s2, e3.atA).k, e3.act)
    ensures Run(Ideal, s, [e1, e2, e3]) == s3 && ClockRun(Ideal, s, [e1, e2, e3])
  {
    RunOf(s, [], e1);
    RunOf(s, [e1], e2);
    RunOf(s, [e1, e2], e3);
    assert [] + [e1] == [e1] && [e1] + [e2] == [e1, e2] && [e1, e2] + [e3] == [e1, e2, e3];
  }

  /** A writes one byte at 0 and updates at 0 and at 200. */
  lemma {:induction false} CheckRunFrom(s: Sys) returns (es: seq<Event>)
    requires s.a.k.cfg == Overrun.CFG && s.a.k.sndBuf == [] && s.a.k.sndUna == s.a.k.sndNxt && s.a.k.rmtWnd == 128
    requires s.a.k.rtt.rto == 200 && !s.a.k.clock.updated && s.a.k.clock.current == 0
    ensures ClockRun(Ideal, s, es)
    ensures var k := Run(Ideal, s, es).a.k;
            && k.clock == Clock(200, 300, true) && k.cfg == Overrun.CFG
            && k.sndBuf != [] && k.sndBuf[0].resendts == 225
  {
    var e1, e2, e3 := Event(true, Write([0])), Event(true, Drive(0)), Event(true, Drive(200));
    es := [e1, e2, e3];
    var s1 := Step(Ideal, s, e1);
    Overrun.OneByte(s.a.k);
    var s2 := Step(Ideal, s1, e2);
    SentAtZero(s1.a.k);
    var s3 := Step(Ideal, s2, e3);
    QuietAt200(s2.a.k);
    ThreeSteps(s, e1, e2, e3, s1, s2, s3);
  }

  /** `ikcp_check` returns a time at which `ikcp_update` does not flush. */
  lemma {:induction false} CheckTooEarly() returns (es: seq<Event>, now: u32)
    ensures ClockRun(Ideal, Init(Overrun.CFG, Overrun.CFG), es)
    ensures var k := Run(Ideal, Init(Overrun.CFG, Overrun.CFG), es).a.k;
            now == k.clock.current && !Tick(k.clock, k.cfg.interval, Check(k, now)).1
  {
    es := CheckRunFrom(Init(Overrun.CFG, Overrun.CFG));
    now := 200;
    var k := Run(Ideal, Init(Overrun.CFG, Overrun.CFG), es).a.k;
    Timers.FlushesAtCheck(k, now);
    assert k.sndBuf[0] in k.sndBuf;
  }

  // ---- send -------------------------------------------------------------------------------

  /** What `Kcp::send` reports: the whole length for any result that is not an error. */
  function Reported(ret: int, len: nat): int { if ret < 0 then ret else len }

  /** The report is the number of bytes accepted, except when some bytes could be merged into the last
      segment and the others need too many fragments. */
  lemma {:induction false} ReportExactIff(k: Kcb, data: seq<byte>)
    ensures var ext := Conservation.Joined(k, |data|); var ret := Engine.Send(k, data).ret;
            Reported(ret, |data|) == ret <==> !(ext > 0 && Conservation.Segments(k.cfg.mtu - 24, |data| - ext) >= 128)
  {
    Conservation.SendReturns(k, data);
  }

  lemma {:induction false} ManyPieces(mss: int, len: nat)
    requires mss > 0 && len > 127 * mss
    ensures FragCount(mss, len) >= WND_RCV
  {
    FragCountCovers(mss, len);
    if FragCount(mss, len) <= 127 { MulMono(FragCount(mss, len), 127, mss); }
  }

  /** One byte waiting, and a write of 128 full segments or more: the waiting segment is filled up, the
      rest is refused. */
  lemma {:induction false} PartAccepted(k: Kcb, data: seq<byte>)
    requires k.cfg.stream && |k.sndQueue| == 1 && |k.sndQueue[0].data| == 1 && |data| >= 128 * k.cfg.Mss()
    ensures Engine.Send(k, data).ret == k.cfg.Mss() - 1 < |data|
  {
    Conservation.SendReturns(k, data);
    ManyPieces(k.cfg.Mss(), |data| - (k.cfg.Mss() - 1));
    FragCountIsQuotient(k.cfg.Mss(), |data| - (k.cfg.Mss() - 1));
  }

  lemma {:induction false} OneByteWaits(k: Kcb)
    requires k.cfg.stream && k.sndQueue == []
    ensures var q := Engine.Send(k, [0]).k.sndQueue; |q| == 1 && |q[0].data| == 1
    ensures Engine.Send(k, [0]).k.cfg == k.cfg
  {
    FragmentsShape(k.cfg.Mss(), [0], 1, true);
    assert [0][0..] == [0];
    var fs := Fragments(k.cfg.Mss(), [0], 1, true);
    assert fs[0] == Frag(0, [0][..Min(1, k.cfg.Mss())]);
  }

  /** After a one-byte write in stream mode, a large write: one segment less a byte is accepted, the
      whole length is reported. */
  lemma {:induction false} ReportTooLarge(cfg: Config, data: seq<byte>) returns (es: seq<Event>)
    requires cfg.stream && |data| >= 128 * cfg.Mss()
    ensures var ret := Engine.Send(Run(Ideal, Init(cfg, cfg), es).a.k, data).ret;
            0 < ret < |data| && Reported(ret, |data|) == |data|
  {
    var e := Event(true, Write([0]));
    es := [] + [e];
    RunOf(Init(cfg, cfg), [], e);
    OneByteWaits(Create(cfg));
    PartAccepted(Run(Ideal, Init(cfg, cfg), es).a.k, data);
  }

  // ---- A message on its way ---------------------------------------------------------------

  /** A writes; the other side has done nothing yet. */
  lemma {:induction false} Written(cfg: Config, data: seq<byte>) returns (es: seq<Event>)
    requires FragCount(cfg.Mss(), |data|) < WND_RCV
    requires cfg.stream ==> data != []
    ensures Fair(Init(cfg, cfg), es)
    ensures var s0 := Init(cfg, cfg);
            Run(Ideal, s0, es) ==
            s0.(a := s0.a.(k := s0.a.k.(sndQueue := PiecesOf(cfg.Mss(), data, cfg.stream)), sent := [data]))
  {
    var s0 := Init(cfg, cfg);
    var e := Event(true, Write(data));
    es := [e];
    assert [e][..0] == [] && Run(Ideal, s0, []) == s0 && Fair(s0, []);
    assert data[0..] == data && data[..|data|] == data;
    assert Engine.Send(s0.a.k, data) == SendOut(s0.a.k.(sndQueue := PiecesOf(cfg.Mss(), data, cfg.stream)), |data|);
  }

  /** What the first flush numbers, and that all of it is in the log. */
  lemma {:induction false} FirstFlush(s: Sys, k: Kcb) returns (n: nat)
    requires Ordered(s) && k == s.a.k.(clock := k.clock) && k.clock.updated
    requires k.sndUna == k.sndNxt == 0 && AllWritten(k, 0, Engine.Flush(Ideal, k).out)
    ensures n == Min(|k.sndQueue|, EffWnd(k)) && Engine.Flush(Ideal, k).k.sndNxt == n
    ensures Overrun.Wrote(Emit(s.a, Engine.Flush(Ideal, k)), k, CMD_PUSH, 0, n)
    ensures Emit(s.a, Engine.Flush(Ideal, k)).hist == s.a.hist + k.sndQueue[..n]
  {
    n := Numbered(k);
    Overrun.WroteData(s.a, k, n);
    EmitHist(s.a, Engine.Flush(Ideal, k), n);
  }

  lemma {:induction false} Numbered(k: Kcb) returns (n: nat)
    requires k.clock.updated && k.sndUna == k.sndNxt == 0
    ensures n == Min(|k.sndQueue|, EffWnd(k))
    ensures var r := Engine.Flush(Ideal, k).k; r.sndNxt == n && r.sndQueue == k.sndQueue[n..]
    ensures Filled(Ideal, k).sndBuf == k.sndBuf + NewSegs(DataHeader(Cleared(k)), k.rtt.rto, k.sndNxt, k.sndQueue, n)
  {
    n := FillRun(Cleared(k), EffWnd(k));
    FlushParts(k);
  }

  lemma {:induction false} EmitHist(x: Endpoint, f: FlushOut, n: nat)
    requires n <= |x.k.sndQueue| && f.k.sndQueue == x.k.sndQueue[n..]
    ensures Emit(x, f).hist == x.hist + x.k.sndQueue[..n]
  {
  }

  /** Delivers everything until the receiver has all n segments. */
  lemma {:induction false} DeliverAll(s: Sys, k: Kcb, n: nat) returns (es: seq<Event>)
    requires Ordered(s) && Overrun.Wrote(s.a, k, CMD_PUSH, 0, n) && s.a.k.sndNxt == n <= s.b.k.cfg.rcvWnd
    requires s.b.taken == [] && s.b.k.sndNxt == 0
    ensures Cont(s, es)
    ensures var s' := Run(Ideal, s, es);
            Ordered(s') && s'.a == s.a && s'.b.taken == [] && s'.b.k.rcvNxt == n
    decreases n - s.b.k.rcvNxt
  {
    if s.b.k.rcvNxt == n {
      es := [];
    } else {
      assert Overrun.FreshNumber(s.a, k, CMD_PUSH, s.b.k.rcvNxt);
      var j: nat, p: Pkt :| Overrun.FreshAt(s.a, k, j, p) && p.cmd == CMD_PUSH && p.sn == s.b.k.rcvNxt;
      var e1, k' := DeliverFresh(s, false, j, k, 0);
      assert s.a.net[j] in s.a.net;
      PushArrives(s.b.k, s.b.hist, s.b.taken, s.a.k, s.a.hist, s.a.net[j], p);
      InputAllCfg(Ideal, s.b.k, s.a.net[j]);
      var e2 := DeliverAll(Run(Ideal, s, e1), k, n);
      ContThen(s, e1, e2);
      es := e1 + e2;
    }
  }

  /** One flush of A, and all of it delivered: what the flush numbered is in B's receive queue. */
  lemma {:induction false} FlushAndDeliver(s: Sys) returns (es: seq<Event>)
    requires Ordered(s) && s.a.hist == [] && s.a.k.sndUna == 0 && s.a.k.acks == []
    requires s.b.taken == [] && s.b.k.sndNxt == 0 && EffWnd(s.a.k) <= s.b.k.cfg.rcvWnd
    ensures Cont(s, es)
    ensures var s' := Run(Ideal, s, es); var n := Min(|s.a.k.sndQueue|, EffWnd(s.a.k));
            Ordered(s') && s'.b.taken == [] && ToFrags(s'.b.k.rcvQueue) == s.a.k.sndQueue[..n]
  {
    var e1, k := FlushSoon(s, true, 0);
    var n := FirstFlush(s, k);
    var s1 := Run(Ideal, s, e1);
    var e2 := DeliverAll(s1, k, n);
    ContThen(s, e1, e2);
    es := e1 + e2;
    QueueIsHist(s1.a, Run(Ideal, s1, e2).b);
    assert [] + s.a.k.sndQueue[..n] == s.a.k.sndQueue[..n];
  }

  lemma {:induction false} QueueIsHist(x: Endpoint, y: Endpoint)
    requires ReceiverOk(y.k, y.taken, x.hist) && y.taken == [] && y.k.rcvNxt == |x.hist|
    ensures ToFrags(y.k.rcvQueue) == x.hist
  {
    QueueContinues(y.k, y.taken, x.hist);
    assert x.hist[..|x.hist|] == x.hist && [] + ToFrags(y.k.rcvQueue) == ToFrags(y.k.rcvQueue);
  }

  /** The receive queue holds the first n of the fragments. */
  ghost predicate HasFirst(y: Endpoint, fs: seq<Frag>, n: nat) {
    y.taken == [] && ToFrags(y.k.rcvQueue) == fs[..Min(|fs|, n)]
  }

  /** A run after which B's receive queue holds the first fragments of A's first write, as many as
      one flush sends. */
  lemma {:induction false} Arrived(cfg: Config, data: seq<byte>) returns (es: seq<Event>)
    requires cfg.nocwnd && FragCount(cfg.Mss(), |data|) < WND_RCV && (cfg.stream ==> data != [])
    ensures Timely(cfg, cfg, es) && ClockRun(Ideal, Init(cfg, cfg), es)
    ensures HasFirst(Run(Ideal, Init(cfg, cfg), es).b, PiecesOf(cfg.Mss(), data, cfg.stream), Min(cfg.sndWnd, WND_RCV))
  {
    var s0 := Init(cfg, cfg);
    InitOrdered(cfg, cfg);
    var e1 := Written(cfg, data);
    RunOrdered(s0, e1);
    var s1 := Run(Ideal, s0, e1);
    assert EffWnd(s1.a.k) == Min(cfg.sndWnd, WND_RCV);
    var e2 := FlushAndDeliver(s1);
    FairThen(s0, e1, e2);
    es := e1 + e2;
  }

  // ---- recv in stream mode ----------------------------------------------------------------

  /** A segment with no fragments behind it is received by itself, or not at all. */
  lemma {:induction false} RecvOne(ar: Arith, k: Kcb, len: nat)
    requires k.rcvQueue != [] && k.rcvQueue[0].frg == 0
    ensures var r := Recv(ar, k, len); var head := k.rcvQueue[0].data;
            if |head| <= len then r.ret == |head| && r.data == head else r == RecvOut(k, -3, [])
  {
    assert k.rcvQueue[..1] == [k.rcvQueue[0]];
    assert Bytes([k.rcvQueue[0]]) == k.rcvQueue[0].data + Bytes([]);
  }

  /** In every run in stream mode, `Kcp::recv` returns as many bytes as are available, up to the
      buffer's length, exactly when the first segment fits and either fills the buffer or has all the
      bytes there are. */
  lemma {:induction false} StreamRecvIff(cfgA: Config, cfgB: Config, es: seq<Event>, len: nat)
    requires cfgA.conv == cfgB.conv && cfgA.stream
    ensures var k := Run(Ideal, Init(cfgA, cfgB), es).b.k; var q := k.rcvQueue; var r := Recv(Ideal, k, len);
            q != [] ==>
              (r.ret >= 0 && r.data == Bytes(q)[..Min(len, |Bytes(q)|)] <==>
               |q[0].data| <= len && (|q[0].data| == len || Bytes(q[1..]) == []))
  {
    OrderedRuns(cfgA, cfgB, es);
    var s := Run(Ideal, Init(cfgA, cfgB), es);
    StreamHead(s.a, s.b);
    if s.b.k.rcvQueue != [] { RecvHeadIff(s.b.k, len); }
  }

  lemma {:induction false} RecvHeadIff(k: Kcb, len: nat)
    requires k.rcvQueue != [] && k.rcvQueue[0].frg == 0
    ensures var q := k.rcvQueue; var r := Recv(Ideal, k, len);
            r.ret >= 0 && r.data == Bytes(q)[..Min(len, |Bytes(q)|)] <==>
            |q[0].data| <= len && (|q[0].data| == len || Bytes(q[1..]) == [])
  {
    RecvOne(Ideal, k, len);
    if |k.rcvQueue[0].data| <= len {
      TakePrefix(k.rcvQueue[0].data, Bytes(k.rcvQueue[1..]), len);
    }
  }

  lemma {:induction false} TakePrefix<T>(head: seq<T>, rest: seq<T>, len: nat)
    requires |head| <= len
    ensures head == (head + rest)[..Min(len, |head + rest|)] <==> |head| == len || rest == []
  {
    if |head| == |(head + rest)[..Min(len, |head + rest|)]| {
      assert (head + rest)[..|head|] == head;
    }
  }

  /** One write of 1377 bytes arrives whole, and a buffer of that size gets 1376 of them. */
  lemma {:induction false} StreamRecvShort(data: seq<byte>) returns (es: seq<Event>)
    requires |data| == 1377
    ensures Timely(Plain(32, true), Plain(32, true), es)
    ensures var k := Run(Ideal, Init(Plain(32, true), Plain(32, true)), es).b.k;
            Bytes(k.rcvQueue) == data && Recv(Ideal, k, 1377).ret == 1376
  {
    var cfg := Plain(32, true);
    es := Arrived(cfg, data);
    var k := Run(Ideal, Init(cfg, cfg), es).b.k;
    var fs := PiecesOf(cfg.Mss(), data, cfg.stream);
    FragCountCovers(1376, 1377);
    FragCountIsQuotient(1376, 1377);
    FragmentsShape(1376, data, 2, true);
    FragmentsJoin(1376, data, 2, true);
    assert fs[..2] == fs && ToFrags(k.rcvQueue) == fs;
    BytesJoin(k.rcvQueue);
    assert fs[0] == Frag(0, data[..1376]);
    assert k.rcvQueue[0].ToFrag() == fs[0];
    RecvOne(Ideal, k, 1377);
  }

  // ---- poll_read --------------------------------------------------------------------------

  /** The engine holds a message that cannot be taken into a buffer of that size: not all of it is
      there, or it is too large. */
  predicate Stuck(k: Kcb, size: nat) { k.rcvQueue != [] && !(0 <= PeekSize(k) <= size) }

  /** The engine's next message has no bytes. */
  predicate Blank(k: Kcb) { k.rcvQueue != [] && PeekSize(k) == 0 }

  lemma {:induction false} ReceiveIff(k: Kcb, closed: bool, size: nat, room: nat)
    ensures var poll := Receive(k, closed, size, room).poll;
            && (poll.Failed? <==> !closed && Stuck(k, size))
            && (poll.Pending? <==> !closed && k.rcvQueue == [])
            && (room > 0 ==> (poll == Ready([]) <==> closed || Blank(k)))
  {
    RecvFits(k, size);
    RecvPeeks(k, size);
  }

  lemma {:induction false} RecvPeeks(k: Kcb, size: nat)
    ensures var r := Engine.Recv(Wrap32, k, size);
            r.ret == (if k.rcvQueue == [] then -1 else if PeekSize(k) < 0 then -2
                      else if PeekSize(k) > size then -3 else PeekSize(k))
  {
    if k.rcvQueue != [] && k.rcvQueue[0].frg == 0 {
      assert k.rcvQueue[..1] == [k.rcvQueue[0]];
      assert Bytes([k.rcvQueue[0]]) == k.rcvQueue[0].data + Bytes([]);
    }
  }

  /** An update takes nothing out of rcv_queue and puts nothing into it. */
  lemma {:induction false} UpdateSameQueue(k: Kcb, now: u32)
    ensures Engine.Update(Wrap32, k, now).k.rcvQueue == k.rcvQueue
  {
    var k1 := k.(clock := Tick(k.clock, k.cfg.interval, now).0);
    FillFrame(Wrap32, Cleared(k1), EffWnd(k1));
  }

  lemma {:induction false} SameQueue(k: Kcb, k': Kcb, size: nat)
    requires k'.rcvQueue == k.rcvQueue
    ensures (Stuck(k', size) <==> Stuck(k, size)) && (Blank(k') <==> Blank(k))
  {
  }

  /** What a second look at the engine sees. */
  lemma {:induction false} AgainIff(k: Kcb, closed: bool, size: nat, room: nat, arrival: Arrival, now: u32)
    ensures var poll := Again(k, closed, size, room, arrival, now).poll; var later := Arrive(k, arrival);
            && (poll.Failed? <==> !closed && Stuck(later, size))
            && (poll.Pending? <==> !closed && later.rcvQueue == [])
            && (room > 0 ==> (poll == Ready([]) <==> closed || Blank(later)))
  {
    var later := Arrive(k, arrival);
    var u := Engine.Update(Wrap32, later, now);
    UpdateSameQueue(later, now);
    SameQueue(later, u.k, size);
    ReceiveIff(u.k, closed, size, room);
    AgainIs(k, closed, size, room, arrival, now, u);
  }

  lemma {:induction false} AgainIs(k: Kcb, closed: bool, size: nat, room: nat, arrival: Arrival, now: u32, u: FlushOut)
    requires u == Engine.Update(Wrap32, Arrive(k, arrival), now)
    ensures Again(k, closed, size, room, arrival, now).poll == Receive(u.k, closed, size, room).poll
  {
  }

  /** Exactly when `poll_read` with room reports an error, when it reports that nothing has arrived yet, and
      when it returns no bytes, which a reader takes for the end of the stream.  A leftover is never taken
      for the end. */
  lemma {:induction false} PollIff(k: Kcb, left: seq<byte>, closed: bool, size: nat, room: nat, arrival: Arrival,
                                   now: u32)
    requires room > 0
    ensures var poll := Polled(k, left, closed, size, room, arrival, now).poll; var later := Arrive(k, arrival);
            var looks := k.rcvQueue == [] && (arrival.FromPeer? || arrival.Stranger?);
            var fails := Stuck(k, size) || (k.rcvQueue == [] && arrival.Broken?) || (looks && Stuck(later, size));
            var waits := (k.rcvQueue == [] && arrival.Nothing?) || (looks && later.rcvQueue == []);
            var blank := Blank(k) || (looks && Blank(later));
            && (poll.Failed? <==> left == [] && !closed && fails)
            && (poll.Pending? <==> left == [] && !closed && waits)
            && (poll == Ready([]) <==> left == [] && (closed || blank))
  {
    ReceiveIff(k, closed, size, room);
    AgainIff(k, closed, size, room, arrival, now);
  }

  /** The same for the read half, which looks only while it gets the lock. */
  lemma {:induction false} HalfPollIff(k: Kcb, left: seq<byte>, closed: bool, size: nat, room: nat, arrival: Arrival,
                                       now: u32, lock1: bool, lock2: bool)
    requires room > 0
    ensures var poll := HalfPolled(k, left, closed, size, room, arrival, now, lock1, lock2).poll;
            var before := if lock1 then Engine.Update(Wrap32, k, now).k else k; var later := Arrive(before, arrival);
            var passed := !lock1 || (!closed && k.rcvQueue == []); var looks := passed && arrival.FromPeer? && lock2;
            var stuck := !closed && ((lock1 && Stuck(k, size)) || (looks && Stuck(later, size)));
            var waits := passed && !arrival.Broken? && (looks ==> !closed && later.rcvQueue == []);
            var blank := (lock1 && (closed || Blank(k))) || (looks && (closed || Blank(later)));
            && (poll.Failed? <==> left == [] && (stuck || (passed && arrival.Broken?)))
            && (poll.Pending? <==> left == [] && waits)
            && (poll == Ready([]) <==> left == [] && blank)
  {
    ReceiveIff(k, closed, size, room);
    AgainIff(if lock1 then Engine.Update(Wrap32, k, now).k else k, closed, size, room, arrival, now);
  }

  /** B's engine in a run of the hosts, as far as polls look at it. */
  lemma {:induction false} HostEngine(cfg: Config, es: seq<Event>) returns (k: Kcb)
    requires Timely(cfg, cfg, es)
    ensures k == ByteNetwork.HostRun(ByteNetwork.Start(cfg, cfg), es).b.k
    ensures var i := Run(Ideal, Init(cfg, cfg), es).b.k;
            PeekSize(k) == PeekSize(i) && |k.rcvQueue| == |i.rcvQueue|
  {
    ByteNetwork.ByteSimulation(cfg, cfg, es);
    k := ByteNetwork.HostRun(ByteNetwork.Start(cfg, cfg), es).b.k;
    PeekWrap(Run(Ideal, Init(cfg, cfg), es).b.k);
  }

  /** With a send window of one segment, the first of two fragments arrives: the first poll fails. */
  lemma {:induction false} PollIncomplete(data: seq<byte>, size: nat, room: nat, arrival: Arrival, now: u32)
    returns (es: seq<Event>)
    requires |data| == 1377 && room > 0
    ensures Timely(Plain(1, false), Plain(1, false), es)
    ensures var k := ByteNetwork.HostRun(ByteNetwork.Start(Plain(1, false), Plain(1, false)), es).b.k;
            Polled(k, [], false, size, room, arrival, now).poll.Failed?
  {
    var cfg := Plain(1, false);
    es := Arrived(cfg, data);
    var k := HostEngine(cfg, es);
    var q := Run(Ideal, Init(cfg, cfg), es).b.k.rcvQueue;
    FragCountIsQuotient(1376, 1377);
    FragmentsShape(1376, data, 2, false);
    assert q[0].ToFrag() == PiecesOf(cfg.Mss(), data, cfg.stream)[0] && |q| == 1;
    PollIff(k, [], false, size, room, arrival, now);
  }

  /** A receive queue with the fragments of one message. */
  lemma {:induction false} OneMessage(cfg: Config, data: seq<byte>, q: seq<Pkt>)
    requires FragCount(cfg.Mss(), |data|) < WND_RCV && !cfg.stream
    requires ToFrags(q) == PiecesOf(cfg.Mss(), data, cfg.stream)
    ensures q != [] && |q| == FragCount(cfg.Mss(), |data|) && q[0].frg + 1 == |q| && MsgBytes(q) == data
    ensures q[0].frg == 0 ==> q[0].data == data
  {
    var fs := PiecesOf(cfg.Mss(), data, cfg.stream);
    FragCountCovers(cfg.Mss(), |data|);
    FragmentsShape(cfg.Mss(), data, FragCount(cfg.Mss(), |data|), false);
    assert fs[0..|fs|] == fs;
    HeadFrags(q, fs, 0, fs);
    assert q[..|fs|] == q;
    MessageBytes(cfg.Mss(), data, q);
    if |fs| == 1 { BytesOne(q); }
  }

  /** What the receiver of one whole message sees. */
  lemma {:induction false} WholeMessage(data: seq<byte>) returns (es: seq<Event>, k: Kcb)
    requires FragCount(1376, |data|) < WND_RCV
    ensures Timely(Plain(128, false), Plain(128, false), es)
    ensures k == ByteNetwork.HostRun(ByteNetwork.Start(Plain(128, false), Plain(128, false)), es).b.k
    ensures k.rcvQueue != [] && PeekSize(k) == |data|
  {
    var cfg := Plain(128, false);
    es := Arrived(cfg, data);
    k := HostEngine(cfg, es);
    var fs := PiecesOf(cfg.Mss(), data, cfg.stream);
    FragmentsShape(1376, data, FragCount(1376, |data|), false);
    assert fs[..|fs|] == fs;
    OneMessage(cfg, data, Run(Ideal, Init(cfg, cfg), es).b.k.rcvQueue);
  }

  lemma {:induction false} BytesOne(q: seq<Pkt>)
    requires |q| == 1 && q[0].frg == 0
    ensures MsgBytes(q) == q[0].data
  {
    assert q[..1] == q && Bytes(q) == q[0].data + Bytes([]);
  }

  /** A message larger than the read buffer: every poll fails. */
  lemma {:induction false} PollTooLarge(data: seq<byte>, size: nat, room: nat, arrival: Arrival, now: u32)
    returns (es: seq<Event>)
    requires |data| > size && FragCount(1376, |data|) < WND_RCV && room > 0
    ensures Timely(Plain(128, false), Plain(128, false), es)
    ensures var k := ByteNetwork.HostRun(ByteNetwork.Start(Plain(128, false), Plain(128, false)), es).b.k;
            Polled(k, [], false, size, room, arrival, now).poll.Failed?
  {
    var k;
    es, k := WholeMessage(data);
    PollIff(k, [], false, size, room, arrival, now);
  }

  /** An empty message: the poll returns no bytes, although the stream has not ended. */
  lemma {:induction false} PollBlank(size: nat, room: nat, arrival: Arrival, now: u32) returns (es: seq<Event>)
    requires room > 0
    ensures Timely(Plain(128, false), Plain(128, false), es)
    ensures var k := ByteNetwork.HostRun(ByteNetwork.Start(Plain(128, false), Plain(128, false)), es).b.k;
            Polled(k, [], false, size, room, arrival, now).poll == Ready([])
  {
    var k;
    es, k := WholeMessage([]);
    PollIff(k, [], false, size, room, arrival, now);
  }
}
