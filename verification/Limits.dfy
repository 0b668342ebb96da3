/** What limits an engine over a run: the congestion window limits what it numbers, and the dead-link
    flag limits how often it sends one segment. */
module Limits {
  import opened Words
  import opened Engine
  import opened Scans
  import opened Network
  import opened Transport
  import opened Steps
  import opened Flow
  import opened Sending

  // ---- The windows --------------------------------------------------------------------------

  /** In every run, an event that numbers segments leaves no more outstanding than the send window, the
      window last heard from the peer, and, unless it is turned off, the congestion window. */
  lemma {:induction false} WindowsLimit(cfgA: Config, cfgB: Config, es: seq<Event>, act: Act)
    requires cfgA.conv == cfgB.conv
    ensures var s := Run(Ideal, Init(cfgA, cfgB), es); var k := s.a.k; var r := Step(Ideal, s, Event(true, act)).a.k;
            r.sndNxt > k.sndNxt ==>
              && r.sndNxt - r.sndUna <= k.cfg.sndWnd && r.sndNxt - r.sndUna <= k.rmtWnd
              && (!k.cfg.nocwnd ==> r.sndNxt - r.sndUna <= k.cong.cwnd)
  {
    Reachable(cfgA, cfgB, es);
    var s := Run(Ideal, Init(cfgA, cfgB), es);
    if Flushes(s.a.k, act) {
      var k := FlushFrom(s.a.k, act);
      FlushEvent(s.a, s.b.net, act);
      WindowIs(k);
      var n := FlushNumbers(k, EffWnd(k));
    } else {
      NoFlush(s.a, s.b, act);
    }
  }

  /** A timeout stops new data: until something is acknowledged, the flushes that follow number nothing. */
  lemma {:induction false} TimeoutStops(x: Endpoint, y: Endpoint, k: Kcb, k2: Kcb)
    requires Half(x, y) && k == x.k.(clock := k.clock) && k.clock.updated && !k.cfg.nocwnd && AnyTimeout(k, k.sndBuf)
    requires var r := Engine.Flush(Ideal, k).k;
             k2.cfg == k.cfg && k2.cong == r.cong && k2.sndUna == r.sndUna && k2.sndNxt == r.sndNxt
    requires k2.clock.updated
    ensures Engine.Flush(Ideal, k2).k.sndNxt == k2.sndNxt
  {
    WindowIs(k);
    WindowIs(k2);
    var added, control := FlushDoes(k, EffWnd(k));
    var g :| g in k.sndBuf && TimesOut(k, g);
    assert InHist(x.hist, g.pkt);
    OneOutstanding(k2);
  }

  /** With cwnd 1 and something outstanding, nothing is numbered. */
  lemma {:induction false} OneOutstanding(k: Kcb)
    requires k.clock.updated && !k.cfg.nocwnd && k.cong.cwnd == 1 && k.sndUna < k.sndNxt
    ensures Engine.Flush(Ideal, k).k.sndNxt == k.sndNxt
  {
    WindowIs(k);
    var n := FlushNumbers(k, EffWnd(k));
  }

  // ---- The dead link ------------------------------------------------------------------------

  /** Every segment of r is one of buf, up to its acknowledgement counter. */
  ghost predicate Older(buf: seq<Seg>, r: seq<Seg>) {
    forall g :: g in r ==> exists h :: h in buf && h.(fastack := g.fastack) == g
  }

  lemma {:induction false} SubsetOlder(buf: seq<Seg>, r: seq<Seg>)
    requires forall g :: g in r ==> g in buf
    ensures Older(buf, r)
  {
    forall g | g in r ensures exists h :: h in buf && h.(fastack := g.fastack) == g {
      assert g in buf && g.(fastack := g.fastack) == g;
    }
  }

  lemma {:induction false} OlderThen(a: seq<Seg>, b: seq<Seg>, c: seq<Seg>)
    requires Older(a, b) && Older(b, c)
    ensures Older(a, c)
  {
    forall g | g in c ensures exists h :: h in a && h.(fastack := g.fastack) == g {
      var m :| m in b && m.(fastack := g.fastack) == g;
      var h :| h in a && h.(fastack := m.fastack) == m;
      assert h.(fastack := g.fastack) == g;
    }
  }

  lemma {:induction false} UnaSubset(ar: Arith, buf: seq<Seg>, una: int)
    ensures forall g :: g in ParseUna(ar, buf, una) ==> g in buf
  {
    if buf != [] { UnaSubset(ar, buf[1..], una); }
  }

  lemma {:induction false} AckSubset(ar: Arith, buf: seq<Seg>, sn: int)
    ensures forall g :: g in AckScan(ar, buf, sn) ==> g in buf
  {
    if buf != [] { AckSubset(ar, buf[1..], sn); }
  }

  lemma {:induction false} PktOlder(ar: Arith, k: Kcb, p: Pkt)
    ensures Older(k.sndBuf, InputPkt(ar, k, p).sndBuf)
  {
    var h := InputHead(ar, k, p);
    UnaSubset(ar, k.sndBuf, p.una);
    AckSubset(ar, h.sndBuf, p.sn);
    InputPushFrame(ar, h, p);
    SubsetOlder(k.sndBuf, InputPkt(ar, k, p).sndBuf);
  }

  lemma {:induction false} AllOlder(ar: Arith, k: Kcb, d: Datagram)
    ensures Older(k.sndBuf, InputAll(ar, k, d).sndBuf)
    decreases |d|
  {
    if d == [] {
      SubsetOlder(k.sndBuf, k.sndBuf);
    } else {
      var k1 := InputPkt(ar, k, d[0]);
      PktOlder(ar, k, d[0]);
      AllOlder(ar, k1, d[1..]);
      OlderThen(k.sndBuf, k1.sndBuf, InputAll(ar, k1, d[1..]).sndBuf);
    }
  }

  lemma {:induction false} RaisedOlder(ar: Arith, buf: seq<Seg>, sn: int, ts: u32)
    ensures Older(buf, FastackScan(ar, buf, sn, ts))
  {
    FastackScanRaises(ar, buf, sn, ts);
    var r := FastackScan(ar, buf, sn, ts);
    forall g | g in r ensures exists h :: h in buf && h.(fastack := g.fastack) == g {
      var i :| 0 <= i < |r| && r[i] == g;
      assert buf[i] in buf && buf[i].(fastack := g.fastack) == g;
    }
  }

  /** Input removes segments and changes their counters, nothing else. */
  lemma {:induction false} InputOlder(ar: Arith, k: Kcb, d: Datagram)
    ensures Older(k.sndBuf, Input(ar, k, d).sndBuf)
  {
    var m := InputAll(ar, k, d);
    var sc := ScanAll(ar, NoAck, d);
    AllOlder(ar, k, d);
    SubsetOlder(m.sndBuf, m.sndBuf);
    if sc.MaxAck? { RaisedOlder(ar, m.sndBuf, sc.sn, sc.ts); }
    OlderThen(k.sndBuf, m.sndBuf, Input(ar, k, d).sndBuf);
  }

  /** Unless the link is dead, no segment has been sent 20 times. */
  ghost predicate Alive(k: Kcb) { !k.dead ==> forall g :: g in k.sndBuf ==> g.xmit < 20 }

  lemma {:induction false} FlushAlive(k: Kcb)
    requires Alive(k)
    ensures var r := Engine.Flush(Ideal, k).k;
            Alive(r) && (r.dead <==> k.dead || (k.clock.updated && AnyTwentieth(k, k.sndBuf)))
  {
    if k.clock.updated {
      WindowIs(k);
      var added, control := FlushDoes(k, EffWnd(k));
      var r, was := Engine.Flush(Ideal, k).k, k.sndBuf + added;
      if !r.dead {
        forall h | h in r.sndBuf ensures h.xmit < 20 {
          var i :| 0 <= i < |r.sndBuf| && r.sndBuf[i] == h;
          SentUnder(k, added, i, h);
        }
      }
    }
  }

  lemma {:induction false} SentUnder(k: Kcb, added: seq<Seg>, i: nat, r: Seg)
    requires Alive(k) && !k.dead && !AnyTwentieth(k, k.sndBuf) && AllFresh(k, added)
    requires i < |k.sndBuf + added| && AfterFlush(k, (k.sndBuf + added)[i], r)
    ensures r.xmit < 20
  {
    var g := (k.sndBuf + added)[i];
    if i < |k.sndBuf| {
      assert g in k.sndBuf;
    } else {
      assert IsFresh(k, added[i - |k.sndBuf|], k.sndNxt + (i - |k.sndBuf|), k.sndQueue[i - |k.sndBuf|]);
    }
  }

  lemma {:induction false} InputAlive(k: Kcb, d: Datagram)
    requires Alive(k)
    ensures var r := Input(Ideal, k, d); Alive(r) && r.dead == k.dead
  {
    InputOlder(Ideal, k, d);
    InputDead(k, d);
  }

  lemma {:induction false} AllDead(k: Kcb, d: Datagram)
    ensures InputAll(Ideal, k, d).dead == k.dead
    decreases |d|
  {
    if d != [] {
      var h := InputHead(Ideal, k, d[0]);
      InputPushFrame(Ideal, h, d[0]);
      AllDead(InputPkt(Ideal, k, d[0]), d[1..]);
    }
  }

  lemma {:induction false} InputDead(k: Kcb, d: Datagram)
    ensures Input(Ideal, k, d).dead == k.dead
  {
    AllDead(k, d);
  }

  lemma {:induction false} ActAlive(x: Endpoint, peer: seq<Datagram>, act: Act)
    requires Alive(x.k)
    ensures var r := ActOn(Ideal, x, peer, act).k;
            && Alive(r)
            && (r.dead <==> x.k.dead || (Flushes(x.k, act) && AnyTwentieth(FlushFrom(x.k, act), x.k.sndBuf)))
  {
    match act {
      case Write(data) =>
      case Read(len) =>
        RecvShape(x.k, len);
        MoveReadyFrame(Ideal, x.k.(rcvQueue := x.k.rcvQueue[if len < 0 then 0 else MsgCount(x.k.rcvQueue)..]));
      case Drive(now) => FlushAlive(FlushFrom(x.k, act));
      case FlushNow => FlushAlive(x.k);
      case Deliver(i) => if i < |peer| { InputAlive(x.k, peer[i]); }
    }
  }

  lemma {:induction false} RunAlive(cfgA: Config, cfgB: Config, es: seq<Event>)
    ensures var s := Run(Ideal, Init(cfgA, cfgB), es); Alive(s.a.k) && Alive(s.b.k)
  {
    if es != [] {
      var s := Run(Ideal, Init(cfgA, cfgB), es[..|es| - 1]);
      var e := es[|es| - 1];
      RunAlive(cfgA, cfgB, es[..|es| - 1]);
      if e.atA { ActAlive(s.a, s.b.net, e.act); } else { ActAlive(s.b, s.a.net, e.act); }
    }
  }

  /** In every run: the link is dead once, and only once, a flush has sent some segment for the 20th time
      or later.  While it is not, no segment has been sent 20 times. */
  lemma {:induction false} DeadIff(cfgA: Config, cfgB: Config, es: seq<Event>, act: Act)
    ensures var k := Run(Ideal, Init(cfgA, cfgB), es).a.k;
            var r := Run(Ideal, Init(cfgA, cfgB), es + [Event(true, act)]).a.k;
            && (!k.dead ==> forall g :: g in k.sndBuf ==> g.xmit < 20)
            && (r.dead <==> k.dead || (Flushes(k, act) && AnyTwentieth(FlushFrom(k, act), k.sndBuf)))
  {
    RunAlive(cfgA, cfgB, es);
    var s := Run(Ideal, Init(cfgA, cfgB), es);
    assert (es + [Event(true, act)])[..|es|] == es;
    ActAlive(s.a, s.b.net, act);
  }
}
