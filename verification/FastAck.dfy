/** Fast retransmission: which acknowledgements count against a segment, and that enough of them make
    the next flush send it before its deadline. */
module FastAck {
  import opened Words
  import opened Engine
  import opened Scans
  import opened Wire
  import opened Sending
  import Transport

  // ---- The leading acknowledgement of a datagram --------------------------------------------

  /** The first acknowledgement of a datagram, replaced by each one that is later both in number and in
      the time of the sending it answers. */
  function Leading(d: Datagram): Scan {
    if d == [] then NoAck
    else
      var n := |d| - 1;
      var before := Leading(d[..n]);
      if d[n].cmd != CMD_ACK then before
      else if before.NoAck? || (d[n].sn > before.sn && Itimediff(d[n].ts, before.ts) > 0)
      then MaxAck(d[n].sn, d[n].ts)
      else before
  }

  lemma {:induction false} ScanSnoc(sc: Scan, d: Datagram, p: Pkt)
    ensures ScanAll(Ideal, sc, d + [p]) == ScanPkt(Ideal, ScanAll(Ideal, sc, d), p)
    decreases |d|
  {
    if d == [] {
      assert d + [p] == [p] && [p][1..] == [];
      assert ScanAll(Ideal, ScanPkt(Ideal, sc, p), []) == ScanPkt(Ideal, sc, p);
    } else {
      assert (d + [p])[1..] == d[1..] + [p];
      ScanSnoc(ScanPkt(Ideal, sc, d[0]), d[1..], p);
    }
  }

  lemma {:induction false} ScanIsLeading(d: Datagram)
    ensures ScanAll(Ideal, NoAck, d) == Leading(d)
  {
    if d != [] {
      var n := |d| - 1;
      ScanIsLeading(d[..n]);
      ScanSnoc(NoAck, d[..n], d[n]);
      assert d[..n] + [d[n]] == d;
    }
  }

  // ---- What a datagram does to a segment ------------------------------------------------------

  /** Some packet acknowledges number sn, cumulatively or by itself. */
  ghost predicate Acknowledges(d: Datagram, sn: int) {
    exists p :: p in d && (p.una > sn || (p.cmd == CMD_ACK && p.sn == sn))
  }

  /** The datagram's leading acknowledgement is of a later number, assigned before nxt, and answers a
      sending no earlier than the segment's. */
  predicate Skips(d: Datagram, g: Seg, nxt: int) {
    var lead := Leading(d);
    lead.MaxAck? && g.pkt.sn < lead.sn < nxt && Itimediff(lead.ts, g.pkt.ts) >= 0
  }

  lemma {:induction false} UnaKeeps(buf: seq<Seg>, una: int, g: Seg)
    requires SortedSegs(buf) && g in buf && una <= g.pkt.sn
    ensures var r := ParseUna(Ideal, buf, una); g in r && SortedSegs(r)
  {
    var n := ParseUnaSuffix(buf, una);
    var i :| 0 <= i < |buf| && buf[i] == g;
    assert buf[n..][i - n] == g;
  }

  lemma {:induction false} AckKeeps(buf: seq<Seg>, sn: int, g: Seg)
    requires SortedSegs(buf) && g in buf && sn != g.pkt.sn
    ensures var r := AckScan(Ideal, buf, sn); g in r && SortedSegs(r)
  {
    var m := AckScanOne(buf, sn);
    if m < |buf| { Transport.SkipOne(buf, m); }
  }

  lemma {:induction false} PktKeeps(k: Kcb, p: Pkt, g: Seg)
    requires SortedSegs(k.sndBuf) && g in k.sndBuf && p.una <= g.pkt.sn && !(p.cmd == CMD_ACK && p.sn == g.pkt.sn)
    ensures var r := InputPkt(Ideal, k, p); g in r.sndBuf && SortedSegs(r.sndBuf) && r.sndUna == r.sndBuf[0].pkt.sn
  {
    var h := InputHead(Ideal, k, p);
    UnaKeeps(k.sndBuf, p.una, g);
    InputPushFrame(Ideal, h, p);
    if p.cmd == CMD_ACK { AckKeeps(h.sndBuf, p.sn, g); }
  }

  lemma {:induction false} AllKeep(k: Kcb, d: Datagram, g: Seg)
    requires SortedSegs(k.sndBuf) && g in k.sndBuf && !Acknowledges(d, g.pkt.sn)
    ensures var r := InputAll(Ideal, k, d);
            g in r.sndBuf && SortedSegs(r.sndBuf) && (d != [] ==> r.sndUna == r.sndBuf[0].pkt.sn)
    decreases |d|
  {
    if d != [] {
      assert d[0] in d && forall p :: p in d[1..] ==> p in d;
      PktKeeps(k, d[0], g);
      AllKeep(InputPkt(Ideal, k, d[0]), d[1..], g);
    }
  }

  /** g after n acknowledgements counted against it. */
  function Counted(g: Seg, n: nat): Seg { g.(fastack := U32(g.fastack + n)) }

  /** A datagram that does not acknowledge a segment raises its counter by one exactly when it skips it. */
  lemma {:induction false} InputCounts(k: Kcb, d: Datagram, g: Seg)
    requires SortedSegs(k.sndBuf) && g in k.sndBuf && !Acknowledges(d, g.pkt.sn)
    ensures var r := Input(Ideal, k, d);
            Counted(g, if Skips(d, g, k.sndNxt) then 1 else 0) in r.sndBuf && SortedSegs(r.sndBuf)
  {
    var m := InputAll(Ideal, k, d);
    AllKeep(k, d, g);
    InputAllCfg(Ideal, k, d);
    ScanIsLeading(d);
    U32Small(g.fastack);
    if d != [] && Leading(d).MaxAck? {
      CountsOne(m, Leading(d).sn, Leading(d).ts, g);
    }
  }

  lemma {:induction false} CountsOne(m: Kcb, sn: int, ts: u32, g: Seg)
    requires SortedSegs(m.sndBuf) && g in m.sndBuf && m.sndUna == m.sndBuf[0].pkt.sn
    ensures var r := ParseFastack(Ideal, m, sn, ts);
            && Raised(g, g.pkt.sn < sn < m.sndNxt && Itimediff(ts, g.pkt.ts) >= 0) in r.sndBuf && SortedSegs(r.sndBuf)
            && r.sndNxt == m.sndNxt
  {
    var r := ParseFastack(Ideal, m, sn, ts);
    var i :| 0 <= i < |m.sndBuf| && m.sndBuf[i] == g;
    assert m.sndUna <= g.pkt.sn;
    if AckInWindow(Ideal, m, sn) {
      FastackScanAt(m.sndBuf, sn, ts);
      assert r.sndBuf[i] == Raised(g, g.pkt.sn < sn && Itimediff(ts, g.pkt.ts) >= 0);
    }
  }

  // ---- Many datagrams -------------------------------------------------------------------------

  function Fed(k: Kcb, ds: seq<Datagram>): Kcb {
    if ds == [] then k else Input(Ideal, Fed(k, ds[..|ds| - 1]), ds[|ds| - 1])
  }

  /** How many of the datagrams skip segment g. */
  function SkipCount(ds: seq<Datagram>, g: Seg, nxt: int): nat {
    if ds == [] then 0
    else SkipCount(ds[..|ds| - 1], g, nxt) + if Skips(ds[|ds| - 1], g, nxt) then 1 else 0
  }

  lemma {:induction false} CountedTwice(g: Seg, c: nat, n: nat)
    ensures Counted(Counted(g, c), n) == Counted(g, c + n)
  {
    U32Add(g.fastack + c, n);
  }

  lemma {:induction false} FedNext(k: Kcb, d: Datagram, g: Seg, c: nat)
    requires SortedSegs(k.sndBuf) && Counted(g, c) in k.sndBuf && !Acknowledges(d, g.pkt.sn)
    ensures var r := Input(Ideal, k, d);
            && Counted(g, c + if Skips(d, g, k.sndNxt) then 1 else 0) in r.sndBuf && SortedSegs(r.sndBuf)
            && r.sndNxt == k.sndNxt && r.cfg == k.cfg
  {
    InputCounts(k, d, Counted(g, c));
    InputAllCfg(Ideal, k, d);
    CountedTwice(g, c, if Skips(d, g, k.sndNxt) then 1 else 0);
  }

  /** After any datagrams that do not acknowledge a segment, its counter has grown by the number of
      those that skip it. */
  lemma {:induction false} FedCounts(k: Kcb, ds: seq<Datagram>, g: Seg)
    requires SortedSegs(k.sndBuf) && g in k.sndBuf && forall i :: 0 <= i < |ds| ==> !Acknowledges(ds[i], g.pkt.sn)
    ensures var r := Fed(k, ds);
            && Counted(g, SkipCount(ds, g, k.sndNxt)) in r.sndBuf && SortedSegs(r.sndBuf)
            && r.sndNxt == k.sndNxt && r.cfg == k.cfg
  {
    if ds == [] {
      U32Small(g.fastack);
    } else {
      var n := |ds| - 1;
      FedCounts(k, ds[..n], g);
      FedNext(Fed(k, ds[..n]), ds[n], g, SkipCount(ds[..n], g, k.sndNxt));
    }
  }

  // ---- The next flush -------------------------------------------------------------------------

  /** Data with number sn is among the datagrams. */
  ghost predicate Carries(out: seq<Datagram>, sn: int) {
    exists p :: p in Flatten(out) && p.cmd == CMD_PUSH && p.sn == sn
  }

  lemma {:induction false} SentOfIn(k: Kcb, was: seq<Seg>, now: seq<Seg>, p: Pkt)
    requires |was| == |now|
    ensures p in SentOf(k, was, now) <==> exists i :: 0 <= i < |was| && IsSent(k, was[i]) && now[i].pkt == p
  {
    if was != [] {
      SentOfIn(k, was[1..], now[1..], p);
      if p in SentOf(k, was[1..], now[1..]) {
        var i :| 0 <= i < |was[1..]| && IsSent(k, was[1..][i]) && now[1..][i].pkt == p;
        assert was[i + 1] == was[1..][i] && now[i + 1] == now[1..][i];
      }
      if i :| 0 < i < |was| && IsSent(k, was[i]) && now[i].pkt == p {
        assert was[1..][i - 1] == was[i] && now[1..][i - 1] == now[i];
      }
    }
  }

  /** In a sorted snd_buf below snd_nxt, data with a segment's number is sent exactly when that segment
      is. */
  lemma {:induction false} CarriesIff(k: Kcb, g: Seg)
    requires k.clock.updated && SortedSegs(k.sndBuf) && g in k.sndBuf && g.pkt.sn < k.sndNxt && g.pkt.cmd == CMD_PUSH
    ensures Carries(Engine.Flush(Ideal, k).out, g.pkt.sn) <==> IsSent(k, g)
    ensures exists r :: r in Engine.Flush(Ideal, k).k.sndBuf && AfterFlush(k, g, r)
  {
    WindowIs(k);
    var added, control := FlushDoes(k, EffWnd(k));
    var o := Engine.Flush(Ideal, k);
    var was := k.sndBuf + added;
    var i :| 0 <= i < |k.sndBuf| && k.sndBuf[i] == g;
    assert was[i] == g && AfterFlush(k, g, o.k.sndBuf[i]);
    if IsSent(k, g) {
      SentOfIn(k, was, o.k.sndBuf, o.k.sndBuf[i].pkt);
      assert o.k.sndBuf[i].pkt in Flatten(o.out);
    }
    if p :| p in Flatten(o.out) && p.cmd == CMD_PUSH && p.sn == g.pkt.sn {
      NotControl(k, control, p);
      SentOfIn(k, was, o.k.sndBuf, p);
      var j :| 0 <= j < |was| && IsSent(k, was[j]) && o.k.sndBuf[j].pkt == p;
      SameNumber(k, added, o.k.sndBuf[j], i, j);
    }
  }

  lemma {:induction false} NotControl(k: Kcb, control: seq<Pkt>, p: Pkt)
    requires ControlPart(k, control) && p.cmd == CMD_PUSH
    ensures p !in control
  {
  }

  lemma {:induction false} SameNumber(k: Kcb, added: seq<Seg>, r: Seg, i: nat, j: nat)
    requires SortedSegs(k.sndBuf) && AllFresh(k, added) && i < |k.sndBuf| && k.sndBuf[i].pkt.sn < k.sndNxt
    requires j < |k.sndBuf + added| && AfterFlush(k, (k.sndBuf + added)[j], r) && r.pkt.sn == k.sndBuf[i].pkt.sn
    ensures i == j
  {
    AddedLater(k, added, j);
  }

  lemma {:induction false} AddedLater(k: Kcb, added: seq<Seg>, j: nat)
    requires AllFresh(k, added) && j < |k.sndBuf + added|
    ensures j < |k.sndBuf| || (k.sndBuf + added)[j].pkt.sn >= k.sndNxt
  {
    if j >= |k.sndBuf| {
      var i := j - |k.sndBuf|;
      assert IsFresh(k, added[i], k.sndNxt + i, k.sndQueue[i]);
    }
  }

  lemma {:induction false} NextFlush(k: Kcb, g: Seg)
    requires k.clock.updated && SortedSegs(k.sndBuf) && g in k.sndBuf && g.pkt.sn < k.sndNxt && g.pkt.cmd == CMD_PUSH
    requires g.xmit >= 1 && !PastDeadline(k, g) && k.cfg.fastresend > 0
    ensures Carries(Engine.Flush(Ideal, k).out, g.pkt.sn) <==>
              g.fastack >= k.cfg.fastresend && (I32(g.xmit) <= k.cfg.fastlimit || k.cfg.fastlimit <= 0)
  {
    CarriesIff(k, g);
  }

  /** The next flush after c acknowledgements counted against a segment. */
  lemma {:induction false} CountedFlush(k: Kcb, g: Seg, c: nat)
    requires k.clock.updated && SortedSegs(k.sndBuf) && Counted(g, c) in k.sndBuf
    requires g.pkt.sn < k.sndNxt && g.pkt.cmd == CMD_PUSH && g.xmit >= 1
    requires !PastDeadline(k, g) && k.cfg.fastresend > 0 && g.fastack + c < M32
    ensures Carries(Engine.Flush(Ideal, k).out, g.pkt.sn) <==>
              g.fastack + c >= k.cfg.fastresend && (I32(g.xmit) <= k.cfg.fastlimit || k.cfg.fastlimit <= 0)
  {
    U32Small(g.fastack + c);
    NextFlush(k, Counted(g, c));
  }

  /** Fast retransmission, exactly.  A segment has been sent, some datagrams arrive that do not
      acknowledge it, and its deadline is not reached.  The next flush sends it again if and only if
      fastresend or more datagrams, with those counted before, were led by the acknowledgement of a later
      number sent no earlier, and it has not been sent too often. */
  lemma {:induction false} FastRetransmit(k: Kcb, ds: seq<Datagram>, g: Seg, k2: Kcb)
    requires SortedSegs(k.sndBuf) && g in k.sndBuf && forall i :: 0 <= i < |ds| ==> !Acknowledges(ds[i], g.pkt.sn)
    requires g.pkt.sn < k.sndNxt && g.pkt.cmd == CMD_PUSH && g.xmit >= 1
    requires k2.sndBuf == Fed(k, ds).sndBuf && k2.sndNxt == k.sndNxt && k2.cfg == k.cfg && k2.clock.updated
    requires !PastDeadline(k2, g) && k.cfg.fastresend > 0 && g.fastack + SkipCount(ds, g, k.sndNxt) < M32
    ensures Carries(Engine.Flush(Ideal, k2).out, g.pkt.sn) <==>
              && g.fastack + SkipCount(ds, g, k.sndNxt) >= k.cfg.fastresend
              && (I32(g.xmit) <= k.cfg.fastlimit || k.cfg.fastlimit <= 0)
  {
    FedCounts(k, ds, g);
    CountedFlush(k2, g, SkipCount(ds, g, k.sndNxt));
  }
}
