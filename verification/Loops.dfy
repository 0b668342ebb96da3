/** The loops and step-by-step computations of the engine on values, each against the function of
    `Engine` it computes on wrapping 32-bit sequence numbers, and what a flush goes through. */
module Loops {
  import opened Words
  import opened Seqs
  import opened Engine
  import opened Wire
  import Scans

  // ---- The scans, as loops ----------------------------------------------------------------

  lemma {:induction false} AckScanRound(buf: seq<Seg>, i: nat, sn: int)
    requires i < |buf|
    requires AckScan(Wrap32, buf, sn) == buf[..i] + AckScan(Wrap32, buf[i..], sn)
    ensures sn == buf[i].pkt.sn ==> AckScan(Wrap32, buf, sn) == buf[..i] + buf[i + 1..]
    ensures sn != buf[i].pkt.sn && Itimediff(sn, buf[i].pkt.sn) < 0 ==> AckScan(Wrap32, buf, sn) == buf
    ensures sn != buf[i].pkt.sn && Itimediff(sn, buf[i].pkt.sn) >= 0 ==>
              AckScan(Wrap32, buf, sn) == buf[..i + 1] + AckScan(Wrap32, buf[i + 1..], sn)
  {
    assert buf[i..][1..] == buf[i + 1..];
    assert buf[..i] + buf[i..] == buf;
    assert buf[..i + 1] == buf[..i] + [buf[i]];
    Assoc(buf[..i], [buf[i]], AckScan(Wrap32, buf[i + 1..], sn));
  }

  /** The loop of `ikcp_parse_ack`. */
  method ScanAck(buf: seq<Seg>, sn: u32) returns (r: seq<Seg>)
    ensures r == AckScan(Wrap32, buf, sn)
  {
    for i := 0 to |buf|
      invariant AckScan(Wrap32, buf, sn) == buf[..i] + AckScan(Wrap32, buf[i..], sn)
    {
      AckScanRound(buf, i, sn);
      if sn == buf[i].pkt.sn {
        return buf[..i] + buf[i + 1..];
      }
      if Itimediff(sn, buf[i].pkt.sn) < 0 {
        return buf;
      }
    }
    assert buf[..|buf|] + [] == buf;
    return buf;
  }

  /** The loop of `ikcp_parse_una`. */
  method ScanUna(buf: seq<Seg>, una: u32) returns (r: seq<Seg>)
    ensures r == Engine.ParseUna(Wrap32, buf, una)
  {
    r := buf;
    while r != [] && Itimediff(una, r[0].pkt.sn) > 0
      invariant Engine.ParseUna(Wrap32, r, una) == Engine.ParseUna(Wrap32, buf, una)
    {
      r := r[1..];
    }
  }

  lemma {:induction false} FastackRound(was: seq<Seg>, done: seq<Seg>, g: Seg, sn: int, ts: u32)
    requires |done| < |was| && g == CountFastack(was[|done|], sn, ts)
    requires FastackScan(Wrap32, was, sn, ts) == done + FastackScan(Wrap32, was[|done|..], sn, ts)
    ensures var i := |done|;
            FastackScan(Wrap32, was, sn, ts) == if Itimediff(sn, was[i].pkt.sn) < 0 then done + was[i..]
                                                else (done + [g]) + FastackScan(Wrap32, was[i + 1..], sn, ts)
  {
    var i := |done|;
    assert was[i..][1..] == was[i + 1..];
    Assoc(done, [g], FastackScan(Wrap32, was[i + 1..], sn, ts));
  }

  method CountOne(g: Seg, sn: u32, ts: u32) returns (r: Seg)
    ensures r == CountFastack(g, sn, ts)
  {
    r := g;
    if sn != g.pkt.sn && Itimediff(ts, g.pkt.ts) >= 0 {
      r := g.(fastack := U32(g.fastack + 1));
    }
  }

  /** The loop of `ikcp_parse_fastack`: which counters it raises. */
  method ScanFastack(buf: seq<Seg>, sn: u32, ts: u32) returns (r: seq<Seg>)
    ensures r == FastackScan(Wrap32, buf, sn, ts) && Scans.CountsRaised(Wrap32, buf, sn, ts, r)
  {
    Scans.FastackScanRaises(Wrap32, buf, sn, ts);
    r := FastackRounds(buf, sn, ts);
  }

  method FastackRounds(buf: seq<Seg>, sn: u32, ts: u32) returns (r: seq<Seg>)
    ensures r == FastackScan(Wrap32, buf, sn, ts)
  {
    r := buf;
    ghost var done := [];
    for i := 0 to |buf|
      invariant |done| == i && r == done + buf[i..]
      invariant FastackScan(Wrap32, buf, sn, ts) == done + FastackScan(Wrap32, buf[i..], sn, ts)
    {
      var g := CountOne(buf[i], sn, ts);
      FastackRound(buf, done, g, sn, ts);
      if Itimediff(sn, buf[i].pkt.sn) < 0 {
        return;
      }
      r := r[i := g];
      UpdateAt(done, buf, i, g);
      done := done + [g];
    }
  }

  lemma {:induction false} UpdateAt<T>(done: seq<T>, buf: seq<T>, i: nat, x: T)
    requires |done| == i < |buf|
    ensures (done + buf[i..])[i := x] == (done + [x]) + buf[i + 1..]
    ensures x == buf[i] ==> done + buf[i..] == (done + [x]) + buf[i + 1..]
  {
  }

  lemma {:induction false} InsertRound(buf: seq<Pkt>, n: nat, p: Pkt)
    requires 0 < n <= |buf| && Insert(Wrap32, buf, p) == Insert(Wrap32, buf[..n], p) + buf[n..]
    ensures buf[n - 1].sn == p.sn ==> Insert(Wrap32, buf, p) == buf
    ensures buf[n - 1].sn != p.sn && Itimediff(p.sn, buf[n - 1].sn) > 0 ==>
              Insert(Wrap32, buf, p) == buf[..n] + [p] + buf[n..]
    ensures buf[n - 1].sn != p.sn && Itimediff(p.sn, buf[n - 1].sn) <= 0 ==>
              Insert(Wrap32, buf, p) == Insert(Wrap32, buf[..n - 1], p) + buf[n - 1..]
  {
    assert buf[..n][..n - 1] == buf[..n - 1];
    assert buf[..n] + buf[n..] == buf;
    assert [buf[n - 1]] + buf[n..] == buf[n - 1..];
    Assoc(Insert(Wrap32, buf[..n - 1], p), [buf[n - 1]], buf[n..]);
  }

  /** The insertion scan of `ikcp_parse_data`, from the tail of rcv_buf. */
  method ScanInsert(buf: seq<Pkt>, p: Pkt) returns (r: seq<Pkt>, repeated: bool)
    ensures r == Insert(Wrap32, buf, p)
    ensures |r| == |buf| + if repeated then 0 else 1
  {
    var n := |buf|;
    assert buf[..n] == buf && buf + [] == buf;
    assert Insert(Wrap32, buf, p) + [] == Insert(Wrap32, buf, p);
    while n > 0
      invariant 0 <= n <= |buf|
      invariant Insert(Wrap32, buf, p) == Insert(Wrap32, buf[..n], p) + buf[n..]
    {
      InsertRound(buf, n, p);
      if buf[n - 1].sn == p.sn {
        return buf, true;
      }
      if Itimediff(p.sn, buf[n - 1].sn) > 0 {
        break;
      }
      n := n - 1;
    }
    assert n == 0 ==> buf[..0] + [p] == [p];
    return buf[..n] + [p] + buf[n..], false;
  }

  /** The deadline scan of `ikcp_check`. */
  method ScanDeadlines(buf: seq<Seg>, now: u32) returns (tm: int)
    ensures tm == NearestResend(buf, now, 0x7fff_ffff)
  {
    tm := 0x7fff_ffff;
    for i := 0 to |buf|
      invariant tm > 0
      invariant NearestResend(buf, now, 0x7fff_ffff) == NearestResend(buf[i..], now, tm)
    {
      assert buf[i..][1..] == buf[i + 1..];
      var diff := Itimediff(buf[i].resendts, now);
      if diff <= 0 {
        return 0;
      }
      if diff < tm { tm := diff; }
    }
  }

  /** The merge loop of `ikcp_recv`: how many segments it takes, and their bytes. */
  method ScanMessage(q: seq<Pkt>) returns (n: nat, data: seq<byte>)
    ensures n == MsgCount(q) && data == MsgBytes(q)
  {
    n, data := 0, [];
    while n < |q|
      invariant 0 <= n <= |q| && MsgCount(q) == n + MsgCount(q[n..])
      invariant data == Bytes(q[..n])
    {
      assert q[n..][1..] == q[n + 1..];
      BytesSnoc(q[..n], q[n]);
      assert q[..n + 1] == q[..n] + [q[n]];
      data := data + q[n].data;
      n := n + 1;
      if q[n - 1].frg == 0 {
        break;
      }
    }
  }

  lemma {:induction false} BytesSnoc(q: seq<Pkt>, p: Pkt)
    ensures Bytes(q + [p]) == Bytes(q) + p.data
  {
    if q == [] {
      assert q + [p] == [p];
    } else {
      BytesSnoc(q[1..], p);
      assert (q + [p])[1..] == q[1..] + [p];
      Assoc(q[0].data, Bytes(q[1..]), p.data);
    }
  }

  /** The arithmetic of `ikcp_update_ack`. */
  method Estimate(cfg: Config, r: Rtt, rtt: int) returns (e: Rtt)
    ensures e == Engine.UpdateAck(cfg, r, rtt)
  {
    var s, v;
    if r.srtt == 0 {
      s, v := rtt, TruncDiv(rtt, 2);
    } else {
      var delta := I32(rtt - r.srtt);
      if delta < 0 { delta := -delta; }
      v := I32(TruncDiv(I32(3 * r.rttval) + delta, 4));
      s := TruncDiv(I32(7 * r.srtt + rtt), 8);
      if s < 1 { s := 1; }
    }
    var rto := U32(s + Max(cfg.interval, U32(4 * v)));
    e := Rtt(s, v, Bound(cfg.MinRto(), rto, RTO_MAX));
  }

  /** The congestion-window arithmetic of `ikcp_input`. */
  method GrowLinear(c: Cong, mss: u32, rmtWnd: u16) returns (r: Cong)
    requires mss > 0
    ensures r == Grow(c, mss, rmtWnd)
  {
    var cwnd, incr := c.cwnd, c.incr;
    if cwnd < rmtWnd {
      if cwnd < c.ssthresh {
        cwnd := U32(cwnd + 1);
        incr := U32(incr + mss);
      } else {
        if incr < mss { incr := mss; }
        incr := U32(incr + U32(mss * mss) / incr + mss / 16);
        if U32((cwnd + 1) * mss) <= incr {
          cwnd := U32(U32(incr + mss - 1) / mss);
        }
      }
      if cwnd > rmtWnd {
        cwnd := rmtWnd;
        incr := U32(rmtWnd * mss);
      }
    }
    r := c.(cwnd := cwnd, incr := incr);
  }

  /** The length loop of `ikcp_peeksize`. */
  method ScanLength(q: seq<Pkt>) returns (length: nat)
    ensures length == |MsgBytes(q)|
  {
    var i := 0;
    length := 0;
    while i < |q|
      invariant 0 <= i <= |q| && MsgCount(q) == i + MsgCount(q[i..])
      invariant length == |Bytes(q[..i])|
    {
      assert q[i..][1..] == q[i + 1..];
      BytesSnoc(q[..i], q[i]);
      assert q[..i + 1] == q[..i] + [q[i]];
      length := length + |q[i].data|;
      i := i + 1;
      if q[i - 1].frg == 0 {
        break;
      }
    }
  }

  /** The fragment count of `ikcp_send`. */
  method CountFragments(mss: int, len: nat) returns (count: nat)
    requires mss > 0
    ensures count == FragCount(mss, len)
  {
    FragCountIsQuotient(mss, len);
    if len <= mss {
      count := 1;
    } else {
      count := (len + mss - 1) / mss;
    }
  }

  /** One retransmission decision of `ikcp_flush`, in an engine s. */
  method Resend(ghost s: Kcb, cfg: Config, current: u32, rxRto: u32, wnd: u16, rcvNxt: u32, seg: Seg)
    returns (r: Seg, due: Due)
    requires s.cfg == cfg && s.clock.current == current && s.rtt.rto == rxRto && s.rcvNxt == rcvNxt
    requires wnd == WndUnused(s) % 0x1_0000
    ensures r == FlushSeg(s, seg) && due == DueOf(s, seg)
    ensures r.pkt.sn == seg.pkt.sn && r.pkt.data == seg.pkt.data
  {
    var resent := if cfg.fastresend > 0 then cfg.fastresend else NO_FASTRESEND;
    var rtomin := if cfg.nodelay == 0 then rxRto / 8 else 0;
    r, due := seg, Quiet;
    if seg.xmit == 0 {
      due := Fresh;
      r := r.(xmit := U32(r.xmit + 1), rto := rxRto, resendts := U32(current + rxRto + rtomin));
    } else if Itimediff(current, seg.resendts) >= 0 {
      due := Timeout;
      r := r.(xmit := U32(r.xmit + 1));
      if cfg.nodelay == 0 {
        r := r.(rto := U32(r.rto + Max(r.rto, rxRto)));
      } else {
        var step := if cfg.nodelay < 2 then I32(r.rto) else I32(rxRto);
        r := r.(rto := U32(r.rto + TruncDiv(step, 2)));
      }
      r := r.(resendts := U32(current + r.rto));
    } else if seg.fastack >= resent {
      if I32(seg.xmit) <= cfg.fastlimit || cfg.fastlimit <= 0 {
        due := FastResend;
        r := r.(xmit := U32(r.xmit + 1), fastack := 0, resendts := U32(current + r.rto));
      }
    }
    if !due.Quiet? {
      r := r.(pkt := r.pkt.(ts := current, wnd := wnd, una := rcvNxt));
    }
  }

  /** The window update at the end of `ikcp_flush`. */
  method Shrink(cfg: Config, c: Cong, inflight: u32, wnd: u32, change: bool, lost: bool) returns (r: Cong)
    ensures r == Cut(c, cfg, inflight, wnd, change, lost)
  {
    var mss := cfg.Mss();
    r := c;
    if change {
      var thresh := Max(U32(inflight) / 2, THRESH_MIN);
      var cwnd := U32(thresh + cfg.Resent());
      r := Cong(cwnd, thresh, U32(cwnd * mss));
    }
    if lost {
      r := Cong(1, Max(wnd / 2, THRESH_MIN), mss);
    }
    if r.cwnd < 1 {
      r := r.(cwnd := 1, incr := mss);
    }
  }

  /** n fragments remain for `rest`: none exactly when it is used up. */
  ghost predicate FragmentsLeft(mss: int, rest: seq<byte>, n: int) {
    mss > 0 && 0 <= n <= 0x100 && if n == 0 then rest == [] else n == FragCount(mss, |rest|)
  }

  lemma {:induction false} FragmentRound(q: seq<Frag>, mss: int, rest: seq<byte>, n: int, stream: bool, f: Frag)
    requires FragmentsLeft(mss, rest, n) && n > 0
    requires f.frg == (if stream then 0 else n - 1) && f.data == rest[..Min(|rest|, mss)]
    ensures FragmentsLeft(mss, rest[|f.data|..], n - 1)
    ensures q + Fragments(mss, rest, n, stream) == (q + [f]) + Fragments(mss, rest[|f.data|..], n - 1, stream)
  {
    Assoc(q, [f], Fragments(mss, rest[|f.data|..], n - 1, stream));
  }

  // ---- Packing ----------------------------------------------------------------------------

  /** What the output callback has been given once `rest` is written after the buffered `cur`. */
  ghost function Pending(mtu: nat, out: seq<seq<byte>>, cur: Datagram, rest: seq<Pkt>): seq<seq<byte>> {
    out + Map(Encode, Pack(mtu, cur, rest))
  }

  lemma {:induction false} PackStep(mtu: nat, out: seq<seq<byte>>, cur: Datagram, p: Pkt, rest: seq<Pkt>)
    requires Size(cur) <= mtu && PktSize(p) <= mtu
    ensures Size(cur) + PktSize(p) > mtu ==>
              Pending(mtu, out, cur, [p] + rest) == Pending(mtu, out + [Encode(cur)], [p], rest)
    ensures Size(cur) + PktSize(p) <= mtu ==>
              Pending(mtu, out, cur, [p] + rest) == Pending(mtu, out, cur + [p], rest)
    ensures Size([p]) == PktSize(p) && Size(cur + [p]) == Size(cur) + PktSize(p)
    ensures Encode([p]) == EncodeHeader(p) + p.data && Encode(cur + [p]) == Encode(cur) + (EncodeHeader(p) + p.data)
  {
    SizeSnoc(cur, p);
    assert [p][1..] == [] && ([p] + rest)[1..] == rest;
    EncodeAppend(cur, [p]);
    assert EncodeHeader(p) + p.data + [] == EncodeHeader(p) + p.data;
    if Size(cur) + PktSize(p) > mtu {
      var tail := Pack(mtu, [p], rest);
      assert ([cur] + tail)[0] == cur && ([cur] + tail)[1..] == tail;
      Assoc(out, [Encode(cur)], Map(Encode, tail));
    }
  }

  lemma {:induction false} PackEnd(mtu: nat, out: seq<seq<byte>>, cur: Datagram)
    ensures Pending(mtu, out, cur, []) == if Size(cur) == 0 then out else out + [Encode(cur)]
  {
    if cur != [] {
      assert [cur][1..] == [];
      assert Map(Encode, [cur]) == [Encode(cur)];
    }
  }

  lemma {:induction false} AckRound(h: Pkt, acks: seq<Ack>, i: nat, rest: seq<Pkt>)
    requires i < |acks|
    ensures var seg := AfterAcks(h, acks[..i]).(sn := acks[i].sn, ts := acks[i].ts);
            && AckPkts(h, acks[i..]) + rest == [seg] + (AckPkts(h, acks[i + 1..]) + rest)
            && seg == AfterAcks(h, acks[..i + 1])
  {
    assert acks[i..][1..] == acks[i + 1..];
    Assoc([h.(sn := acks[i].sn, ts := acks[i].ts)], AckPkts(h, acks[i + 1..]), rest);
  }

  lemma {:induction false} ProbeParts(h: Pkt, pr: Probe, rest: seq<Pkt>)
    ensures var tell := if pr.tell then [h.(cmd := CMD_WINS)] else [];
            && ProbePkts(h, pr) + rest == if pr.ask then [h.(cmd := CMD_WASK)] + (tell + rest) else tell + rest
    ensures [] + rest == rest
  {
  }

  /** The growth of the probe interval. */
  method NextProbe(wait0: u32, current: u32) returns (wait: u32, ts: u32)
    ensures wait == Min(U32(Max(wait0, PROBE_INIT) + Max(wait0, PROBE_INIT) / 2), PROBE_LIMIT)
    ensures ts == U32(current + wait)
  {
    wait := wait0;
    if wait < PROBE_INIT { wait := PROBE_INIT; }
    wait := U32(wait + wait / 2);
    if wait > PROBE_LIMIT { wait := PROBE_LIMIT; }
    ts := U32(current + wait);
  }

  ghost predicate At(i: int) { true }

  /** The outcomes of a flush of s.  The trigger keeps each outcome folded until asked for. */
  ghost predicate Planned(s: Kcb, plan: seq<Outcome>) {
    |plan| == |s.sndBuf|
    && forall i {:trigger At(i)} :: 0 <= i < |plan| && At(i) ==> plan[i] == OutcomeOf(s, s.sndBuf[i])
  }

  /** The counters of the retransmission loop. */
  datatype Counts = Counts(xmit: u32, dead: bool, lost: bool, change: nat) {
    function Next(o: Outcome): Counts {
      Counts(if o.due.Timeout? then U32(xmit + 1) else xmit, dead || o.Dead(), lost || o.due.Timeout?,
             if o.due.FastResend? then change + 1 else change)
    }
  }

  /** Their values after i rounds. */
  function Count(s: Kcb, plan: seq<Outcome>, i: nat): Counts
    requires i <= |plan|
  {
    if i == 0 then Counts(s.xmit, s.dead, false, 0) else Count(s, plan, i - 1).Next(plan[i - 1])
  }

  /** The first i rounds have stored their outcomes. */
  ghost predicate DoneTo(buf: seq<Seg>, buf0: seq<Seg>, plan: seq<Outcome>, i: nat) {
    && |buf| == |buf0| == |plan|
    && forall j :: 0 <= j < |plan| ==> buf[j] == if j < i then plan[j].seg else buf0[j]
  }

  lemma {:induction false} DoneNext(buf: seq<Seg>, buf0: seq<Seg>, plan: seq<Outcome>, i: nat)
    requires DoneTo(buf, buf0, plan, i) && i < |plan|
    ensures buf[i] == buf0[i] && DoneTo(buf[i := plan[i].seg], buf0, plan, i + 1)
  {
  }

  /** What the rounds from i on do. */
  function Rest(plan: seq<Outcome>, i: nat): DataOut
    requires i <= |plan|
    decreases |plan| - i
  {
    if i == |plan| then DataOut([], [], 0, 0, false) else plan[i].Before(Rest(plan, i + 1))
  }

  /** The counters when the loop ends are those now and what `d` counts. */
  ghost predicate Ends(c: Counts, last: Counts, d: DataOut) {
    && last.xmit == U32(c.xmit + d.lost) && last.dead == (c.dead || d.dead)
    && last.lost == (c.lost || d.lost > 0) && last.change == c.change + d.change
  }

  lemma {:induction false} EndsNext(c: Counts, o: Outcome, last: Counts, d: DataOut)
    requires Ends(c.Next(o), last, d)
    ensures Ends(c, last, o.Before(d))
  {
    U32Add(c.xmit + 1, d.lost);
  }

  lemma {:induction false} PlanEnds(s: Kcb, plan: seq<Outcome>, i: nat)
    requires i <= |plan|
    ensures Ends(Count(s, plan, i), Count(s, plan, |plan|), Rest(plan, i))
    decreases |plan| - i
  {
    if i == |plan| {
      U32Small(Count(s, plan, i).xmit);
    } else {
      PlanEnds(s, plan, i + 1);
      EndsNext(Count(s, plan, i), plan[i], Count(s, plan, |plan|), Rest(plan, i + 1));
    }
  }

  /** Carrying out the plan is what `FlushData` describes. */
  lemma {:induction false} PlanIsFlushData(s: Kcb, plan: seq<Outcome>, i: nat)
    requires i <= |plan| && Planned(s, plan)
    ensures FlushData(s, s.sndBuf[i..]) == Rest(plan, i)
    decreases |plan| - i
  {
    if i == |plan| {
      assert s.sndBuf[i..] == [];
    } else {
      PlanIsFlushData(s, plan, i + 1);
      assert At(i);
      FlushDataCons(s, s.sndBuf[i..], plan[i]);
      assert s.sndBuf[i..][1..] == s.sndBuf[i + 1..];
    }
  }

  lemma {:induction false} RestAt(plan: seq<Outcome>, i: nat, j: nat)
    requires i <= j < |plan|
    ensures |Rest(plan, i).buf| == |plan| - i && Rest(plan, i).buf[j - i] == plan[j].seg
    decreases |plan| - i
  {
    if i < j { RestAt(plan, i + 1, j); } else if i + 1 < |plan| { RestAt(plan, i + 1, i + 1); }
  }

  lemma {:induction false} PlanFits(s: Kcb, plan: seq<Outcome>, i: nat, mss: int)
    requires i <= |plan| && Planned(s, plan) && Sendables(s.sndBuf, mss)
    ensures Sendables(Rest(plan, i).buf, mss)
    decreases |plan| - i
  {
    if i < |plan| {
      PlanFits(s, plan, i + 1, mss);
      assert At(i);
      assert s.sndBuf[i] in s.sndBuf;
    }
  }

  /** The plan of a flush, and what it amounts to. */
  lemma {:induction false} PlanOf(s: Kcb, mss: int) returns (plan: seq<Outcome>)
    requires Sendables(s.sndBuf, mss)
    ensures Planned(s, plan) && Sendables(Rest(plan, 0).buf, mss)
    ensures Rest(plan, 0) == FlushData(s, s.sndBuf)
    ensures Ends(Counts(s.xmit, s.dead, false, 0), Count(s, plan, |plan|), Rest(plan, 0))
  {
    plan := seq(|s.sndBuf|, i requires 0 <= i < |s.sndBuf| => OutcomeOf(s, s.sndBuf[i]));
    PlanIsFlushData(s, plan, 0);
    assert s.sndBuf[0..] == s.sndBuf;
    PlanEnds(s, plan, 0);
    PlanFits(s, plan, 0, mss);
  }

  lemma {:induction false} SameBuf(plan: seq<Outcome>, buf: seq<Seg>)
    requires |buf| == |plan| && forall j :: 0 <= j < |plan| ==> buf[j] == plan[j].seg
    ensures buf == Rest(plan, 0).buf
  {
    forall j | 0 <= j < |plan| ensures |Rest(plan, 0).buf| == |plan| && Rest(plan, 0).buf[j] == buf[j] {
      RestAt(plan, 0, j);
    }
  }

  /** Acknowledgements and probes, in the order written. */
  function Control(s: Kcb, pr: Probe): seq<Pkt> {
    AckPkts(Header(s), s.acks) + ProbePkts(AfterAcks(Header(s), s.acks), pr)
  }

  lemma {:induction false} ControlIs(s: Kcb, pr: Probe, wnd: u16, rest: seq<Pkt>)
    requires wnd == Engine.WndUnused(s) % 0x1_0000
    ensures var h := Pkt(s.cfg.conv, CMD_ACK, 0, wnd, 0, 0, s.rcvNxt, []);
            Control(s, pr) + rest == AckPkts(h, s.acks) + (ProbePkts(AfterAcks(h, s.acks), pr) + rest)
  {
    Assoc(AckPkts(Header(s), s.acks), ProbePkts(AfterAcks(Header(s), s.acks), pr), rest);
  }

  /** The engine after the plan and the window update. */
  function Done(f: Kcb, plan: seq<Outcome>, win: u32): Kcb {
    var c := Count(f, plan, |plan|);
    f.(sndBuf := Rest(plan, 0).buf, xmit := c.xmit, dead := c.dead, cong := Reduced(f, c, win))
  }

  function Reduced(f: Kcb, c: Counts, win: u32): Cong {
    Cut(f.cong, f.cfg, U32(f.sndNxt - f.sndUna), win, c.change > 0, c.lost)
  }

  lemma {:induction false} FlushValue(s: Kcb)
    requires s.clock.updated
    ensures var f := Filled(Wrap32, s); var d := FlushData(f, f.sndBuf);
            Engine.Flush(Wrap32, s) ==
            FlushOut(Sent(f, d, EffWnd(s)), Pack(s.cfg.mtu, [], Control(s, ProbeTimer(s)) + d.pkts))
  {
  }

  lemma {:induction false} DoneValue(f: Kcb, plan: seq<Outcome>, win: u32)
    requires Ends(Counts(f.xmit, f.dead, false, 0), Count(f, plan, |plan|), Rest(plan, 0))
    ensures Done(f, plan, win) == Sent(f, Rest(plan, 0), win)
  {
  }

  /** The values a flush of s goes through: after acknowledgements and probes, after filling the
      window, and the plan of the retransmission loop. */
  datatype Course = Course(cleared: Kcb, filled: Kcb, plan: seq<Outcome>, probe: Probe, wnd: u32) {
    function End(): Kcb { Done(filled, plan, wnd) }
    function Written(s: Kcb): seq<Pkt> { Control(s, probe) + Rest(plan, 0).pkts }
  }

  /** The first half of the course.  As in `Planned`, the trigger keeps the body folded. */
  ghost predicate Starts(s: Kcb, c: Course) {
    forall i {:trigger At(i)} :: At(i) ==>
      && c.probe == ProbeTimer(s)
      && c.cleared == s.(acks := [], probe := c.probe.(ask := false, tell := false))
  }

  /** The second half. */
  ghost predicate Continues(c: Course) {
    && Planned(c.filled, c.plan) && Sendables(Rest(c.plan, 0).buf, c.cleared.cfg.Mss())
    && forall i {:trigger At(i)} :: At(i) ==>
         c.wnd == Engine.EffWnd(c.cleared) && c.filled == Fill(Wrap32, c.cleared, c.wnd)
  }

  lemma {:induction false} FlushIs(s: Kcb) returns (c: Course)
    requires s.clock.updated && Sendables(s.sndBuf, s.cfg.Mss()) && Waiting(s.cfg, s.sndQueue) && 0 <= s.sndNxt < M32
    ensures Starts(s, c) && Continues(c)
    ensures Engine.Flush(Wrap32, s) == FlushOut(c.End(), Pack(s.cfg.mtu, [], c.Written(s)))
  {
    FillSendables(Cleared(s), EffWnd(s));
    var plan := PlanOf(Filled(Wrap32, s), s.cfg.Mss());
    FlushValue(s);
    DoneValue(Filled(Wrap32, s), plan, EffWnd(s));
    c := Course(Cleared(s), Filled(Wrap32, s), plan, ProbeTimer(s), EffWnd(s));
  }

  lemma {:induction false} FillSendables(s: Kcb, wnd: int)
    requires Sendables(s.sndBuf, s.cfg.Mss()) && Waiting(s.cfg, s.sndQueue) && 0 <= s.sndNxt < M32
    ensures Sendables(Fill(Wrap32, s, wnd).sndBuf, s.cfg.Mss())
    decreases |s.sndQueue|
  {
    if s.sndQueue != [] && Itimediff(s.sndNxt, U32(s.sndUna + wnd)) < 0 {
      FillSendables(FillOne(Wrap32, s), wnd);
    }
  }

  lemma {:induction false} HeaderParts(b: seq<byte>, p: Pkt)
    ensures b + Encode32(p.conv) + [p.cmd] + [p.frg] + Encode16(p.wnd) + Encode32(p.ts) + Encode32(U32(p.sn))
            + Encode32(U32(p.una)) + Encode32(U32(|p.data|)) + p.data == b + (EncodeHeader(p) + p.data)
  {
    assert [p.cmd] + [p.frg] == [p.cmd, p.frg];
  }

  // ---- What the scans keep ----------------------------------------------------------------

  /** Segments of snd_buf fit the MTU and have 32-bit numbers. */
  ghost predicate Sendables(buf: seq<Seg>, mss: int) {
    forall g :: g in buf ==> |g.pkt.data| <= mss && 0 <= g.pkt.sn < M32
  }

  lemma {:induction false} AckScanKeeps(buf: seq<Seg>, sn: int, mss: int)
    requires Sendables(buf, mss)
    ensures Sendables(AckScan(Wrap32, buf, sn), mss) && |AckScan(Wrap32, buf, sn)| <= |buf|
  {
    if buf != [] {
      AckScanKeeps(buf[1..], sn, mss);
    }
  }

  lemma {:induction false} UnaKeeps(buf: seq<Seg>, una: int, mss: int)
    requires Sendables(buf, mss)
    ensures Sendables(Engine.ParseUna(Wrap32, buf, una), mss) && |Engine.ParseUna(Wrap32, buf, una)| <= |buf|
  {
    if buf != [] {
      UnaKeeps(buf[1..], una, mss);
    }
  }

  lemma {:induction false} FastackKeeps(buf: seq<Seg>, sn: int, ts: u32, mss: int)
    requires Sendables(buf, mss)
    ensures Sendables(FastackScan(Wrap32, buf, sn, ts), mss) && |FastackScan(Wrap32, buf, sn, ts)| == |buf|
  {
    if buf != [] {
      FastackKeeps(buf[1..], sn, ts, mss);
    }
  }

  /** Segments of snd_queue fit the MTU, and carry no fragment number in stream mode. */
  ghost predicate Waiting(cfg: Config, q: seq<Frag>) {
    forall f :: f in q ==> |f.data| <= cfg.Mss() && (cfg.stream ==> f.frg == 0)
  }
}
