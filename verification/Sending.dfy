/** What one flush does, in terms of the fields of the engine it starts from: which segments it
    numbers, which it sends, in what state it leaves them, and what it counts. */
module Sending {
  import opened Words
  import opened Seqs
  import opened Engine
  import opened Scans
  import opened Wire
  import opened Steps

  // ---- The window -------------------------------------------------------------------------

  /** w is the least of the send window, the peer's window and, unless it is turned off, the
      congestion window. */
  ghost predicate IsWindow(k: Kcb, w: int) {
    && w <= k.cfg.sndWnd && w <= k.rmtWnd && (!k.cfg.nocwnd ==> w <= k.cong.cwnd)
    && (w == k.cfg.sndWnd || w == k.rmtWnd || (!k.cfg.nocwnd && w == k.cong.cwnd))
  }

  lemma {:induction false} WindowIs(k: Kcb)
    ensures IsWindow(k, EffWnd(k))
    ensures forall w :: IsWindow(k, w) <==> w == EffWnd(k)
  {
  }

  /** A flush numbers as many waiting segments as the window from snd_una leaves room for. */
  lemma {:induction false} FlushNumbers(k: Kcb, w: int) returns (n: nat)
    requires k.clock.updated && IsWindow(k, w)
    ensures n == Min(|k.sndQueue|, Max(0, k.sndUna + w - k.sndNxt))
    ensures var r := Engine.Flush(Ideal, k).k;
            && r.sndNxt == k.sndNxt + n && r.sndQueue == k.sndQueue[n..] && |r.sndBuf| == |k.sndBuf| + n
            && r.sndUna == k.sndUna
  {
    WindowIs(k);
    n := FillRun(Cleared(k), w);
    NewSegsAt(DataHeader(Cleared(k)), k.rtt.rto, k.sndNxt, k.sndQueue, n);
    FlushParts(k);
    FlushDataAt(Filled(Ideal, k), Filled(Ideal, k).sndBuf);
  }

  // ---- Which segments are sent ------------------------------------------------------------

  predicate PastDeadline(k: Kcb, g: Seg) { Itimediff(k.clock.current, g.resendts) >= 0 }

  /** Skipped by enough acknowledgements, and not sent too often before. */
  predicate Skipped(k: Kcb, g: Seg) {
    && g.fastack >= (if k.cfg.fastresend > 0 then k.cfg.fastresend else 0xffff_ffff)
    && (I32(g.xmit) <= k.cfg.fastlimit || k.cfg.fastlimit <= 0)
  }

  predicate IsSent(k: Kcb, g: Seg) { g.xmit == 0 || PastDeadline(k, g) || Skipped(k, g) }

  predicate TimesOut(k: Kcb, g: Seg) { g.xmit > 0 && PastDeadline(k, g) }

  predicate FastResent(k: Kcb, g: Seg) { g.xmit > 0 && !PastDeadline(k, g) && Skipped(k, g) }

  /** The receive window not yet used, which every packet advertises. */
  function Free(k: Kcb): nat { Max(0, k.cfg.rcvWnd - |k.rcvQueue|) }

  /** The timeout of a segment that is sent now. */
  function NextRto(k: Kcb, g: Seg): u32 {
    if g.xmit == 0 then k.rtt.rto
    else if !PastDeadline(k, g) then g.rto
    else if k.cfg.nodelay == 0 then U32(g.rto + Max(g.rto, k.rtt.rto))
    else if k.cfg.nodelay == 1 then U32(g.rto + TruncDiv(I32(g.rto), 2))
    else U32(g.rto + TruncDiv(I32(k.rtt.rto), 2))
  }

  /** r is segment g after it is sent now: stamped with the time, the window and rcv_nxt. */
  ghost predicate SentAgain(k: Kcb, g: Seg, r: Seg) {
    var slack := if g.xmit == 0 && k.cfg.nodelay == 0 then k.rtt.rto / 8 else 0;
    && r.pkt == g.pkt.(ts := k.clock.current, wnd := r.pkt.wnd, una := k.rcvNxt) && r.pkt.wnd == Free(k)
    && r.xmit == U32(g.xmit + 1) && r.rto == NextRto(k, g) && r.resendts == U32(k.clock.current + r.rto + slack)
    && r.fastack == if FastResent(k, g) then 0 else g.fastack
  }

  ghost predicate AfterFlush(k: Kcb, g: Seg, r: Seg) { if IsSent(k, g) then SentAgain(k, g, r) else r == g }

  /** What decides about a segment does not change while the window is filled. */
  ghost predicate SameView(k: Kcb, f: Kcb) {
    f.cfg == k.cfg && f.clock == k.clock && f.rtt == k.rtt && f.rcvNxt == k.rcvNxt && f.rcvQueue == k.rcvQueue
  }

  lemma {:induction false} DueIs(k: Kcb, f: Kcb, g: Seg)
    requires SameView(k, f)
    ensures DueOf(f, g).Quiet? <==> !IsSent(k, g)
    ensures DueOf(f, g).Timeout? <==> TimesOut(k, g)
    ensures DueOf(f, g).FastResend? <==> FastResent(k, g)
  {
  }

  lemma {:induction false} SegAfter(k: Kcb, f: Kcb, g: Seg)
    requires SameView(k, f)
    ensures AfterFlush(k, g, FlushSeg(f, g))
  {
    DueIs(k, f, g);
    U32Add(k.clock.current + k.rtt.rto, 0);
  }

  // ---- The retransmission loop ------------------------------------------------------------

  /** What is sent of the segments `was`, which the loop leaves as `now`. */
  function SentOf(k: Kcb, was: seq<Seg>, now: seq<Seg>): seq<Pkt>
    requires |was| == |now|
  {
    if was == [] then [] else (if IsSent(k, was[0]) then [now[0].pkt] else []) + SentOf(k, was[1..], now[1..])
  }

  function TimeoutsIn(k: Kcb, was: seq<Seg>): nat {
    if was == [] then 0 else (if TimesOut(k, was[0]) then 1 else 0) + TimeoutsIn(k, was[1..])
  }

  /** The loop over a whole snd_buf. */
  lemma {:induction false} LoopDoes(k: Kcb, f: Kcb, was: seq<Seg>)
    requires SameView(k, f)
    ensures var d := FlushData(f, was);
            && |d.buf| == |was| && (forall i :: 0 <= i < |was| ==> AfterFlush(k, was[i], d.buf[i]))
            && d.pkts == SentOf(k, was, d.buf) && d.lost == TimeoutsIn(k, was)
  {
    if was != [] {
      var d, rest := FlushData(f, was), FlushData(f, was[1..]);
      LoopDoes(k, f, was[1..]);
      SegAfter(k, f, was[0]);
      DueIs(k, f, was[0]);
      assert d.buf[1..] == rest.buf;
      forall i | 0 <= i < |was| ensures AfterFlush(k, was[i], d.buf[i]) {
        if i > 0 { assert was[i] == was[1..][i - 1] && d.buf[i] == rest.buf[i - 1]; }
      }
    }
  }

  ghost predicate AnyTimeout(k: Kcb, was: seq<Seg>) { exists g :: g in was && TimesOut(k, g) }

  ghost predicate AnyFastResend(k: Kcb, was: seq<Seg>) { exists g :: g in was && FastResent(k, g) }

  /** Some segment is sent for at least the 20th time. */
  ghost predicate AnyTwentieth(k: Kcb, was: seq<Seg>) { exists g :: g in was && IsSent(k, g) && U32(g.xmit + 1) >= 20 }

  lemma {:induction false} LoopCounts(k: Kcb, f: Kcb, was: seq<Seg>)
    requires SameView(k, f)
    ensures var d := FlushData(f, was);
            && (d.lost > 0 <==> AnyTimeout(k, was)) && (d.change > 0 <==> AnyFastResend(k, was))
            && (d.dead <==> AnyTwentieth(k, was))
  {
    if was != [] {
      LoopCounts(k, f, was[1..]);
      SegAfter(k, f, was[0]);
      DueIs(k, f, was[0]);
      assert was[0] in was && forall g :: g in was ==> g == was[0] || g in was[1..];
    }
  }

  // ---- Newly numbered segments ------------------------------------------------------------

  /** Numbered now from the waiting fragment f, and not yet sent. */
  ghost predicate IsFresh(k: Kcb, g: Seg, sn: int, f: Frag) {
    && g.xmit == 0 && g.fastack == 0 && g.pkt.conv == k.cfg.conv && g.pkt.cmd == 81
    && g.pkt.sn == sn && g.pkt.ToFrag() == f
  }

  ghost predicate AllFresh(k: Kcb, added: seq<Seg>) {
    && |added| <= |k.sndQueue|
    && forall i :: 0 <= i < |added| ==> IsFresh(k, added[i], k.sndNxt + i, k.sndQueue[i])
  }

  /** Numbering takes the longest prefix of snd_queue that the window leaves room for. */
  lemma {:induction false} FillDoes(k: Kcb, w: int) returns (added: seq<Seg>)
    requires IsWindow(k, w)
    ensures |added| == Min(|k.sndQueue|, Max(0, k.sndUna + w - k.sndNxt)) && AllFresh(k, added)
    ensures var f := Filled(Ideal, k);
            && SameView(k, f) && f.sndBuf == k.sndBuf + added
            && f == Cleared(k).(sndBuf := f.sndBuf, sndQueue := k.sndQueue[|added|..], sndNxt := k.sndNxt + |added|)
  {
    WindowIs(k);
    var n := FillRun(Cleared(k), w);
    added := NewSegs(DataHeader(Cleared(k)), k.rtt.rto, k.sndNxt, k.sndQueue, n);
    NewSegsAt(DataHeader(Cleared(k)), k.rtt.rto, k.sndNxt, k.sndQueue, n);
  }

  /** A fresh segment neither times out nor is sent for the 20th time. */
  lemma {:induction false} FreshUncounted(k: Kcb, was: seq<Seg>, added: seq<Seg>)
    requires forall g :: g in added ==> g.xmit == 0
    ensures TimeoutsIn(k, was + added) == TimeoutsIn(k, was)
    ensures AnyTimeout(k, was + added) <==> AnyTimeout(k, was)
    ensures AnyFastResend(k, was + added) <==> AnyFastResend(k, was)
    ensures AnyTwentieth(k, was + added) <==> AnyTwentieth(k, was)
  {
    TimeoutsAppend(k, was, added);
    NoTimeouts(k, added);
  }

  lemma {:induction false} NoTimeouts(k: Kcb, added: seq<Seg>)
    requires forall g :: g in added ==> g.xmit == 0
    ensures TimeoutsIn(k, added) == 0
  {
    if added != [] {
      assert added[0] in added;
      NoTimeouts(k, added[1..]);
    }
  }

  lemma {:induction false} TimeoutsAppend(k: Kcb, was: seq<Seg>, added: seq<Seg>)
    ensures TimeoutsIn(k, was + added) == TimeoutsIn(k, was) + TimeoutsIn(k, added)
  {
    if was == [] {
      assert was + added == added;
    } else {
      assert (was + added)[1..] == was[1..] + added;
      TimeoutsAppend(k, was[1..], added);
    }
  }

  // ---- Acknowledgements and probes --------------------------------------------------------

  /** A packet without data, advertising the window and acknowledging everything before rcv_nxt. */
  ghost predicate IsControl(k: Kcb, p: Pkt, cmd: byte, a: Ack) {
    p == Pkt(k.cfg.conv, cmd, 0, p.wnd, a.ts, a.sn, k.rcvNxt, []) && p.wnd == Free(k)
  }

  /** The peer's window is to be asked for: it is closed and the probe timer has expired. */
  predicate Asks(k: Kcb) {
    k.probe.ask || (k.rmtWnd == 0 && k.probe.wait > 0 && Itimediff(k.clock.current, k.probe.ts) >= 0)
  }

  /** Every pending acknowledgement in order, then the probes; a probe repeats the number and time of
      the last acknowledgement. */
  ghost predicate ControlPart(k: Kcb, ps: seq<Pkt>) {
    var n := |k.acks|;
    var last := if k.acks == [] then Ack(0, 0) else k.acks[n - 1];
    && |ps| == n + (if Asks(k) then 1 else 0) + (if k.probe.tell then 1 else 0)
    && (forall i :: 0 <= i < n ==> IsControl(k, ps[i], 82, k.acks[i]))
    && (Asks(k) ==> IsControl(k, ps[n], 83, last))
    && (k.probe.tell ==> IsControl(k, ps[|ps| - 1], 84, last))
  }

  lemma {:induction false} AckPktsAt(h: Pkt, acks: seq<Ack>)
    ensures |AckPkts(h, acks)| == |acks|
    ensures forall i :: 0 <= i < |acks| ==> AckPkts(h, acks)[i] == h.(sn := acks[i].sn, ts := acks[i].ts)
  {
    if acks != [] { AckPktsAt(h, acks[1..]); }
  }

  lemma {:induction false} ControlDoes(k: Kcb)
    ensures ControlPart(k, AckPkts(Header(k), k.acks) + ProbePkts(AfterAcks(Header(k), k.acks), ProbeTimer(k)))
  {
    AckPktsAt(Header(k), k.acks);
  }

  /** The probe timer: it runs only while the peer's window is closed.  It starts at 7 seconds, and each
      time it expires it becomes half as long again, up to two minutes. */
  ghost predicate ProbeAfter(k: Kcb, pr: Probe) {
    var expired := Itimediff(k.clock.current, k.probe.ts) >= 0;
    var longer := Max(k.probe.wait, 7000);
    && !pr.ask && !pr.tell
    && (k.rmtWnd != 0 ==> pr.wait == 0 && pr.ts == 0)
    && (k.rmtWnd == 0 && k.probe.wait == 0 ==> pr.wait == 7000 && pr.ts == U32(k.clock.current + 7000))
    && (k.rmtWnd == 0 && k.probe.wait > 0 && expired ==>
          pr.wait == Min(U32(longer + longer / 2), 120000) && pr.ts == U32(k.clock.current + pr.wait))
    && (k.rmtWnd == 0 && k.probe.wait > 0 && !expired ==> pr.wait == k.probe.wait && pr.ts == k.probe.ts)
  }

  lemma {:induction false} ProbeDoes(k: Kcb)
    ensures ProbeAfter(k, Cleared(k).probe)
  {
  }

  // ---- The congestion state ---------------------------------------------------------------

  /** A timeout halves the window used into ssthresh and restarts from one segment; a fast resend alone
      halves what is in flight and continues from there. */
  ghost predicate CongAfter(k: Kcb, w: u32, inflight: u32, timeout: bool, fast: bool, c: Cong) {
    var mss := k.cfg.mtu - 24;
    var half := Max(inflight / 2, 2);
    var cwnd := U32(half + if k.cfg.fastresend > 0 then k.cfg.fastresend else 0xffff_ffff);
    if timeout then c == Cong(1, Max(w / 2, 2), mss)
    else if fast && cwnd > 0 then c == Cong(cwnd, half, U32(cwnd * mss))
    else if fast then c == Cong(1, half, mss)
    else if k.cong.cwnd == 0 then c == k.cong.(cwnd := 1, incr := mss)
    else c == k.cong
  }

  lemma {:induction false} CutDoes(k: Kcb, w: u32, inflight: u32, change: bool, lost: bool)
    ensures CongAfter(k, w, inflight, lost, change, Cut(k.cong, k.cfg, inflight, w, change, lost))
  {
    U32Small(inflight);
  }

  // ---- A whole flush ----------------------------------------------------------------------

  lemma {:induction false} PackOrder(mtu: nat, cur: Datagram, pkts: seq<Pkt>)
    ensures Flatten(Pack(mtu, cur, pkts)) == cur + pkts
    decreases |pkts|
  {
    if pkts == [] {
      assert Flatten([cur]) == cur + Flatten([]);
    } else {
      assert pkts == [pkts[0]] + pkts[1..];
      if Size(cur) + PktSize(pkts[0]) > mtu {
        PackOrder(mtu, [pkts[0]], pkts[1..]);
        FlattenAppend(if cur == [] then [] else [cur], Pack(mtu, [pkts[0]], pkts[1..]));
        assert Flatten([cur]) == cur + Flatten([]);
      } else {
        PackOrder(mtu, cur + [pkts[0]], pkts[1..]);
        Assoc(cur, [pkts[0]], pkts[1..]);
      }
    }
  }

  /** Which segments a flush numbers, leaves and hands out: `added` are numbered now, and the packets
      `control` come first. */
  ghost predicate SegmentsAfter(k: Kcb, added: seq<Seg>, control: seq<Pkt>, o: FlushOut)
    requires |added| <= |k.sndQueue|
  {
    var was := k.sndBuf + added;
    && o.k.sndNxt == k.sndNxt + |added| && o.k.sndUna == k.sndUna && o.k.sndQueue == k.sndQueue[|added|..]
    && |o.k.sndBuf| == |was| && (forall i :: 0 <= i < |was| ==> AfterFlush(k, was[i], o.k.sndBuf[i]))
    && Flatten(o.out) == control + SentOf(k, was, o.k.sndBuf) && Tight(k.cfg.mtu, o.out)
  }

  /** What else it leaves. */
  ghost predicate CountsAfter(k: Kcb, w: u32, r: Kcb) {
    && r.acks == [] && ProbeAfter(k, r.probe)
    && r.xmit == U32(k.xmit + TimeoutsIn(k, k.sndBuf)) && (r.dead <==> k.dead || AnyTwentieth(k, k.sndBuf))
    && CongAfter(k, w, U32(r.sndNxt - r.sndUna), AnyTimeout(k, k.sndBuf), AnyFastResend(k, k.sndBuf), r.cong)
  }

  lemma {:induction false} SegmentsDo(k: Kcb, added: seq<Seg>) returns (control: seq<Pkt>)
    requires k.clock.updated && |added| <= |k.sndQueue|
    requires var f := Filled(Ideal, k);
             && SameView(k, f) && f.sndBuf == k.sndBuf + added && f.sndUna == k.sndUna
             && f.sndQueue == k.sndQueue[|added|..] && f.sndNxt == k.sndNxt + |added|
    ensures ControlPart(k, control) && SegmentsAfter(k, added, control, Engine.Flush(Ideal, k))
  {
    control := AckPkts(Header(k), k.acks) + ProbePkts(AfterAcks(Header(k), k.acks), ProbeTimer(k));
    ControlDoes(k);
    var f := Filled(Ideal, k);
    var d := FlushData(f, f.sndBuf);
    LoopDoes(k, f, f.sndBuf);
    FlushIsSent(Ideal, k, f, d);
    PackOrder(k.cfg.mtu, [], Emitted(Ideal, k));
    PackTight(k.cfg.mtu, [], Emitted(Ideal, k));
    assert [] + Emitted(Ideal, k) == Emitted(Ideal, k);
  }

  lemma {:induction false} CountsDo(k: Kcb, w: u32, added: seq<Seg>)
    requires k.clock.updated && w == EffWnd(k) && forall g :: g in added ==> g.xmit == 0
    requires var f := Filled(Ideal, k);
             SameView(k, f) && f == Cleared(k).(sndBuf := k.sndBuf + added, sndQueue := f.sndQueue, sndNxt := f.sndNxt)
    ensures CountsAfter(k, w, Engine.Flush(Ideal, k).k)
  {
    var f := Filled(Ideal, k);
    var d := FlushData(f, f.sndBuf);
    LoopDoes(k, f, f.sndBuf);
    LoopCounts(k, f, f.sndBuf);
    FreshUncounted(k, k.sndBuf, added);
    SentCounts(k, w, f, d);
    FlushIsSent(Ideal, k, f, d);
  }

  lemma {:induction false} SentCounts(k: Kcb, w: u32, f: Kcb, d: DataOut)
    requires f.acks == [] && f.probe == Cleared(k).probe
    requires f.xmit == k.xmit && f.dead == k.dead && f.cong == k.cong && f.cfg == k.cfg
    requires d.lost == TimeoutsIn(k, k.sndBuf) && (d.lost > 0 <==> AnyTimeout(k, k.sndBuf))
    requires (d.change > 0 <==> AnyFastResend(k, k.sndBuf)) && (d.dead <==> AnyTwentieth(k, k.sndBuf))
    ensures CountsAfter(k, w, Sent(f, d, w))
  {
    ProbeDoes(k);
    CutDoes(k, w, U32(f.sndNxt - f.sndUna), d.change > 0, d.lost > 0);
  }

  /** A whole flush: it numbers the longest prefix of snd_queue that the least of the windows leaves room
      for, sends every acknowledgement and probe, then in order every segment that is new, past its
      deadline or skipped often enough, stamps and counts them, and updates the congestion state. */
  lemma {:induction false} FlushDoes(k: Kcb, w: u32) returns (added: seq<Seg>, control: seq<Pkt>)
    requires k.clock.updated && IsWindow(k, w)
    ensures |added| == Min(|k.sndQueue|, Max(0, k.sndUna + w - k.sndNxt)) && AllFresh(k, added)
    ensures ControlPart(k, control) && SegmentsAfter(k, added, control, Engine.Flush(Ideal, k))
    ensures CountsAfter(k, w, Engine.Flush(Ideal, k).k)
  {
    WindowIs(k);
    added := FillDoes(k, w);
    control := SegmentsDo(k, added);
    CountsDo(k, w, added);
  }
}
