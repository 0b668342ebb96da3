/** The KCP control block and the transition functions of the engine, one function per C
    function of kcp/ikcp.c, on values.  `Kcp.dfy` holds the imperative engine that refines
    them.  Every function is parameterised by the arithmetic of its sequence numbers. */
module Engine {
  import opened Words

  const RTO_NDL: int := 30
  const RTO_MIN: int := 100
  const RTO_DEF: int := 200
  const RTO_MAX: int := 60000
  const CMD_PUSH: byte := 81
  const CMD_ACK: byte := 82
  const CMD_WASK: byte := 83
  const CMD_WINS: byte := 84
  const WND_SND: int := 32
  const WND_RCV: int := 128
  const INTERVAL: u32 := 100
  const OVERHEAD: int := 24
  const DEADLINK: int := 20
  const THRESH_INIT: int := 2
  const THRESH_MIN: int := 2
  const PROBE_INIT: int := 7000
  const PROBE_LIMIT: int := 120000
  const FASTACK_LIMIT: int := 5
  const NO_FASTRESEND: int := 0xffff_ffff

  /** A segment waiting in snd_queue: only `frg` and the data are set there. */
  datatype Frag = Frag(frg: byte, data: seq<byte>)

  /** The header and payload of one segment, as it travels. */
  datatype Pkt = Pkt(conv: u32, cmd: byte, frg: byte, wnd: u16, ts: u32, sn: int, una: int, data: seq<byte>) {
    function ToFrag(): Frag { Frag(frg, data) }
  }

  /** A segment of snd_buf, with its retransmission state. */
  datatype Seg = Seg(pkt: Pkt, resendts: u32, rto: u32, fastack: u32, xmit: u32)

  datatype Ack = Ack(sn: int, ts: u32)

  datatype Settings = Settings(conv: u32, mtu: nat, sndWnd: u32, rcvWnd: u32, interval: u32,
                               nodelay: u32, fastresend: int, fastlimit: int, nocwnd: bool, stream: bool)
  {
    /** What the setters leave behind, with the receive window kept to the 16 bits of the header. */
    predicate Valid() {
      && 50 <= mtu < 0x8000_0000
      && 1 <= sndWnd
      && 128 <= rcvWnd < 0x1_0000
      && 10 <= interval <= 5000
      && 0 <= fastresend < 0x8000_0000
    }

    function Mss(): int { mtu - OVERHEAD }

    function MinRto(): u32 { if nodelay == 0 then RTO_MIN else RTO_NDL }

    function Resent(): u32
      requires Valid()
    {
      if fastresend > 0 then fastresend else NO_FASTRESEND
    }
  }

  type Config = c: Settings | c.Valid()
    witness Settings(0, 1400, WND_SND, WND_RCV, INTERVAL, 0, 0, FASTACK_LIMIT, false, false)

  datatype Rtt = Rtt(srtt: int, rttval: int, rto: u32)
  datatype Cong = Cong(cwnd: u32, ssthresh: u32, incr: u32)
  datatype Probe = Probe(wait: u32, ts: u32, ask: bool, tell: bool)
  datatype Clock = Clock(current: u32, tsFlush: u32, updated: bool)

  datatype Kcb = Kcb(
    cfg: Config,
    sndUna: int, sndNxt: int, rcvNxt: int,
    sndQueue: seq<Frag>, sndBuf: seq<Seg>, rcvBuf: seq<Pkt>, rcvQueue: seq<Pkt>,
    acks: seq<Ack>,
    rmtWnd: u16, cong: Cong, rtt: Rtt, probe: Probe, clock: Clock,
    xmit: u32, dead: bool)

  type Datagram = seq<Pkt>

  function Create(cfg: Config): Kcb {
    Kcb(cfg, 0, 0, 0, [], [], [], [], [], WND_RCV, Cong(0, THRESH_INIT, 0), Rtt(0, 0, RTO_DEF),
        Probe(0, 0, false, false), Clock(0, INTERVAL, false), 0, false)
  }

  // ---- Acknowledgement processing -------------------------------------------------------

  function NextSrtt(r: Rtt, rtt: int): int {
    if r.srtt == 0 then rtt else Max(1, TruncDiv(I32(7 * r.srtt + rtt), 8))
  }

  function NextRttval(r: Rtt, rtt: int): int {
    if r.srtt == 0 then TruncDiv(rtt, 2)
    else
      var delta := I32(rtt - r.srtt);
      I32(TruncDiv(I32(3 * r.rttval) + (if delta < 0 then -delta else delta), 4))
  }

  function UpdateAck(cfg: Config, r: Rtt, rtt: int): Rtt {
    var srtt := NextSrtt(r, rtt);
    var rttval := NextRttval(r, rtt);
    Rtt(srtt, rttval, RtoOf(cfg, srtt, rttval))
  }

  function RtoOf(cfg: Config, srtt: int, rttval: int): u32 {
    var rto := U32(srtt + Max(cfg.interval, U32(4 * rttval)));
    Bound(cfg.MinRto(), rto, RTO_MAX)
  }

  function ShrinkBuf(s: Kcb): Kcb {
    s.(sndUna := if s.sndBuf != [] then s.sndBuf[0].pkt.sn else s.sndNxt)
  }

  function ParseUna(ar: Arith, buf: seq<Seg>, una: int): seq<Seg> {
    if buf != [] && ar.Diff(una, buf[0].pkt.sn) > 0 then ParseUna(ar, buf[1..], una) else buf
  }

  predicate AckInWindow(ar: Arith, s: Kcb, sn: int) {
    ar.Diff(sn, s.sndUna) >= 0 && ar.Diff(sn, s.sndNxt) < 0
  }

  function AckScan(ar: Arith, buf: seq<Seg>, sn: int): seq<Seg> {
    if buf == [] then []
    else if sn == buf[0].pkt.sn then buf[1..]
    else if ar.Diff(sn, buf[0].pkt.sn) < 0 then buf
    else [buf[0]] + AckScan(ar, buf[1..], sn)
  }

  function ParseAck(ar: Arith, s: Kcb, sn: int): Kcb {
    if AckInWindow(ar, s, sn) then s.(sndBuf := AckScan(ar, s.sndBuf, sn)) else s
  }

  function CountFastack(g: Seg, sn: int, ts: u32): Seg {
    if sn != g.pkt.sn && Itimediff(ts, g.pkt.ts) >= 0 then g.(fastack := U32(g.fastack + 1)) else g
  }

  function FastackScan(ar: Arith, buf: seq<Seg>, sn: int, ts: u32): seq<Seg> {
    if buf == [] || ar.Diff(sn, buf[0].pkt.sn) < 0 then buf
    else [CountFastack(buf[0], sn, ts)] + FastackScan(ar, buf[1..], sn, ts)
  }

  function ParseFastack(ar: Arith, s: Kcb, sn: int, ts: u32): Kcb {
    if AckInWindow(ar, s, sn) then s.(sndBuf := FastackScan(ar, s.sndBuf, sn, ts)) else s
  }

  // ---- Receiving data -------------------------------------------------------------------

  /** Scans rcv_buf from its tail for the place of `p`; a repeated number changes nothing. */
  function Insert(ar: Arith, buf: seq<Pkt>, p: Pkt): seq<Pkt> {
    if buf == [] then [p]
    else
      var last := buf[|buf| - 1];
      if last.sn == p.sn then buf
      else if ar.Diff(p.sn, last.sn) > 0 then buf + [p]
      else Insert(ar, buf[..|buf| - 1], p) + [last]
  }

  /** One round of moving the head of rcv_buf to rcv_queue. */
  function MoveOne(ar: Arith, s: Kcb): Kcb
    requires s.rcvBuf != []
  {
    s.(rcvBuf := s.rcvBuf[1..], rcvQueue := s.rcvQueue + [s.rcvBuf[0]], rcvNxt := ar.Norm(s.rcvNxt + 1))
  }

  /** Moves the in-order head of rcv_buf to rcv_queue while there is room. */
  function MoveReady(ar: Arith, s: Kcb): Kcb
    decreases |s.rcvBuf|
  {
    if s.rcvBuf != [] && s.rcvBuf[0].sn == s.rcvNxt && |s.rcvQueue| < s.cfg.rcvWnd then MoveReady(ar, MoveOne(ar, s))
    else s
  }

  function ParseData(ar: Arith, s: Kcb, p: Pkt): Kcb {
    if ar.Diff(p.sn, ar.Norm(s.rcvNxt + s.cfg.rcvWnd)) >= 0 || ar.Diff(p.sn, s.rcvNxt) < 0 then s
    else MoveReady(ar, s.(rcvBuf := Insert(ar, s.rcvBuf, p)))
  }

  // ---- Input ----------------------------------------------------------------------------

  /** The greatest acknowledged number seen in one datagram, with its timestamp. */
  datatype Scan = NoAck | MaxAck(sn: int, ts: u32)

  predicate KnownCmd(cmd: byte) {
    cmd == CMD_PUSH || cmd == CMD_ACK || cmd == CMD_WASK || cmd == CMD_WINS
  }

  function InputAck(ar: Arith, s: Kcb, p: Pkt): Kcb {
    var rtt := Itimediff(s.clock.current, p.ts);
    var s1 := if rtt >= 0 then s.(rtt := UpdateAck(s.cfg, s.rtt, rtt)) else s;
    ShrinkBuf(ParseAck(ar, s1, p.sn))
  }

  function InputPush(ar: Arith, s: Kcb, p: Pkt): Kcb {
    if ar.Diff(p.sn, ar.Norm(s.rcvNxt + s.cfg.rcvWnd)) < 0 then
      var s1 := s.(acks := s.acks + [Ack(p.sn, p.ts)]);
      if ar.Diff(p.sn, s.rcvNxt) >= 0 then ParseData(ar, s1, p) else s1
    else s
  }

  /** The work common to all four commands: window, cumulative acknowledgement, snd_una. */
  function InputHead(ar: Arith, s: Kcb, p: Pkt): Kcb {
    ShrinkBuf(s.(rmtWnd := p.wnd, sndBuf := ParseUna(ar, s.sndBuf, p.una)))
  }

  function InputPkt(ar: Arith, s: Kcb, p: Pkt): Kcb {
    var s1 := InputHead(ar, s, p);
    if p.cmd == CMD_ACK then InputAck(ar, s1, p)
    else if p.cmd == CMD_PUSH then InputPush(ar, s1, p)
    else if p.cmd == CMD_WASK then s1.(probe := s1.probe.(tell := true))
    else s1
  }

  function ScanPkt(ar: Arith, sc: Scan, p: Pkt): Scan {
    if p.cmd != CMD_ACK then sc
    else if sc.NoAck? then MaxAck(p.sn, p.ts)
    else if ar.Diff(p.sn, sc.sn) > 0 && Itimediff(p.ts, sc.ts) > 0 then MaxAck(p.sn, p.ts)
    else sc
  }

  function InputAll(ar: Arith, s: Kcb, d: Datagram): Kcb
    decreases |d|
  {
    if d == [] then s else InputAll(ar, InputPkt(ar, s, d[0]), d[1..])
  }

  function ScanAll(ar: Arith, sc: Scan, d: Datagram): Scan
    decreases |d|
  {
    if d == [] then sc else ScanAll(ar, ScanPkt(ar, sc, d[0]), d[1..])
  }

  /** Congestion-window growth after a datagram that moved snd_una. */
  function Grow(c: Cong, mss: u32, rmtWnd: u16): Cong
    requires mss > 0
  {
    if c.cwnd >= rmtWnd then c
    else
      var c1 :=
        if c.cwnd < c.ssthresh then c.(cwnd := U32(c.cwnd + 1), incr := U32(c.incr + mss))
        else
          var base := Max(c.incr, mss);
          var incr := U32(base + U32(mss * mss) / base + mss / 16);
          if U32((c.cwnd + 1) * mss) <= incr
          then c.(cwnd := U32(U32(incr + mss - 1) / mss), incr := incr)
          else c.(incr := incr);
      if c1.cwnd > rmtWnd then c1.(cwnd := rmtWnd, incr := U32(rmtWnd * mss)) else c1
  }

  function InputFinish(ar: Arith, prevUna: int, s: Kcb, sc: Scan): Kcb
  {
    var s1 := if sc.MaxAck? then ParseFastack(ar, s, sc.sn, sc.ts) else s;
    if ar.Diff(s1.sndUna, prevUna) > 0
    then s1.(cong := Grow(s1.cong, s1.cfg.Mss(), s1.rmtWnd))
    else s1
  }

  /** `ikcp_input` on a datagram of well-formed segments. */
  function Input(ar: Arith, s: Kcb, d: Datagram): (r: Kcb)
  {
    InputFinish(ar, s.sndUna, InputAll(ar, s, d), ScanAll(ar, NoAck, d))
  }

  lemma {:induction false} MoveReadyFrame(ar: Arith, s: Kcb)
    ensures var r := MoveReady(ar, s);
            r == s.(rcvBuf := r.rcvBuf, rcvQueue := r.rcvQueue, rcvNxt := r.rcvNxt)
    decreases |s.rcvBuf|
  {
    if s.rcvBuf != [] && s.rcvBuf[0].sn == s.rcvNxt && |s.rcvQueue| < s.cfg.rcvWnd {
      MoveReadyFrame(ar, MoveOne(ar, s));
    }
  }

  lemma {:induction false} InputPushFrame(ar: Arith, s: Kcb, p: Pkt)
    ensures var r := InputPush(ar, s, p);
            r == s.(acks := r.acks, rcvBuf := r.rcvBuf, rcvQueue := r.rcvQueue, rcvNxt := r.rcvNxt)
  {
    var s1 := s.(acks := s.acks + [Ack(p.sn, p.ts)]);
    MoveReadyFrame(ar, s1.(rcvBuf := Insert(ar, s1.rcvBuf, p)));
  }

  lemma {:induction false} InputAckFrame(ar: Arith, s: Kcb, p: Pkt)
    ensures var r := InputAck(ar, s, p);
            r == s.(rtt := r.rtt, sndBuf := r.sndBuf, sndUna := r.sndUna)
  {
  }

  lemma {:induction false} InputPktCfg(ar: Arith, s: Kcb, p: Pkt)
    ensures var r := InputPkt(ar, s, p);
            r.cfg == s.cfg && r.sndNxt == s.sndNxt && r.sndQueue == s.sndQueue
            && r.cong == s.cong && r.clock == s.clock && r.probe.wait == s.probe.wait
  {
    var s1 := InputHead(ar, s, p);
    InputPushFrame(ar, s1, p);
    InputAckFrame(ar, s1, p);
  }

  lemma {:induction false} InputAllCfg(ar: Arith, s: Kcb, d: Datagram)
    ensures var r := InputAll(ar, s, d);
            r.cfg == s.cfg && r.sndNxt == s.sndNxt && r.sndQueue == s.sndQueue
            && r.cong == s.cong && r.clock == s.clock && r.probe.wait == s.probe.wait
    decreases |d|
  {
    if d != [] {
      InputPktCfg(ar, s, d[0]);
      InputAllCfg(ar, InputPkt(ar, s, d[0]), d[1..]);
    }
  }

  // ---- Application calls ----------------------------------------------------------------

  /** How many segments the merge loop of `ikcp_recv` consumes. */
  function MsgCount(q: seq<Pkt>): (n: nat)
    ensures n <= |q|
  {
    if q == [] then 0 else if q[0].frg == 0 then 1 else 1 + MsgCount(q[1..])
  }

  function Bytes(q: seq<Pkt>): seq<byte> {
    if q == [] then [] else q[0].data + Bytes(q[1..])
  }

  function MsgBytes(q: seq<Pkt>): seq<byte> { Bytes(q[..MsgCount(q)]) }

  function PeekSize(s: Kcb): int {
    if s.rcvQueue == [] then -1
    else if s.rcvQueue[0].frg == 0 then |s.rcvQueue[0].data|
    else if |s.rcvQueue| < s.rcvQueue[0].frg + 1 then -1
    else |MsgBytes(s.rcvQueue)|
  }

  datatype RecvOut = RecvOut(k: Kcb, ret: int, data: seq<byte>)

  /** `ikcp_recv`; a negative `len` peeks. */
  function Recv(ar: Arith, s: Kcb, len: int): RecvOut {
    var room := if len < 0 then -len else len;
    if s.rcvQueue == [] then RecvOut(s, -1, [])
    else if PeekSize(s) < 0 then RecvOut(s, -2, [])
    else if PeekSize(s) > room then RecvOut(s, -3, [])
    else
      var data := MsgBytes(s.rcvQueue);
      var s1 := if len < 0 then s else s.(rcvQueue := s.rcvQueue[MsgCount(s.rcvQueue)..]);
      var s2 := MoveReady(ar, s1);
      var tell := |s2.rcvQueue| < s.cfg.rcvWnd <= |s.rcvQueue|;
      RecvOut(if tell then s2.(probe := s2.probe.(tell := true)) else s2, |data|, data)
  }

  function Fragments(mss: int, data: seq<byte>, count: nat, stream: bool): seq<Frag>
    requires mss > 0 && count <= 0x100
    decreases count
  {
    if count == 0 then []
    else
      var size := Min(|data|, mss);
      [Frag(if stream then 0 else count - 1, data[..size])] + Fragments(mss, data[size..], count - 1, stream)
  }

  /** The number of fragments of `len` bytes: one for an empty message, else len / mss rounded up. */
  function FragCount(mss: int, len: nat): nat
    requires mss > 0
  {
    if len <= mss then 1 else 1 + FragCount(mss, len - mss)
  }

  lemma {:induction false} DivUnique(x: int, m: int, q: int, r: int)
    requires m > 0 && 0 <= r < m && x == m * q + r
    ensures x / m == q
  {
    var q' := x / m;
    assert x == m * q' + x % m;
    assert m * q - m * q' == m * (q - q') && m * q' - m * q == m * (q' - q);
    if q > q' {
      MulMono(1, q - q', m);
    } else if q < q' {
      MulMono(1, q' - q, m);
    }
  }

  lemma {:induction false} DivStep(a: nat, m: int)
    requires m > 0
    ensures (a + m) / m == a / m + 1
  {
    assert m * (a / m + 1) == m * (a / m) + m;
    DivUnique(a + m, m, a / m + 1, a % m);
  }

  /** It is the quotient that `ikcp_send` computes. */
  lemma {:induction false} FragCountIsQuotient(mss: int, len: nat)
    requires mss > 0
    ensures FragCount(mss, len) == if len <= mss then 1 else (len + mss - 1) / mss
  {
    if len > mss {
      FragCountIsQuotient(mss, len - mss);
      DivStep(len - 1, mss);
      if len <= 2 * mss { DivStep(len - 1 - mss, mss); }
    }
  }

  /** How many bytes of a stream-mode send go into the last segment of snd_queue. */
  function Extend(s: Kcb, len: nat): nat {
    if s.cfg.stream && s.sndQueue != [] && |s.sndQueue[|s.sndQueue| - 1].data| < s.cfg.Mss()
    then Min(len, s.cfg.Mss() - |s.sndQueue[|s.sndQueue| - 1].data|) else 0
  }

  datatype SendOut = SendOut(k: Kcb, ret: int)

  function Send(s: Kcb, data: seq<byte>): SendOut
  {
    var mss := s.cfg.Mss();
    var ext := Extend(s, |data|);
    var s1 :=
      if ext == 0 then s
      else
        var tail := s.sndQueue[|s.sndQueue| - 1];
        s.(sndQueue := s.sndQueue[..|s.sndQueue| - 1] + [Frag(0, tail.data + data[..ext])]);
    var rest := data[ext..];
    var count := FragCount(mss, |rest|);
    if s.cfg.stream && rest == [] then SendOut(s1, ext)
    else if count >= WND_RCV then SendOut(s1, if s.cfg.stream && ext > 0 then ext else -2)
    else SendOut(s1.(sndQueue := s1.sndQueue + Fragments(mss, rest, count, s.cfg.stream)), |data|)
  }

  // ---- Flush ----------------------------------------------------------------------------

  function WndUnused(s: Kcb): nat {
    if |s.rcvQueue| < s.cfg.rcvWnd then s.cfg.rcvWnd - |s.rcvQueue| else 0
  }

  /** The header every packet of one flush carries. */
  function Header(s: Kcb): Pkt {
    Pkt(s.cfg.conv, CMD_ACK, 0, WndUnused(s) % 0x1_0000, 0, 0, s.rcvNxt, [])
  }

  function AckPkts(h: Pkt, acks: seq<Ack>): seq<Pkt> {
    if acks == [] then [] else [h.(sn := acks[0].sn, ts := acks[0].ts)] + AckPkts(h, acks[1..])
  }

  /** The scratch header still holds the last acknowledgement when the probes are written. */
  function AfterAcks(h: Pkt, acks: seq<Ack>): Pkt {
    if acks == [] then h else h.(sn := acks[|acks| - 1].sn, ts := acks[|acks| - 1].ts)
  }

  function ProbeTimer(s: Kcb): Probe {
    var pr := s.probe;
    if s.rmtWnd != 0 then pr.(ts := 0, wait := 0)
    else if pr.wait == 0 then pr.(wait := PROBE_INIT, ts := U32(s.clock.current + PROBE_INIT))
    else if Itimediff(s.clock.current, pr.ts) >= 0 then
      var w0 := Max(pr.wait, PROBE_INIT);
      var wait := Min(U32(w0 + w0 / 2), PROBE_LIMIT);
      pr.(wait := wait, ts := U32(s.clock.current + wait), ask := true)
    else pr
  }

  function ProbePkts(h: Pkt, pr: Probe): seq<Pkt> {
    (if pr.ask then [h.(cmd := CMD_WASK)] else []) + (if pr.tell then [h.(cmd := CMD_WINS)] else [])
  }

  function EffWnd(s: Kcb): u32 {
    var w := Min(s.cfg.sndWnd, s.rmtWnd);
    if s.cfg.nocwnd then w else Min(s.cong.cwnd, w)
  }

  /** The header every data segment numbered by one flush starts from. */
  function DataHeader(s: Kcb): Pkt {
    Pkt(s.cfg.conv, CMD_PUSH, 0, WndUnused(s) % 0x1_0000, s.clock.current, 0, s.rcvNxt, [])
  }

  function NewSeg(h: Pkt, rto: u32, sn: int, f: Frag): Seg {
    Seg(h.(sn := sn, frg := f.frg, data := f.data), h.ts, rto, 0, 0)
  }

  /** One round of numbering the head of snd_queue. */
  function FillOne(ar: Arith, s: Kcb): Kcb
    requires s.sndQueue != []
  {
    s.(sndQueue := s.sndQueue[1..],
       sndBuf := s.sndBuf + [NewSeg(DataHeader(s), s.rtt.rto, s.sndNxt, s.sndQueue[0])],
       sndNxt := ar.Norm(s.sndNxt + 1))
  }

  /** Numbers segments of snd_queue and moves them to snd_buf while the window allows. */
  function Fill(ar: Arith, s: Kcb, wnd: int): Kcb
    decreases |s.sndQueue|
  {
    if s.sndQueue == [] || ar.Diff(s.sndNxt, ar.Norm(s.sndUna + wnd)) >= 0 then s
    else Fill(ar, FillOne(ar, s), wnd)
  }

  datatype Due = Fresh | Timeout | FastResend | Quiet

  function DueOf(s: Kcb, g: Seg): Due
  {
    if g.xmit == 0 then Fresh
    else if Itimediff(s.clock.current, g.resendts) >= 0 then Timeout
    else if g.fastack >= s.cfg.Resent() && (I32(g.xmit) <= s.cfg.fastlimit || s.cfg.fastlimit <= 0) then FastResend
    else Quiet
  }

  function BackoffRto(cfg: Config, rto: u32, rxRto: u32): u32 {
    if cfg.nodelay == 0 then U32(rto + Max(rto, rxRto))
    else U32(rto + TruncDiv(if cfg.nodelay < 2 then I32(rto) else I32(rxRto), 2))
  }

  function Stamp(s: Kcb, g: Seg): Seg {
    g.(pkt := g.pkt.(ts := s.clock.current, wnd := WndUnused(s) % 0x1_0000, una := s.rcvNxt))
  }

  function FlushSeg(s: Kcb, g: Seg): Seg
  {
    var now := s.clock.current;
    match DueOf(s, g)
    case Fresh =>
      var rtomin := if s.cfg.nodelay == 0 then s.rtt.rto / 8 else 0;
      Stamp(s, g.(xmit := U32(g.xmit + 1), rto := s.rtt.rto, resendts := U32(now + s.rtt.rto + rtomin)))
    case Timeout =>
      var rto := BackoffRto(s.cfg, g.rto, s.rtt.rto);
      Stamp(s, g.(xmit := U32(g.xmit + 1), rto := rto, resendts := U32(now + rto)))
    case FastResend =>
      Stamp(s, g.(xmit := U32(g.xmit + 1), fastack := 0, resendts := U32(now + g.rto)))
    case Quiet => g
  }

  /** What the retransmission loop does to snd_buf, sends, and counts. */
  datatype DataOut = DataOut(buf: seq<Seg>, pkts: seq<Pkt>, lost: nat, change: nat, dead: bool)

  function FlushData(s: Kcb, buf: seq<Seg>): DataOut
  {
    if buf == [] then DataOut([], [], 0, 0, false)
    else
      var g := FlushSeg(s, buf[0]);
      var due := DueOf(s, buf[0]);
      var rest := FlushData(s, buf[1..]);
      DataOut([g] + rest.buf,
              (if due.Quiet? then [] else [g.pkt]) + rest.pkts,
              (if due.Timeout? then 1 else 0) + rest.lost,
              (if due.FastResend? then 1 else 0) + rest.change,
              (!due.Quiet? && g.xmit >= DEADLINK) || rest.dead)
  }

  function Cut(c: Cong, cfg: Config, inflight: nat, wnd: u32, change: bool, lost: bool): Cong
  {
    var mss := cfg.Mss();
    var c1 :=
      if !change then c
      else
        var thresh := Max(U32(inflight) / 2, THRESH_MIN);
        var cwnd := U32(thresh + cfg.Resent());
        Cong(cwnd, thresh, U32(cwnd * mss));
    var c2 := if lost then Cong(1, Max(wnd / 2, THRESH_MIN), mss) else c1;
    if c2.cwnd < 1 then c2.(cwnd := 1, incr := mss) else c2
  }

  /** What the retransmission loop makes of one segment. */
  datatype Outcome = Outcome(seg: Seg, due: Due) {
    predicate Dead() { !due.Quiet? && seg.xmit >= DEADLINK }
    function Pkts(): seq<Pkt> { if due.Quiet? then [] else [seg.pkt] }

    function Before(d: DataOut): DataOut {
      DataOut([seg] + d.buf, Pkts() + d.pkts, (if due.Timeout? then 1 else 0) + d.lost,
              (if due.FastResend? then 1 else 0) + d.change, Dead() || d.dead)
    }
  }

  ghost function OutcomeOf(s: Kcb, g: Seg): Outcome { Outcome(FlushSeg(s, g), DueOf(s, g)) }

  /** One round of the loop. */
  lemma {:induction false} FlushDataCons(s: Kcb, buf: seq<Seg>, o: Outcome)
    requires buf != [] && o == OutcomeOf(s, buf[0])
    ensures FlushData(s, buf) == o.Before(FlushData(s, buf[1..]))
  {
  }

  function PktSize(p: Pkt): nat { OVERHEAD + |p.data| }

  function Size(d: Datagram): nat {
    if d == [] then 0 else PktSize(d[0]) + Size(d[1..])
  }

  /** Packs packets greedily into datagrams; `cur` is what the output buffer holds. */
  function Pack(mtu: nat, cur: Datagram, pkts: seq<Pkt>): seq<Datagram>
    decreases |pkts|
  {
    var done := if cur == [] then [] else [cur];
    if pkts == [] then done
    else if Size(cur) + PktSize(pkts[0]) > mtu then done + Pack(mtu, [pkts[0]], pkts[1..])
    else Pack(mtu, cur + [pkts[0]], pkts[1..])
  }

  datatype FlushOut = FlushOut(k: Kcb, out: seq<Datagram>)

  /** The state in which flush fills the window: acknowledgements and probes are written. */
  function Cleared(s: Kcb): Kcb { s.(acks := [], probe := ProbeTimer(s).(ask := false, tell := false)) }

  /** The state in which the retransmission loop runs. */
  function Filled(ar: Arith, s: Kcb): Kcb { Fill(ar, Cleared(s), EffWnd(s)) }

  /** All packets of one flush, in the order they are written. */
  function Emitted(ar: Arith, s: Kcb): seq<Pkt>
  {
    var f := Filled(ar, s);
    AckPkts(Header(s), s.acks) + ProbePkts(AfterAcks(Header(s), s.acks), ProbeTimer(s))
    + FlushData(f, f.sndBuf).pkts
  }

  function Flush(ar: Arith, s: Kcb): FlushOut
  {
    if !s.clock.updated then FlushOut(s, [])
    else
      var f := Filled(ar, s);
      var d := FlushData(f, f.sndBuf);
      var k := f.(sndBuf := d.buf,
                  xmit := U32(f.xmit + d.lost),
                  dead := f.dead || d.dead,
                  cong := Cut(f.cong, f.cfg, U32(f.sndNxt - f.sndUna), EffWnd(s), d.change > 0, d.lost > 0));
      FlushOut(k, Pack(s.cfg.mtu, [], Emitted(ar, s)))
  }

  /** The state after a flush, from what its retransmission loop did. */
  function Sent(f: Kcb, d: DataOut, win: u32): Kcb {
    f.(sndBuf := d.buf, xmit := U32(f.xmit + d.lost), dead := f.dead || d.dead,
       cong := Cut(f.cong, f.cfg, U32(f.sndNxt - f.sndUna), win, d.change > 0, d.lost > 0))
  }

  lemma {:induction false} FlushIsSent(ar: Arith, s: Kcb, f: Kcb, d: DataOut)
    requires s.clock.updated && f == Filled(ar, s) && d == FlushData(f, f.sndBuf)
    ensures Flush(ar, s) == FlushOut(Sent(f, d, EffWnd(s)), Pack(s.cfg.mtu, [], Emitted(ar, s)))
  {
  }

  lemma {:induction false} FillFrame(ar: Arith, s: Kcb, wnd: int)
    ensures var r := Fill(ar, s, wnd);
            r == s.(sndQueue := r.sndQueue, sndBuf := r.sndBuf, sndNxt := r.sndNxt)
    decreases |s.sndQueue|
  {
    if s.sndQueue != [] && ar.Diff(s.sndNxt, ar.Norm(s.sndUna + wnd)) < 0 {
      FillFrame(ar, FillOne(ar, s), wnd);
    }
  }

  // ---- Timers ---------------------------------------------------------------------------

  /** The clock part of `ikcp_update`: the new clock, and whether to flush. */
  function Tick(c: Clock, interval: u32, now: u32): (Clock, bool) {
    var flush0 := if c.updated then c.tsFlush else now;
    var slap0 := Itimediff(now, flush0);
    var stale := slap0 >= 10000 || slap0 < -10000;
    var flush1 := if stale then now else flush0;
    var slap := if stale then 0 else slap0;
    if slap >= 0 then
      var next := U32(flush1 + interval);
      (Clock(now, if Itimediff(now, next) >= 0 then U32(now + interval) else next, true), true)
    else (Clock(now, flush1, true), false)
  }

  function Update(ar: Arith, s: Kcb, now: u32): FlushOut
  {
    var (clock, due) := Tick(s.clock, s.cfg.interval, now);
    var s1 := s.(clock := clock);
    if due then Flush(ar, s1) else FlushOut(s1, [])
  }

  /** The nearest resend deadline of snd_buf, or 0 when one has passed. */
  function NearestResend(buf: seq<Seg>, now: u32, tm: int): int {
    if buf == [] then tm
    else
      var diff := Itimediff(buf[0].resendts, now);
      if diff <= 0 then 0 else NearestResend(buf[1..], now, Min(diff, tm))
  }

  function Check(s: Kcb, now: u32): u32 {
    var slap := Itimediff(now, s.clock.tsFlush);
    if !s.clock.updated || slap >= 0 || slap < -10000 then now
    else
      var tmPacket := NearestResend(s.sndBuf, now, 0x7fff_ffff);
      if tmPacket == 0 then now
      else U32(now + Min(U32(Min(tmPacket, Itimediff(s.clock.tsFlush, now))), s.cfg.interval))
  }
}
