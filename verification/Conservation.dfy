/** Conservation of bytes in either mode: what one side has accepted is, exactly once and in order,
    what the other side has read followed by what the two engines still hold. */
module Conservation {
  import opened Words
  import opened Seqs
  import opened Engine
  import opened Network
  import opened Transport
  import opened Messages
  import opened Serial
  import ByteNetwork

  datatype Found = Missing | Found(data: seq<byte>)

  /** The segment numbered n in rcv_buf. */
  function FindPkt(buf: seq<Pkt>, n: int): Found {
    if buf == [] then Missing else if buf[0].sn == n then Found(buf[0].data) else FindPkt(buf[1..], n)
  }

  /** The segment numbered n in snd_buf. */
  function FindSeg(buf: seq<Seg>, n: int): Found {
    if buf == [] then Missing else if buf[0].pkt.sn == n then Found(buf[0].pkt.data) else FindSeg(buf[1..], n)
  }

  /** The bytes of number n, counted once even when both engines hold a copy. */
  function Fetch(a: Kcb, b: Kcb, n: int): seq<byte> {
    if FindPkt(b.rcvBuf, n).Found? then FindPkt(b.rcvBuf, n).data
    else if FindSeg(a.sndBuf, n).Found? then FindSeg(a.sndBuf, n).data
    else []
  }

  function Between(ar: Arith, a: Kcb, b: Kcb, n: int, count: nat): seq<byte>
    decreases count
  {
    if count == 0 then [] else Fetch(a, b, n) + Between(ar, a, b, ar.Norm(n + 1), count - 1)
  }

  /** Everything on its way from a to b, in order: received and readable, numbered, waiting. */
  function InEngines(ar: Arith, a: Kcb, b: Kcb): seq<byte> {
    Bytes(b.rcvQueue) + Between(ar, a, b, b.rcvNxt, Max(0, ar.Diff(a.sndNxt, b.rcvNxt))) + Join(a.sndQueue)
  }

  lemma {:induction false} FindPktIs(buf: seq<Pkt>, n: int, data: seq<byte>)
    requires forall p :: p in buf && p.sn == n ==> p.data == data
    ensures FindPkt(buf, n) == if exists p :: p in buf && p.sn == n then Found(data) else Missing
  {
    if buf != [] {
      FindPktIs(buf[1..], n, data);
      assert buf == [buf[0]] + buf[1..];
    }
  }

  lemma {:induction false} FindSegIs(buf: seq<Seg>, n: int, data: seq<byte>)
    requires forall g :: g in buf && g.pkt.sn == n ==> g.pkt.data == data
    ensures FindSeg(buf, n) == if exists g :: g in buf && g.pkt.sn == n then Found(data) else Missing
  {
    if buf != [] {
      FindSegIs(buf[1..], n, data);
      assert buf == [buf[0]] + buf[1..];
    }
  }

  /** A number assigned but not yet readable is held by one of the engines, with its bytes. */
  lemma {:induction false} FetchIs(x: Endpoint, y: Endpoint, n: int)
    requires Half(x, y) && y.k.rcvNxt <= n < x.k.sndNxt
    ensures n < |x.hist| && Fetch(x.k, y.k, n) == x.hist[n].data
  {
    FindPktIs(y.k.rcvBuf, n, x.hist[n].data);
    FindSegIs(x.k.sndBuf, n, x.hist[n].data);
    assert Unacked(x.k, n) || Held(y.k, n);
  }

  lemma {:induction false} BetweenIs(x: Endpoint, y: Endpoint, n: int, count: nat)
    requires Half(x, y) && y.k.rcvNxt <= n && n + count == x.k.sndNxt
    ensures n <= |x.hist| && Between(Ideal, x.k, y.k, n, count) == Join(x.hist[n..])
    decreases count
  {
    if count > 0 {
      FetchIs(x, y, n);
      BetweenIs(x, y, n + 1, count - 1);
      assert x.hist[n..][1..] == x.hist[n + 1..];
    }
  }

  lemma {:induction false} EnginesHold(x: Endpoint, y: Endpoint)
    requires Half(x, y) && BytesAccepted(x) && BytesReturned(y)
    ensures Concat(x.sent) == Concat(y.got) + InEngines(Ideal, x.k, y.k)
  {
    Conserved(x, y);
    BetweenIs(x, y, y.k.rcvNxt, x.k.sndNxt - y.k.rcvNxt);
    var rest := x.hist[y.k.rcvNxt..];
    JoinAppend(rest, x.k.sndQueue);
    Regroup(Concat(y.got), Bytes(y.k.rcvQueue), Join(rest), Join(x.k.sndQueue));
  }

  lemma {:induction false} Regroup<T>(a: seq<T>, b: seq<T>, c: seq<T>, d: seq<T>)
    ensures (a + b) + (c + d) == a + ((b + c) + d)
  {
  }

  // ---- What send reports ------------------------------------------------------------------

  /** How many bytes the last waiting segment has room for in stream mode. */
  function Joined(k: Kcb, len: nat): nat {
    if !k.cfg.stream || k.sndQueue == [] then 0
    else Min(len, Max(0, k.cfg.mtu - 24 - |k.sndQueue[|k.sndQueue| - 1].data|))
  }

  /** How many segments carry len bytes. */
  function Segments(mss: int, len: nat): nat
    requires mss > 0
  {
    if len <= mss then 1 else (len + mss - 1) / mss
  }

  /** `ikcp_send` refuses everything exactly when the data needs too many fragments and nothing of it
      could be merged; when it accepts some of it, that is all of it unless the part that could not
      be merged needs too many fragments.  A caller that takes any nonnegative result for the whole
      length is right exactly in the remaining cases. */
  lemma {:induction false} SendReturns(k: Kcb, data: seq<byte>)
    ensures var ext := Joined(k, |data|); var r := Engine.Send(k, data).ret;
            var tooMany := Segments(k.cfg.mtu - 24, |data| - ext) >= 128;
            && (r < 0 <==> tooMany && ext == 0) && (r < 0 ==> r == -2)
            && (r >= 0 ==> r == (if tooMany then ext else |data|))
            && (tooMany ==> ext < |data|)
  {
    var ext := Extend(k, |data|);
    FragCountIsQuotient(k.cfg.Mss(), |data| - ext);
    assert |data[ext..]| == |data| - ext;
    if !k.cfg.stream { assert data[0..] == data; }
  }

  // ---- On 32-bit numbers ------------------------------------------------------------------

  lemma {:induction false} FindPktWrap(buf: seq<Pkt>, n: int)
    requires forall p :: p in buf ==> -M32 < p.sn - n < M32
    ensures FindPkt(Map(WrapPkt, buf), U32(n)) == FindPkt(buf, n)
  {
    if buf != [] {
      FindPktWrap(buf[1..], n);
      MapTake(WrapPkt, buf, 1);
      U32Eq(buf[0].sn, n);
    }
  }

  lemma {:induction false} FindSegWrap(buf: seq<Seg>, n: int)
    requires forall g :: g in buf ==> -M32 < g.pkt.sn - n < M32
    ensures FindSeg(Map(WrapSeg, buf), U32(n)) == FindSeg(buf, n)
  {
    if buf != [] {
      FindSegWrap(buf[1..], n);
      MapTake(WrapSeg, buf, 1);
      U32Eq(buf[0].pkt.sn, n);
    }
  }

  /** The sender's window starts at most one receive window beyond rcv_nxt. */
  lemma {:induction false} WindowsMeet(x: Endpoint, y: Endpoint)
    requires Half(x, y)
    ensures y.k.rcvNxt <= x.k.sndNxt && x.k.sndUna <= y.k.rcvNxt + y.k.cfg.rcvWnd
  {
    if x.k.sndUna > 0 {
      var n := x.k.sndUna - 1;
      assert !Unacked(x.k, n);
      assert Held(y.k, n);
    }
  }

  lemma {:induction false} FetchWrap(x: Endpoint, y: Endpoint, n: int)
    requires Half(x, y) && y.k.rcvNxt <= n < x.k.sndNxt
    ensures Fetch(WrapKcb(x.k), WrapKcb(y.k), U32(n)) == Fetch(x.k, y.k, n)
  {
    WindowsMeet(x, y);
    FindPktWrap(y.k.rcvBuf, n);
    forall g | g in x.k.sndBuf ensures -M32 < g.pkt.sn - n < M32 {
      assert InHist(x.hist, g.pkt);
    }
    FindSegWrap(x.k.sndBuf, n);
  }

  lemma {:induction false} BetweenWrap(x: Endpoint, y: Endpoint, n: int, count: nat)
    requires Half(x, y) && y.k.rcvNxt <= n && n + count == x.k.sndNxt
    ensures Between(Wrap32, WrapKcb(x.k), WrapKcb(y.k), U32(n), count) == Between(Ideal, x.k, y.k, n, count)
    decreases count
  {
    if count > 0 {
      FetchWrap(x, y, n);
      U32Add(n, 1);
      BetweenWrap(x, y, n + 1, count - 1);
    }
  }

  lemma {:induction false} EnginesWrap(x: Endpoint, y: Endpoint)
    requires Half(x, y)
    ensures InEngines(Wrap32, WrapKcb(x.k), WrapKcb(y.k)) == InEngines(Ideal, x.k, y.k)
  {
    WindowsMeet(x, y);
    DiffExact(x.k.sndNxt, y.k.rcvNxt);
    BetweenWrap(x, y, y.k.rcvNxt, x.k.sndNxt - y.k.rcvNxt);
    BytesWrap(y.k.rcvQueue);
  }

  /** Between hosts that exchange bytes: every byte A accepted has been read by B, or is in one of
      the two engines, once and in order. */
  lemma {:induction false} HostsConserve(cfgA: Config, cfgB: Config, es: seq<Event>)
    requires Timely(cfgA, cfgB, es)
    ensures var s := ByteNetwork.HostRun(ByteNetwork.Start(cfgA, cfgB), es);
            Concat(s.a.sent) == Concat(s.b.got) + InEngines(Wrap32, s.a.k, s.b.k)
  {
    ByteNetwork.ByteSimulation(cfgA, cfgB, es);
    OrderedRuns(cfgA, cfgB, es);
    var s := Run(Ideal, Init(cfgA, cfgB), es);
    EnginesHold(s.a, s.b);
    EnginesWrap(s.a, s.b);
  }
}
