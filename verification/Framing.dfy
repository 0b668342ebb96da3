/** Every datagram ever emitted is nonempty and within the MTU, and one flush writes its packets
    in order: acknowledgements, probes, then due data. */
module Framing {
  import opened Words
  import opened Seqs
  import opened Engine
  import opened Wire
  import opened Network
  import opened Transport
  import opened Steps
  import opened Messages
  import opened Continuation
  import opened Serial
  import ByteNetwork

  ghost predicate Fits(x: Endpoint) {
    forall d :: d in x.net ==> 0 < Size(d) <= x.k.cfg.mtu
  }

  lemma {:induction false} EmittedFits(x: Endpoint, y: Endpoint, k: Kcb)
    requires Half(x, y) && Half(y, x) && SmallFrgs(x) && k == x.k.(clock := k.clock) && k.clock.updated
    ensures forall p :: p in Emitted(Ideal, k) ==> PktSize(p) <= k.cfg.mtu
  {
    var n := FlushWritten(x, y, k);
    var hist := x.hist + k.sndQueue[..n];
    forall p | p in Emitted(Ideal, k) ensures PktSize(p) <= k.cfg.mtu {
      assert WrittenNow(k, hist, p);
      WrittenFits(x, k, hist, k.sndQueue[n..], p);
    }
  }

  lemma {:induction false} WrittenFits(x: Endpoint, k: Kcb, hist: seq<Frag>, rest: seq<Frag>, p: Pkt)
    requires SmallFrgs(x) && k.cfg == x.k.cfg && hist + rest == x.hist + x.k.sndQueue && WrittenNow(k, hist, p)
    ensures PktSize(p) <= k.cfg.mtu
  {
    if p.cmd == CMD_PUSH {
      assert hist[p.sn] == (hist + rest)[p.sn] && hist[p.sn] in x.hist + x.k.sndQueue;
    }
  }

  /** The datagrams of one flush: their concatenation is everything written, none is empty, none
      exceeds the MTU. */
  lemma {:induction false} FlushFrames(x: Endpoint, y: Endpoint, k: Kcb)
    requires Half(x, y) && Half(y, x) && SmallFrgs(x) && k == x.k.(clock := k.clock) && k.clock.updated
    ensures var out := Engine.Flush(Ideal, k).out;
            Flatten(out) == Emitted(Ideal, k) && forall d :: d in out ==> 0 < Size(d) <= k.cfg.mtu
  {
    EmittedFits(x, y, k);
    PackFits(k.cfg.mtu, [], Emitted(Ideal, k));
    PackOk(k.cfg.mtu, [], Emitted(Ideal, k));
    assert [] + Emitted(Ideal, k) == Emitted(Ideal, k);
  }

  lemma {:induction false} FlushFits(x: Endpoint, y: Endpoint, k: Kcb)
    requires Half(x, y) && Half(y, x) && SmallFrgs(x) && Fits(x) && k == x.k.(clock := k.clock)
    ensures Fits(Emit(x, Engine.Flush(Ideal, k)))
  {
    if k.clock.updated {
      FlushFrames(x, y, k);
      FlushFrame(k);
    }
  }

  lemma {:induction false} ActFits(x: Endpoint, y: Endpoint, act: Act)
    requires Half(x, y) && Half(y, x) && SmallFrgs(x) && Fits(x)
    ensures Fits(ActOn(Ideal, x, y.net, act))
  {
    match act {
      case Write(data) =>
      case Read(len) => ReadFrame(x, len);
      case Drive(now) => FlushFits(x, y, x.k.(clock := Tick(x.k.clock, x.k.cfg.interval, now).0));
      case FlushNow => FlushFits(x, y, x.k);
      case Deliver(i) => if i < |y.net| { InputAllCfg(Ideal, x.k, y.net[i]); }
    }
  }

  lemma {:induction false} FitsRuns(s: Sys, es: seq<Event>)
    requires Ordered(s) && Fits(s.a) && Fits(s.b)
    ensures var s' := Run(Ideal, s, es); Fits(s'.a) && Fits(s'.b)
  {
    if es != [] {
      var s1 := Run(Ideal, s, es[..|es| - 1]);
      var e := es[|es| - 1];
      FitsRuns(s, es[..|es| - 1]);
      RunOrdered(s, es[..|es| - 1]);
      ActFits(Near(s1, e.atA), Far(s1, e.atA), e.act);
    }
  }

  /** No datagram of any run is empty or longer than the sender's MTU, in bytes on the wire. */
  lemma {:induction false} MtuRespected(cfgA: Config, cfgB: Config, es: seq<Event>)
    requires Timely(cfgA, cfgB, es)
    ensures var s := ByteNetwork.HostRun(ByteNetwork.Start(cfgA, cfgB), es);
            && (forall b :: b in s.a.net ==> 0 < |b| <= cfgA.mtu)
            && (forall b :: b in s.b.net ==> 0 < |b| <= cfgB.mtu)
  {
    InitOrdered(cfgA, cfgB);
    FitsRuns(Init(cfgA, cfgB), es);
    OrderedRuns(cfgA, cfgB, es);
    ByteNetwork.ByteSimulation(cfgA, cfgB, es);
    BytesFit(Run(Ideal, Init(cfgA, cfgB), es).a);
    BytesFit(Run(Ideal, Init(cfgA, cfgB), es).b);
  }

  lemma {:induction false} BytesFit(x: Endpoint)
    requires Fits(x)
    ensures forall b :: b in ByteNetwork.HostOf(WrapEnd(x)).net ==> 0 < |b| <= x.k.cfg.mtu
  {
    var net := ByteNetwork.HostOf(WrapEnd(x)).net;
    forall b | b in net ensures 0 < |b| <= x.k.cfg.mtu {
      var i :| 0 <= i < |net| && net[i] == b;
      EncodeSize(WrapDatagram(x.net[i]));
      SizeWrap(x.net[i]);
      assert x.net[i] in x.net;
    }
  }

  // ---- The receiving end ------------------------------------------------------------------

  datatype FedOut = FedOut(k: Kcb, ok: bool)

  /** Passes byte datagrams to `ikcp_input` one after the other; ok when each call returns 0. */
  function FeedBytes(r: Kcb, bs: seq<seq<byte>>): FedOut
    decreases |bs|
  {
    if bs == [] then FedOut(r, true)
    else
      var first := InputRaw(r, bs[0]);
      var rest := FeedBytes(first.k, bs[1..]);
      FedOut(rest.k, first.ret == 0 && rest.ok)
  }

  /** The same with lists of headers and payloads. */
  function FeedLists(r: Kcb, ds: seq<Datagram>): Kcb
    decreases |ds|
  {
    if ds == [] then r else FeedLists(Input(Wrap32, r, ds[0]), ds[1..])
  }

  ghost predicate AllSound(conv: u32, ds: seq<Datagram>) {
    forall d :: d in ds ==> d != [] && AllEncodable(d) && AllSendable(conv, d)
  }

  lemma {:induction false} InputConv(r: Kcb, d: Datagram)
    ensures Input(Wrap32, r, d).cfg == r.cfg
  {
    InputAllCfg(Wrap32, r, d);
  }

  lemma {:induction false} FedAlike(r: Kcb, ds: seq<Datagram>)
    requires AllSound(r.cfg.conv, ds)
    ensures FeedBytes(r, Map(Encode, ds)) == FedOut(FeedLists(r, ds), true)
    decreases |ds|
  {
    if ds != [] {
      assert ds[0] in ds;
      MapTake(Encode, ds, 1);
      InputEncoded(r, ds[0]);
      InputConv(r, ds[0]);
      FedAlike(Input(Wrap32, r, ds[0]), ds[1..]);
    }
  }

  lemma {:induction false} WrapSound(ds: seq<Datagram>, conv: u32)
    requires forall d :: d in ds ==> d != [] && AllEncodable(WrapDatagram(d)) && AllSendable(conv, WrapDatagram(d))
    ensures AllSound(conv, Map(WrapDatagram, ds))
  {
    forall e | e in Map(WrapDatagram, ds) ensures e != [] && AllEncodable(e) && AllSendable(conv, e) {
      var i :| 0 <= i < |ds| && Map(WrapDatagram, ds)[i] == e;
      assert ds[i] in ds;
    }
  }

  lemma {:induction false} FlushSmall(x: Endpoint, y: Endpoint, k: Kcb)
    requires Half(x, y) && SmallFrgs(x) && k == x.k.(clock := k.clock) && k.clock.updated
    ensures SmallFrgs(Emit(x, Engine.Flush(Ideal, k)))
  {
    FlushQueue(x, k);
    FlushFrame(k);
  }

  /** Framing round trip of one flush: the bytes it emits, given in order to the peer's `ikcp_input`,
      are all accepted, and processed exactly as the lists of headers and payloads whose
      concatenation the flush wrote. */
  lemma {:induction false} FlushReceived(x: Endpoint, y: Endpoint, k: Kcb, r: Kcb)
    requires Half(x, y) && Half(y, x) && SmallFrgs(x)
    requires k == x.k.(clock := k.clock) && k.clock.updated && r.cfg.conv == k.cfg.conv
    ensures var out := Engine.Flush(Wrap32, WrapKcb(k)).out;
            && FeedBytes(r, Map(Encode, out)) == FedOut(FeedLists(r, out), true)
            && Flatten(out) == Emitted(Wrap32, WrapKcb(k))
  {
    var ideal := Engine.Flush(Ideal, k).out;
    var x' := Emit(x, Engine.Flush(Ideal, k));
    FlushOk(x, y, k);
    FlushFrame(k);
    FlushWrap(k);
    FlushSmall(x, y, k);
    forall d | d in ideal ensures d != [] && AllEncodable(WrapDatagram(d)) && AllSendable(k.cfg.conv, WrapDatagram(d)) {
      assert d in x'.net;
      ByteNetwork.NetSendable(x', d);
    }
    WrapSound(ideal, k.cfg.conv);
    FedAlike(r, Map(WrapDatagram, ideal));
    FlushFrames(x, y, k);
    EmittedWrap(k);
    FlattenWrap(ideal);
  }

  lemma {:induction false} FlattenWrap(ds: seq<Datagram>)
    ensures Flatten(Map(WrapDatagram, ds)) == Map(WrapPkt, Flatten(ds))
  {
    if ds != [] {
      MapTake(WrapDatagram, ds, 1);
      FlattenWrap(ds[1..]);
      MapAppend(WrapPkt, ds[0], Flatten(ds[1..]));
    }
  }
}
