/** The two 32-bit engines exchanging real bytes: the delivery theorems down to the wire. */
module ByteNetwork {
  import opened Words
  import opened Seqs
  import opened Engine
  import opened Wire
  import opened Network
  import opened Transport
  import opened Messages
  import opened Continuation
  import opened Serial

  /** An engine with the byte datagrams it has emitted and the application's side of it. */
  datatype Host = Host(k: Kcb, net: seq<seq<byte>>, sent: seq<seq<byte>>, got: seq<seq<byte>>)

  function HostOf(x: Endpoint): Host { Host(x.k, Map(Encode, x.net), x.sent, x.got) }

  function HostEmit(h: Host, f: FlushOut): Host { h.(k := f.k, net := h.net + Map(Encode, f.out)) }

  function HostOn(h: Host, peer: seq<seq<byte>>, act: Act): Host {
    match act
    case Write(data) =>
      var r := Engine.Send(h.k, data);
      h.(k := r.k, sent := if 0 <= r.ret <= |data| then h.sent + [data[..r.ret]] else h.sent)
    case Read(len) =>
      var r := Engine.Recv(Wrap32, h.k, len);
      h.(k := r.k, got := if r.ret < 0 || len < 0 then h.got else h.got + [r.data])
    case Drive(now) => HostEmit(h, Engine.Update(Wrap32, h.k, now))
    case FlushNow => HostEmit(h, Engine.Flush(Wrap32, h.k))
    case Deliver(i) => if i < |peer| then h.(k := InputRaw(h.k, peer[i]).k) else h
  }

  datatype Hosts = Hosts(a: Host, b: Host)

  function HostStep(s: Hosts, e: Event): Hosts {
    if e.atA then s.(a := HostOn(s.a, s.b.net, e.act)) else s.(b := HostOn(s.b, s.a.net, e.act))
  }

  function HostRun(s: Hosts, es: seq<Event>): Hosts {
    if es == [] then s else HostStep(HostRun(s, es[..|es| - 1]), es[|es| - 1])
  }

  function HostsOf(s: Sys): Hosts { Hosts(HostOf(s.a), HostOf(s.b)) }

  function Start(cfgA: Config, cfgB: Config): Hosts {
    Hosts(Host(Create(cfgA), [], [], []), Host(Create(cfgB), [], [], []))
  }

  /** Every datagram on the network is well formed: it fits the format and the peer takes it. */
  lemma {:induction false} NetSendable(x: Endpoint, d: Datagram)
    requires NetOk(x) && SmallFrgs(x) && d in x.net
    ensures AllEncodable(WrapDatagram(d)) && AllSendable(x.k.cfg.conv, WrapDatagram(d)) && WrapDatagram(d) != []
  {
    forall q | q in WrapDatagram(d) ensures Encodable(q) && Sendable(x.k.cfg.conv, q) {
      var i :| 0 <= i < |d| && WrapDatagram(d)[i] == q;
      assert d[i] in d && Emittable(x.k, x.hist, d[i]);
      if d[i].cmd == CMD_PUSH {
        assert x.hist[d[i].sn] in x.hist + x.k.sndQueue;
      }
    }
  }

  lemma {:induction false} HostDeliver(x: Endpoint, y: Endpoint, i: nat)
    requires NetOk(y) && SmallFrgs(y) && y.k.cfg.conv == x.k.cfg.conv
    ensures HostOn(HostOf(WrapEnd(x)), HostOf(WrapEnd(y)).net, Deliver(i)) ==
            HostOf(ActOn(Wrap32, WrapEnd(x), WrapEnd(y).net, Deliver(i)))
  {
    if i < |y.net| {
      assert y.net[i] in y.net;
      NetSendable(y, y.net[i]);
      InputEncoded(WrapEnd(x).k, WrapDatagram(y.net[i]));
    }
  }

  lemma {:induction false} HostAct(x: Endpoint, y: Endpoint, act: Act)
    requires Half(x, y) && Half(y, x) && SmallFrgs(y) && y.k.cfg.conv == x.k.cfg.conv
    ensures HostOn(HostOf(WrapEnd(x)), HostOf(WrapEnd(y)).net, act) ==
            HostOf(ActOn(Wrap32, WrapEnd(x), WrapEnd(y).net, act))
  {
    var h := WrapEnd(x);
    match act {
      case Write(data) =>
      case Read(len) =>
      case Drive(now) => MapAppend(Encode, h.net, Engine.Update(Wrap32, h.k, now).out);
      case FlushNow => MapAppend(Encode, h.net, Engine.Flush(Wrap32, h.k).out);
      case Deliver(i) => HostDeliver(x, y, i);
    }
  }

  lemma {:induction false} HostRuns(s: Sys, es: seq<Event>)
    requires Ordered(s) && YoungRun(s, es)
    ensures HostRun(HostsOf(WrapSys(s)), es) == HostsOf(WrapSys(Run(Ideal, s, es)))
  {
    if es != [] {
      var s1 := Run(Ideal, s, es[..|es| - 1]);
      var e := es[|es| - 1];
      HostRuns(s, es[..|es| - 1]);
      RunOrdered(s, es[..|es| - 1]);
      HostAct(Near(s1, e.atA), Far(s1, e.atA), e.act);
      StepWrap(s1, e);
    }
  }

  /** The hosts, exchanging bytes with 32-bit numbers, follow the run of the unbounded engine. */
  lemma {:induction false} ByteSimulation(cfgA: Config, cfgB: Config, es: seq<Event>)
    requires Timely(cfgA, cfgB, es)
    ensures HostRun(Start(cfgA, cfgB), es) == HostsOf(WrapSys(Run(Ideal, Init(cfgA, cfgB), es)))
  {
    InitOrdered(cfgA, cfgB);
    HostRuns(Init(cfgA, cfgB), es);
    assert HostsOf(WrapSys(Init(cfgA, cfgB))) == Start(cfgA, cfgB);
  }

  /** In-order, exactly-once delivery between hosts that exchange bytes. */
  lemma {:induction false} ByteDelivery(cfgA: Config, cfgB: Config, es: seq<Event>)
    requires Timely(cfgA, cfgB, es)
    ensures var s := HostRun(Start(cfgA, cfgB), es);
            && Concat(s.b.got) + Bytes(s.b.k.rcvQueue) <= Concat(s.a.sent)
            && (!cfgA.stream ==> s.b.got <= s.a.sent)
  {
    ByteSimulation(cfgA, cfgB, es);
    Simulation(cfgA, cfgB, es);
    Delivery32(cfgA, cfgB, es);
  }

  /** The hosts' clocks only advance in the run. */
  ghost predicate HostClocks(s: Hosts, es: seq<Event>) {
    es == [] ||
    (HostClocks(s, es[..|es| - 1])
     && var hs := HostRun(s, es[..|es| - 1]); var e := es[|es| - 1]; Onward(if e.atA then hs.a.k else hs.b.k, e.act))
  }

  lemma {:induction false} ClocksAlike(s: Sys, es: seq<Event>)
    requires Ordered(s) && YoungRun(s, es) && ClockRun(Wrap32, WrapSys(s), es)
    ensures HostClocks(HostsOf(WrapSys(s)), es)
  {
    if es != [] {
      ClocksAlike(s, es[..|es| - 1]);
      HostRuns(s, es[..|es| - 1]);
      RunWrap(s, es[..|es| - 1]);
    }
  }

  /** And every timely run can be continued, without writes, by updates alone and on clocks that only
      advance, until all of it is delivered. */
  lemma {:induction false} ByteProgress(cfgA: Config, cfgB: Config, es: seq<Event>) returns (fs: seq<Event>)
    requires Timely(cfgA, cfgB, es)
    ensures NoWrites(fs) && UpdatesOnly(fs) && Timely(cfgA, cfgB, es + fs)
    ensures HostClocks(HostRun(Start(cfgA, cfgB), es), fs)
    ensures var s := HostRun(Start(cfgA, cfgB), es); var s' := HostRun(Start(cfgA, cfgB), es + fs);
            && s'.a.k.sndBuf == [] && s'.a.k.sndQueue == [] && s'.b.k.rcvQueue == []
            && Concat(s'.b.got) == Concat(s.a.sent)
            && (!cfgA.stream ==> s'.b.got == s.a.sent)
  {
    fs := NoDeadlock32(cfgA, cfgB, es);
    ByteSimulation(cfgA, cfgB, es);
    Simulation(cfgA, cfgB, es);
    ByteSimulation(cfgA, cfgB, es + fs);
    Simulation(cfgA, cfgB, es + fs);
    OrderedRuns(cfgA, cfgB, es);
    YoungRest(Init(cfgA, cfgB), es, fs);
    ClocksAlike(Run(Ideal, Init(cfgA, cfgB), es), fs);
  }
}
