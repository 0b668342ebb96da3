/** Two endpoints over an unreliable network, and every run of them.

    Each endpoint keeps the log of all datagrams it has ever emitted.  Delivering is choosing a
    position of the peer's log: datagrams not chosen are lost, chosen twice they are duplicated,
    chosen out of turn they are reordered.  A run is a list of events. */
module Network {
  import opened Words
  import opened Engine

  /** An engine with its history: datagrams emitted, segments numbered so far (`hist[n]` got
      sequence number n), data accepted by send, segments consumed and data returned by recv. */
  datatype Endpoint = Endpoint(k: Kcb, net: seq<Datagram>, hist: seq<Frag>, sent: seq<seq<byte>>,
                               taken: seq<Frag>, got: seq<seq<byte>>)

  datatype Act =
    | Write(data: seq<byte>)
    | Read(len: int)
    | Drive(now: u32)
    | FlushNow
    | Deliver(i: nat)

  function ToFrags(q: seq<Pkt>): (r: seq<Frag>)
    ensures |r| == |q| && forall i :: 0 <= i < |q| ==> r[i] == q[i].ToFrag()
  {
    if q == [] then [] else [q[0].ToFrag()] + ToFrags(q[1..])
  }

  function Emit(x: Endpoint, f: FlushOut): Endpoint {
    var moved := |x.k.sndQueue| - |f.k.sndQueue|;
    x.(k := f.k, net := x.net + f.out,
       hist := x.hist + (if 0 <= moved <= |x.k.sndQueue| then x.k.sndQueue[..moved] else []))
  }

  function ActOn(ar: Arith, x: Endpoint, peer: seq<Datagram>, act: Act): Endpoint {
    match act
    case Write(data) =>
      var r := Engine.Send(x.k, data);
      x.(k := r.k, sent := if 0 <= r.ret <= |data| then x.sent + [data[..r.ret]] else x.sent)
    case Read(len) =>
      var r := Engine.Recv(ar, x.k, len);
      if r.ret < 0 || len < 0 then x.(k := r.k)
      else x.(k := r.k, taken := x.taken + ToFrags(x.k.rcvQueue[..MsgCount(x.k.rcvQueue)]), got := x.got + [r.data])
    case Drive(now) => Emit(x, Engine.Update(ar, x.k, now))
    case FlushNow => Emit(x, Engine.Flush(ar, x.k))
    case Deliver(i) => if i < |peer| then x.(k := Input(ar, x.k, peer[i])) else x
  }

  datatype Event = Event(atA: bool, act: Act)
  datatype Sys = Sys(a: Endpoint, b: Endpoint)

  function Step(ar: Arith, s: Sys, e: Event): Sys {
    if e.atA then s.(a := ActOn(ar, s.a, s.b.net, e.act)) else s.(b := ActOn(ar, s.b, s.a.net, e.act))
  }

  function Run(ar: Arith, s: Sys, es: seq<Event>): Sys {
    if es == [] then s else Step(ar, Run(ar, s, es[..|es| - 1]), es[|es| - 1])
  }

  function NewEndpoint(cfg: Config): Endpoint { Endpoint(Create(cfg), [], [], [], [], []) }

  function Init(cfgA: Config, cfgB: Config): Sys { Sys(NewEndpoint(cfgA), NewEndpoint(cfgB)) }

  lemma {:induction false} RunConcat(ar: Arith, s: Sys, es: seq<Event>, fs: seq<Event>)
    ensures Run(ar, s, es + fs) == Run(ar, Run(ar, s, es), fs)
  {
    if fs == [] {
      assert es + fs == es;
    } else {
      var n := |fs| - 1;
      RunConcat(ar, s, es, fs[..n]);
      assert (es + fs)[..|es + fs| - 1] == es + fs[..n];
    }
  }
}
