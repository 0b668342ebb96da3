/** Reading a byte stream through `poll_read`: the leftover of a message that did not fit the
    caller's buffer, for the whole stream and for its read half. */
module Stream {
  import opened Words
  import opened Seqs
  import opened Engine
  import opened Wire
  import opened Network
  import opened Messages
  import opened ByteNetwork
  import opened Serial
  import opened KcpEngine
  import Conservation
  import Loops

  /** What the socket has at the moment of a poll. */
  datatype Arrival = Nothing | Broken | Stranger | FromPeer(data: seq<byte>)

  /** What a poll returns.  The end of the stream is `Ready` with no bytes. */
  datatype Poll = Ready(bytes: seq<byte>) | Failed | Pending

  function Handed(p: Poll): seq<byte> { if p.Ready? then p.bytes else [] }

  /** The engine and the leftover after a poll, its result, what the engine emitted meanwhile, and
      the messages taken out of it. */
  datatype PollOut = PollOut(k: Kcb, left: seq<byte>, poll: Poll, out: seq<Datagram>, got: seq<seq<byte>>)

  /** Takes a message from the engine and hands out what fits; `Pending` when there is none. */
  function Receive(k: Kcb, closed: bool, size: nat, room: nat): PollOut {
    if closed then PollOut(k, [], Ready([]), [], [])
    else
      var r := Engine.Recv(Wrap32, k, size);
      if r.ret >= 0 then
        var n := Min(|r.data|, room);
        PollOut(r.k, r.data[n..], Ready(r.data[..n]), [], [r.data])
      else PollOut(r.k, [], if r.ret == -1 then Pending else Failed, [], [])
  }

  function Leftover(k: Kcb, left: seq<byte>, room: nat): PollOut {
    var n := Min(|left|, room);
    PollOut(k, left[n..], Ready(left[..n]), [], [])
  }

  function Arrive(k: Kcb, arrival: Arrival): Kcb {
    if arrival.FromPeer? then InputRaw(k, arrival.data).k else k
  }

  /** Serving what arrived, and looking again. */
  function Again(k: Kcb, closed: bool, size: nat, room: nat, arrival: Arrival, now: u32): PollOut {
    var u := Engine.Update(Wrap32, Arrive(k, arrival), now);
    Receive(u.k, closed, size, room).(out := u.out)
  }

  /** What a poll of the stream does when the engine had no message. */
  function Served(k: Kcb, closed: bool, size: nat, room: nat, arrival: Arrival, now: u32): PollOut {
    if arrival.Broken? then PollOut(k, [], Failed, [], [])
    else if arrival.Nothing? then
      var u := Engine.Update(Wrap32, k, now);
      PollOut(u.k, [], Pending, u.out, [])
    else Again(k, closed, size, room, arrival, now)
  }

  /** `poll_read` of the stream. */
  function Polled(k: Kcb, left: seq<byte>, closed: bool, size: nat, room: nat, arrival: Arrival, now: u32): PollOut {
    if left != [] then Leftover(k, left, room)
    else
      var first := Receive(k, closed, size, room);
      if first.poll.Pending? then Served(first.k, closed, size, room, arrival, now) else first
  }

  /** The read half's first look at the session, if it gets the lock. */
  function FirstLook(k: Kcb, closed: bool, size: nat, room: nat, now: u32, lock: bool): PollOut {
    if !lock then PollOut(k, [], Pending, [], [])
    else
      var first := Receive(k, closed, size, room);
      if !first.poll.Pending? then first
      else
        var u := Engine.Update(Wrap32, first.k, now);
        first.(k := u.k, out := u.out)
  }

  /** Its second look, when something arrived from the peer. */
  function SecondLook(k: Kcb, closed: bool, size: nat, room: nat, arrival: Arrival, now: u32, lock: bool): PollOut {
    if arrival.Broken? then PollOut(k, [], Failed, [], [])
    else if arrival.FromPeer? && lock then Again(k, closed, size, room, arrival, now)
    else PollOut(k, [], Pending, [], [])
  }

  /** `poll_read` of the read half. */
  function HalfPolled(k: Kcb, left: seq<byte>, closed: bool, size: nat, room: nat, arrival: Arrival, now: u32,
                      lock1: bool,
                      lock2: bool): PollOut
  {
    if left != [] then Leftover(k, left, room)
    else
      var first := FirstLook(k, closed, size, room, now, lock1);
      if !first.poll.Pending? then first
      else
        var second := SecondLook(first.k, closed, size, room, arrival, now, lock2);
        second.(out := first.out + second.out)
  }

  /** A received message fits the buffer it is received into. */
  lemma {:induction false} RecvFits(k: Kcb, size: nat)
    ensures var r := Engine.Recv(Wrap32, k, size); r.ret >= 0 ==> |r.data| == r.ret <= size
  {
    var q := k.rcvQueue;
    if q != [] && q[0].frg == 0 {
      assert q[..1][1..] == [] && Bytes(q[..1]) == q[0].data + Bytes([]);
    }
  }

  /** u is the update of k, without saying what an update is. */
  ghost predicate Drives(k: Kcb, now: u32, u: FlushOut) {
    forall i {:trigger Loops.At(i)} :: Loops.At(i) ==> u == Engine.Update(Wrap32, k, now)
  }

  /** As much of the bytes as there is room for is handed out, from the front; the rest is kept. */
  ghost predicate HandsOut(have: seq<byte>, room: nat, poll: Poll, left: seq<byte>) {
    poll == Ready(have[..Min(|have|, room)]) && left == have[Min(|have|, room)..]
  }

  /** A leftover is handed out before the engine is looked at. */
  lemma {:induction false} LeftoverFirst(k: Kcb, left: seq<byte>, closed: bool, size: nat, room: nat, arrival: Arrival,
                                         now: u32, lock1: bool, lock2: bool)
    ensures var o := Polled(k, left, closed, size, room, arrival, now);
            left != [] ==> HandsOut(left, room, o.poll, o.left) && o.k == k && o.out == [] && o.got == []
    ensures var o := HalfPolled(k, left, closed, size, room, arrival, now, lock1, lock2);
            left != [] ==> HandsOut(left, room, o.poll, o.left) && o.k == k && o.out == [] && o.got == []
  {
  }

  // ---- The read side ----------------------------------------------------------------------

  /** A stream's read buffer over its engine.  Splitting a stream moves these fields to the read
      half as they are. */
  class ReadSide {
    const engine: Kcp
    var closed: bool
    const readBuf: array<byte>
    var readPos: nat
    var readLen: nat

    ghost predicate Valid()
      reads this, readBuf, engine, engine.ack.list
    {
      && readLen <= readBuf.Length && (readPos <= readLen || readLen == 0)
      && (readBuf as object) != engine.ack.list && readBuf != engine.buffer
      && engine.Valid()
    }

    /** Bytes received and not yet handed out. */
    ghost function Left(): seq<byte>
      requires Valid()
      reads this, readBuf, engine, engine.ack.list
    {
      if readPos < readLen then readBuf[readPos..readLen] else []
    }

    constructor (engine: Kcp, recvBufSize: nat)
      requires engine.Valid()
      ensures Valid() && this.engine == engine && Left() == [] && !closed
      ensures readBuf.Length == recvBufSize && fresh(readBuf)
    {
      this.engine := engine;
      closed, readPos, readLen := false, 0, 0;
      readBuf := new byte[recvBufSize];
    }

    /** Copies received data to the start of the read buffer. */
    method Store(data: seq<byte>)
      requires |data| <= readBuf.Length
      modifies readBuf
      ensures readBuf[..|data|] == data
    {
      for i := 0 to |data|
        invariant readBuf[..i] == data[..i]
      {
        readBuf[i] := data[i];
      }
    }

    method TakeLeft(room: nat) returns (bytes: seq<byte>)
      requires Valid() && readPos < readLen
      modifies this`readPos
      ensures Valid() && bytes == old(Left())[..Min(|old(Left())|, room)]
      ensures Left() == old(Left())[Min(|old(Left())|, room)..]
    {
      var n := Min(readLen - readPos, room);
      bytes := readBuf[readPos..readPos + n];
      readPos := readPos + n;
    }

    method TryRecv(room: nat) returns (poll: Poll)
      requires Valid() && readPos == 0 && readLen == 0
      modifies this`readPos, this`readLen, readBuf
      modifies engine`rcvBuf, engine`rcvQueue, engine`nrcvBuf, engine`nrcvQue, engine`rcvNxt, engine`probe
      ensures Valid()
      ensures var o := Receive(old(engine.Abs()), closed, readBuf.Length, room);
              engine.Abs() == o.k && Left() == o.left && poll == o.poll
      ensures !poll.Ready? ==> readPos == 0 && readLen == 0
    {
      if closed {
        return Ready([]);
      }
      RecvFits(engine.Abs(), readBuf.Length);
      var ret, data := engine.Recv(readBuf.Length);
      if ret >= 0 {
        Store(data);
        var n := Min(ret, room);
        if n < ret {
          readPos := n;
          readLen := ret;
        }
        assert readBuf[n..ret] == data[n..];
        return Ready(data[..n]);
      }
      return if ret == -1 then Pending else Failed;
    }

    /** Receiving emits nothing. */
    method RecvAs(room: nat, ghost o: PollOut) returns (poll: Poll)
      requires Valid() && readPos == 0 && readLen == 0 && o == Receive(engine.Abs(), closed, readBuf.Length, room)
      modifies this`readPos, this`readLen, readBuf
      modifies engine`rcvBuf, engine`rcvQueue, engine`nrcvBuf, engine`nrcvQue, engine`rcvNxt, engine`probe
      ensures Valid() && engine.Abs() == o.k && Left() == o.left && poll == o.poll
      ensures !poll.Ready? ==> readPos == 0 && readLen == 0
    {
      poll := TryRecv(room);
    }

    /** Feeds what arrived into the engine, and drives it. */
    method Serve(arrival: Arrival, now: u32, ghost u: FlushOut)
      requires Valid() && readPos == 0 && readLen == 0 && Drives(Arrive(engine.Abs(), arrival), now, u)
      modifies engine, engine.ack.list, engine.buffer
      ensures Valid() && (engine.ack.list == old(engine.ack.list) || fresh(engine.ack.list))
      ensures engine.Abs() == u.k && engine.output == old(engine.output) + Map(Encode, u.out)
    {
      if arrival.FromPeer? {
        var ret := engine.Input(arrival.data);
      }
      assert Loops.At(0);
      engine.Update(now);
    }

    method ServeAndRecv(room: nat, arrival: Arrival, now: u32, ghost u: FlushOut, ghost o: PollOut)
      returns (poll: Poll)
      requires Valid() && readPos == 0 && readLen == 0
      requires Drives(Arrive(engine.Abs(), arrival), now, u)
      requires o == Receive(u.k, closed, readBuf.Length, room).(out := u.out)
      modifies this`readPos, this`readLen, readBuf, engine, engine.ack.list, engine.buffer
      ensures Valid()
      ensures engine.Abs() == o.k && Left() == o.left && poll == o.poll
      ensures engine.output == old(engine.output) + Map(Encode, o.out)
    {
      Serve(arrival, now, u);
      poll := RecvAs(room, Receive(u.k, closed, readBuf.Length, room));
    }

    /** `poll_read` of the stream.  A leftover is handed out first, as much of it as there is room for. */
    method PollRead(room: nat, arrival: Arrival, now: u32) returns (poll: Poll)
      requires Valid()
      modifies this`readPos, this`readLen, readBuf, engine, engine.ack.list, engine.buffer
      ensures Valid()
      ensures var o := Polled(old(engine.Abs()), old(Left()), closed, readBuf.Length, room, arrival, now);
              && engine.Abs() == o.k && Left() == o.left && poll == o.poll
              && engine.output == old(engine.output) + Map(Encode, o.out)
      ensures old(Left()) != [] ==> HandsOut(old(Left()), room, poll, Left()) && engine.Abs() == old(engine.Abs())
    {
      LeftoverFirst(engine.Abs(), Left(), closed, readBuf.Length, room, arrival, now, true, true);
      poll := ReadOnce(room, arrival, now);
    }

    method ReadOnce(room: nat, arrival: Arrival, now: u32) returns (poll: Poll)
      requires Valid()
      modifies this`readPos, this`readLen, readBuf, engine, engine.ack.list, engine.buffer
      ensures Valid()
      ensures var o := Polled(old(engine.Abs()), old(Left()), closed, readBuf.Length, room, arrival, now);
              && engine.Abs() == o.k && Left() == o.left && poll == o.poll
              && engine.output == old(engine.output) + Map(Encode, o.out)
    {
      if readPos < readLen {
        var bytes := TakeLeft(room);
        return Ready(bytes);
      }
      readPos, readLen := 0, 0;
      poll := RecvAs(room, Receive(engine.Abs(), closed, readBuf.Length, room));
      if poll.Pending? {
        poll := ServeOnce(room, arrival, now, Served(engine.Abs(), closed, readBuf.Length, room, arrival, now));
      }
    }

    /** What arrived, once the engine had no message. */
    method ServeOnce(room: nat, arrival: Arrival, now: u32, ghost o: PollOut) returns (poll: Poll)
      requires Valid() && readPos == 0 && readLen == 0
      requires o == Served(engine.Abs(), closed, readBuf.Length, room, arrival, now)
      modifies this`readPos, this`readLen, readBuf, engine, engine.ack.list, engine.buffer
      ensures Valid()
      ensures engine.Abs() == o.k && Left() == o.left && poll == o.poll
      ensures engine.output == old(engine.output) + Map(Encode, o.out)
    {
      if arrival.Broken? {
        return Failed;
      }
      ghost var u := Engine.Update(Wrap32, Arrive(engine.Abs(), arrival), now);
      if arrival.Nothing? {
        Serve(arrival, now, u);
        return Pending;
      }
      poll := ServeAndRecv(room, arrival, now, u, o);
    }

    method LookFirst(room: nat, now: u32, lock: bool, ghost o: PollOut) returns (poll: Poll)
      requires Valid() && readPos == 0 && readLen == 0
      requires o == FirstLook(engine.Abs(), closed, readBuf.Length, room, now, lock)
      modifies this`readPos, this`readLen, readBuf, engine, engine.ack.list, engine.buffer
      ensures Valid() && (engine.ack.list == old(engine.ack.list) || fresh(engine.ack.list))
      ensures engine.Abs() == o.k && Left() == o.left && poll == o.poll
      ensures engine.output == old(engine.output) + Map(Encode, o.out)
      ensures poll.Pending? ==> readPos == 0 && readLen == 0
    {
      poll := Pending;
      if lock {
        poll := RecvAs(room, Receive(engine.Abs(), closed, readBuf.Length, room));
        if poll.Pending? {
          Serve(Nothing, now, Engine.Update(Wrap32, engine.Abs(), now));
        }
      }
    }

    method LookSecond(room: nat, arrival: Arrival, now: u32, lock: bool, ghost o: PollOut) returns (poll: Poll)
      requires Valid() && readPos == 0 && readLen == 0
      requires o == SecondLook(engine.Abs(), closed, readBuf.Length, room, arrival, now, lock)
      modifies this`readPos, this`readLen, readBuf, engine, engine.ack.list, engine.buffer
      ensures Valid()
      ensures engine.Abs() == o.k && Left() == o.left && poll == o.poll
      ensures engine.output == old(engine.output) + Map(Encode, o.out)
    {
      if arrival.Broken? {
        return Failed;
      }
      poll := Pending;
      if arrival.FromPeer? && lock {
        poll := ServeAndRecv(room, arrival, now, Engine.Update(Wrap32, Arrive(engine.Abs(), arrival), now), o);
      }
    }

    method LookTwice(room: nat, arrival: Arrival, now: u32, lock1: bool, lock2: bool, ghost first: PollOut,
                     ghost second: PollOut)
      returns (poll: Poll)
      requires Valid() && readPos == 0 && readLen == 0
      requires first == FirstLook(engine.Abs(), closed, readBuf.Length, room, now, lock1)
      requires second == SecondLook(first.k, closed, readBuf.Length, room, arrival, now, lock2)
      modifies this`readPos, this`readLen, readBuf, engine, engine.ack.list, engine.buffer
      ensures Valid()
      ensures var o := if first.poll.Pending? then second.(out := first.out + second.out) else first;
              && engine.Abs() == o.k && Left() == o.left && poll == o.poll
              && engine.output == old(engine.output) + Map(Encode, o.out)
    {
      MapAppend(Encode, first.out, second.out);
      Assoc(engine.output, Map(Encode, first.out), Map(Encode, second.out));
      poll := LookFirst(room, now, lock1, first);
      if poll.Pending? {
        poll := LookSecond(room, arrival, now, lock2, second);
      }
    }

    /** `poll_read` of the read half. */
    method PollHalf(room: nat, arrival: Arrival, now: u32, lock1: bool, lock2: bool) returns (poll: Poll)
      requires Valid()
      modifies this`readPos, this`readLen, readBuf, engine, engine.ack.list, engine.buffer
      ensures Valid()
      ensures var o := HalfPolled(old(engine.Abs()), old(Left()), closed, readBuf.Length, room, arrival, now,
                                  lock1, lock2);
              && engine.Abs() == o.k && Left() == o.left && poll == o.poll
              && engine.output == old(engine.output) + Map(Encode, o.out)
      ensures old(Left()) != [] ==> HandsOut(old(Left()), room, poll, Left()) && engine.Abs() == old(engine.Abs())
    {
      LeftoverFirst(engine.Abs(), Left(), closed, readBuf.Length, room, arrival, now, lock1, lock2);
      poll := HalfOnce(room, arrival, now, lock1, lock2);
    }

    method HalfOnce(room: nat, arrival: Arrival, now: u32, lock1: bool, lock2: bool) returns (poll: Poll)
      requires Valid()
      modifies this`readPos, this`readLen, readBuf, engine, engine.ack.list, engine.buffer
      ensures Valid()
      ensures var o := HalfPolled(old(engine.Abs()), old(Left()), closed, readBuf.Length, room, arrival, now,
                                  lock1, lock2);
              && engine.Abs() == o.k && Left() == o.left && poll == o.poll
              && engine.output == old(engine.output) + Map(Encode, o.out)
    {
      if readPos < readLen {
        var bytes := TakeLeft(room);
        return Ready(bytes);
      }
      readPos, readLen := 0, 0;
      ghost var first := FirstLook(engine.Abs(), closed, readBuf.Length, room, now, lock1);
      ghost var second := SecondLook(first.k, closed, readBuf.Length, room, arrival, now, lock2);
      poll := LookTwice(room, arrival, now, lock1, lock2, first, second);
    }
  }

  // ---- Runs -------------------------------------------------------------------------------

  /** What B's socket has in a run: a datagram that A has emitted, or none of A's. */
  datatype Source = Quietness | Failure | Other | Peer(i: nat)

  function Resolve(net: seq<seq<byte>>, src: Source): Arrival {
    match src
    case Quietness => Nothing
    case Failure => Broken
    case Other => Stranger
    case Peer(i) => if i < |net| then FromPeer(net[i]) else Nothing
  }

  /** One call of `poll_read` at B, on the whole stream or on its read half. */
  datatype Look = Look(half: bool, room: nat, src: Source, now: u32, lock1: bool, lock2: bool)

  datatype StreamEvent = Base(e: Event) | PollB(look: Look) | CloseB

  /** Two hosts, B's leftover, and what B's polls have handed out. */
  datatype Streams = Streams(hosts: Hosts, left: seq<byte>, handed: seq<byte>, closed: bool)

  function LookAt(s: Streams, size: nat, l: Look): PollOut {
    var arrival := Resolve(s.hosts.a.net, l.src);
    if l.half then HalfPolled(s.hosts.b.k, s.left, s.closed, size, l.room, arrival, l.now, l.lock1, l.lock2)
    else Polled(s.hosts.b.k, s.left, s.closed, size, l.room, arrival, l.now)
  }

  function Took(h: Host, o: PollOut): Host { h.(k := o.k, net := h.net + Map(Encode, o.out), got := h.got + o.got) }

  /** B reads only through polls. */
  function StreamStep(s: Streams, size: nat, ev: StreamEvent): Streams {
    match ev
    case Base(e) => if !e.atA && e.act.Read? then s else s.(hosts := HostStep(s.hosts, e))
    case PollB(l) =>
      var o := LookAt(s, size, l);
      s.(hosts := s.hosts.(b := Took(s.hosts.b, o)), left := o.left,
         handed := s.handed + Handed(o.poll))
    case CloseB => s.(closed := true)
  }

  function StreamRun(s: Streams, size: nat, evs: seq<StreamEvent>): Streams {
    if evs == [] then s else StreamStep(StreamRun(s, size, evs[..|evs| - 1]), size, evs[|evs| - 1])
  }

  function Opened(cfgA: Config, cfgB: Config): Streams { Streams(Start(cfgA, cfgB), [], [], false) }

  // ---- A poll is a few engine events ------------------------------------------------------

  function ReadB(size: nat): seq<Event> { [Event(false, Read(size))] }

  function DriveB(now: u32): seq<Event> { [Event(false, Drive(now))] }

  function DeliverB(s: Streams, src: Source): seq<Event> {
    if src.Peer? && src.i < |s.hosts.a.net| then [Event(false, Deliver(src.i))] else []
  }

  /** The engine events that make up a poll. */
  function Within(s: Streams, size: nat, l: Look): seq<Event> {
    if s.left != [] then []
    else
      var arrival := Resolve(s.hosts.a.net, l.src);
      var locked := !l.half || l.lock1;
      var read := if s.closed || !locked then [] else ReadB(size);
      if locked && !Receive(s.hosts.b.k, s.closed, size, l.room).poll.Pending? then read
      else if !l.half then
        if arrival.Broken? then read
        else if arrival.Nothing? then read + (DeliverB(s, l.src) + DriveB(l.now))
        else read + (DeliverB(s, l.src) + DriveB(l.now) + ReadB(size))
      else
        var first := read + if locked then DriveB(l.now) else [];
        if arrival.FromPeer? && l.lock2 then
          first + (DeliverB(s, l.src) + DriveB(l.now) + (if s.closed then [] else ReadB(size)))
        else first
  }

  function Underneath(s: Streams, size: nat, ev: StreamEvent): seq<Event> {
    match ev
    case Base(e) => if !e.atA && e.act.Read? then [] else [e]
    case PollB(l) => Within(s, size, l)
    case CloseB => []
  }

  /** The engine events of a whole stream run. */
  function AllUnderneath(s: Streams, size: nat, evs: seq<StreamEvent>): seq<Event> {
    if evs == [] then []
    else
      var n := |evs| - 1;
      AllUnderneath(s, size, evs[..n]) + Underneath(StreamRun(s, size, evs[..n]), size, evs[n])
  }

  lemma {:induction false} HostRunConcat(s: Hosts, es: seq<Event>, fs: seq<Event>)
    ensures HostRun(s, es + fs) == HostRun(HostRun(s, es), fs)
  {
    if fs == [] {
      assert es + fs == es;
    } else {
      var n := |fs| - 1;
      HostRunConcat(s, es, fs[..n]);
      assert (es + fs)[..|es + fs| - 1] == es + fs[..n];
    }
  }

  lemma {:induction false} HostRunOne(s: Hosts, e: Event)
    ensures HostRun(s, [e]) == HostStep(s, e)
  {
    assert [e][..0] == [];
    assert HostRun(s, [e][..0]) == s;
  }

  function AtB(s: Hosts, h: Host): Hosts { s.(b := h) }

  lemma {:induction false} ReadIs(s: Hosts, size: nat, room: nat)
    ensures HostRun(s, ReadB(size)) == AtB(s, Took(s.b, Receive(s.b.k, false, size, room)))
  {
    HostRunOne(s, Event(false, Read(size)));
    RecvFits(s.b.k, size);
    assert s.b.net + Map(Encode, []) == s.b.net;
    assert s.b.got + [] == s.b.got;
  }

  lemma {:induction false} DriveIs(s: Hosts, now: u32)
    ensures HostRun(s, DriveB(now)) == AtB(s, HostEmit(s.b, Engine.Update(Wrap32, s.b.k, now)))
  {
    HostRunOne(s, Event(false, Drive(now)));
  }

  lemma {:induction false} DeliverIs(s: Streams, hs: Hosts, src: Source)
    requires hs.a == s.hosts.a
    ensures HostRun(hs, DeliverB(s, src)) == AtB(hs, hs.b.(k := Arrive(hs.b.k, Resolve(hs.a.net, src))))
  {
    if src.Peer? && src.i < |hs.a.net| {
      HostRunOne(hs, Event(false, Deliver(src.i)));
    }
  }

  /** Feeding what arrived and driving the engine. */
  lemma {:induction false} ServeIs(s: Streams, hs: Hosts, src: Source, now: u32)
    requires hs.a == s.hosts.a
    ensures HostRun(hs, DeliverB(s, src) + DriveB(now)) ==
            AtB(hs, HostEmit(hs.b, Engine.Update(Wrap32, Arrive(hs.b.k, Resolve(hs.a.net, src)), now)))
  {
    HostRunConcat(hs, DeliverB(s, src), DriveB(now));
    DeliverIs(s, hs, src);
    DriveIs(HostRun(hs, DeliverB(s, src)), now);
  }

  /** Two steps of a poll add up. */
  lemma {:induction false} TookTwice(h: Host, o1: PollOut, o2: PollOut)
    ensures Took(Took(h, o1), o2) == Took(h, o2.(out := o1.out + o2.out, got := o1.got + o2.got))
  {
    MapAppend(Encode, o1.out, o2.out);
    Assoc(h.net, Map(Encode, o1.out), Map(Encode, o2.out));
    Assoc(h.got, o1.got, o2.got);
  }

  /** The first look at an unlocked session. */
  lemma {:induction false} LookIs(s: Hosts, closed: bool, size: nat, room: nat)
    ensures HostRun(s, if closed then [] else ReadB(size)) == AtB(s, Took(s.b, Receive(s.b.k, closed, size, room)))
  {
    if closed {
      assert s.b.net + Map(Encode, []) == s.b.net && s.b.got + [] == s.b.got;
    } else {
      ReadIs(s, size, room);
    }
  }

  /** One step of a poll as host events: after `es` the host has taken `o`. */
  ghost predicate Does(s: Hosts, es: seq<Event>, o: PollOut) {
    HostRun(s, es) == AtB(s, Took(s.b, o))
  }

  lemma {:induction false} DoesThen(s: Hosts, es: seq<Event>, o1: PollOut, fs: seq<Event>, o2: PollOut)
    requires Does(s, es, o1) && Does(AtB(s, Took(s.b, o1)), fs, o2)
    ensures Does(s, es + fs, o2.(out := o1.out + o2.out, got := o1.got + o2.got))
  {
    HostRunConcat(s, es, fs);
    TookTwice(s.b, o1, o2);
  }

  function Driven(k: Kcb, arrival: Arrival, now: u32): PollOut {
    var u := Engine.Update(Wrap32, Arrive(k, arrival), now);
    PollOut(u.k, [], Pending, u.out, [])
  }

  lemma {:induction false} ServeDoes(s: Streams, hs: Hosts, src: Source, now: u32)
    requires hs.a == s.hosts.a
    ensures Does(hs, DeliverB(s, src) + DriveB(now), Driven(hs.b.k, Resolve(hs.a.net, src), now))
  {
    ServeIs(s, hs, src, now);
    assert hs.b.got + [] == hs.b.got;
  }

  /** Receiving, serving what arrived, and receiving again. */
  lemma {:induction false} ServeAndLook(s: Streams, hs: Hosts, size: nat, room: nat, src: Source, now: u32,
                                        closed: bool)
    returns (served: PollOut, again: PollOut)
    requires hs.a == s.hosts.a
    ensures served == Driven(hs.b.k, Resolve(hs.a.net, src), now) && again == Receive(served.k, closed, size, room)
    ensures Does(hs, DeliverB(s, src) + DriveB(now), served)
    ensures Does(hs, (DeliverB(s, src) + DriveB(now)) + (if closed then [] else ReadB(size)), again.(out := served.out))
  {
    served := Driven(hs.b.k, Resolve(hs.a.net, src), now);
    again := Receive(served.k, closed, size, room);
    ServeDoes(s, hs, src, now);
    var hs1 := AtB(hs, Took(hs.b, served));
    LookIs(hs1, closed, size, room);
    DoesThen(hs, DeliverB(s, src) + DriveB(now), served, if closed then [] else ReadB(size), again);
    assert served.out + again.out == served.out && [] + again.got == again.got;
  }

  lemma {:induction false} Idle(s: Hosts, o: PollOut)
    requires o.k == s.b.k && o.out == [] && o.got == []
    ensures Does(s, [], o)
  {
    assert s.b.net + Map(Encode, []) == s.b.net && s.b.got + [] == s.b.got;
  }

  lemma {:induction false} ServedDoes(s: Streams, hs: Hosts, size: nat, room: nat, src: Source, now: u32)
    returns (es: seq<Event>)
    requires hs.a == s.hosts.a
    ensures Does(hs, es, Served(hs.b.k, false, size, room, Resolve(hs.a.net, src), now))
    ensures es == if src.Failure? then []
                  else if Resolve(hs.a.net, src).Nothing? then DeliverB(s, src) + DriveB(now)
                  else (DeliverB(s, src) + DriveB(now)) + ReadB(size)
  {
    if src.Failure? {
      es := [];
      Idle(hs, Served(hs.b.k, false, size, room, Resolve(hs.a.net, src), now));
    } else {
      var served, again := ServeAndLook(s, hs, size, room, src, now, false);
      es := DeliverB(s, src) + DriveB(now);
      if !Resolve(hs.a.net, src).Nothing? { es := es + ReadB(size); }
    }
  }

  lemma {:induction false} PollFull(s: Streams, size: nat, l: Look)
    requires !l.half && s.left == []
    ensures Does(s.hosts, Within(s, size, l), LookAt(s, size, l))
  {
    var hs := s.hosts;
    var arrival := Resolve(hs.a.net, l.src);
    var first := Receive(hs.b.k, s.closed, size, l.room);
    var es := if s.closed then [] else ReadB(size);
    LookIs(hs, s.closed, size, l.room);
    if first.poll.Pending? {
      var second := Served(first.k, false, size, l.room, arrival, l.now);
      var fs := ServedDoes(s, AtB(hs, Took(hs.b, first)), size, l.room, l.src, l.now);
      DoesThen(hs, es, first, fs, second);
      assert es + [] == es && [] + second.got == second.got && [] + second.out == second.out;
    }
  }

  lemma {:induction false} FirstDoes(hs: Hosts, closed: bool, size: nat, room: nat, now: u32, lock: bool)
    returns (es: seq<Event>)
    ensures Does(hs, es, FirstLook(hs.b.k, closed, size, room, now, lock))
    ensures var read := if closed || !lock then [] else ReadB(size);
            es == if lock && !Receive(hs.b.k, closed, size, room).poll.Pending? then read
                  else read + if lock then DriveB(now) else []
  {
    if !lock {
      es := [];
      Idle(hs, FirstLook(hs.b.k, closed, size, room, now, lock));
    } else {
      var o := Receive(hs.b.k, closed, size, room);
      es := if closed then [] else ReadB(size);
      LookIs(hs, closed, size, room);
      if o.poll.Pending? {
        var hs1 := AtB(hs, Took(hs.b, o));
        DriveIs(hs1, now);
        assert hs1.b.got + [] == hs1.b.got;
        DoesThen(hs, es, o, DriveB(now), Driven(o.k, Nothing, now));
        es := es + DriveB(now);
      }
    }
  }

  lemma {:induction false} SecondDoes(s: Streams, hs: Hosts, closed: bool, size: nat, room: nat, src: Source,
                                      now: u32, lock: bool)
    returns (es: seq<Event>)
    requires hs.a == s.hosts.a
    ensures Does(hs, es, SecondLook(hs.b.k, closed, size, room, Resolve(hs.a.net, src), now, lock))
    ensures es == if Resolve(hs.a.net, src).FromPeer? && lock
                  then (DeliverB(s, src) + DriveB(now)) + (if closed then [] else ReadB(size)) else []
  {
    if Resolve(hs.a.net, src).FromPeer? && lock {
      var served, again := ServeAndLook(s, hs, size, room, src, now, closed);
      es := (DeliverB(s, src) + DriveB(now)) + (if closed then [] else ReadB(size));
    } else {
      es := [];
      Idle(hs, SecondLook(hs.b.k, closed, size, room, Resolve(hs.a.net, src), now, lock));
    }
  }

  /** The two looks, as host events. */
  lemma {:induction false} LooksDo(s: Streams, size: nat, l: Look)
    returns (es: seq<Event>, fs: seq<Event>, first: PollOut, second: PollOut)
    ensures var hs := s.hosts; var arrival := Resolve(hs.a.net, l.src);
            && first == FirstLook(hs.b.k, s.closed, size, l.room, l.now, l.lock1)
            && second == SecondLook(first.k, s.closed, size, l.room, arrival, l.now, l.lock2)
            && Does(hs, es, first)
            && Does(hs, es + fs, second.(out := first.out + second.out, got := first.got + second.got))
            && (es == if l.lock1 && !Receive(hs.b.k, s.closed, size, l.room).poll.Pending?
                      then (if s.closed then [] else ReadB(size))
                      else (if s.closed || !l.lock1 then [] else ReadB(size)) + (if l.lock1 then DriveB(l.now) else []))
            && fs == if arrival.FromPeer? && l.lock2
                     then (DeliverB(s, l.src) + DriveB(l.now)) + (if s.closed then [] else ReadB(size)) else []
  {
    var hs := s.hosts;
    first := FirstLook(hs.b.k, s.closed, size, l.room, l.now, l.lock1);
    second := SecondLook(first.k, s.closed, size, l.room, Resolve(hs.a.net, l.src), l.now, l.lock2);
    es := FirstDoes(hs, s.closed, size, l.room, l.now, l.lock1);
    fs := SecondDoes(s, AtB(hs, Took(hs.b, first)), s.closed, size, l.room, l.src, l.now, l.lock2);
    DoesThen(hs, es, first, fs, second);
  }

  lemma {:induction false} PollSplit(s: Streams, size: nat, l: Look)
    requires l.half && s.left == []
    ensures Does(s.hosts, Within(s, size, l), LookAt(s, size, l))
  {
    var es, fs, first, second := LooksDo(s, size, l);
    assert es + [] == es && [] + second.got == second.got;
  }

  /** A poll is the engine events within it. */
  lemma {:induction false} PollIs(s: Streams, size: nat, l: Look)
    ensures Does(s.hosts, Within(s, size, l), LookAt(s, size, l))
  {
    if s.left != [] {
      Idle(s.hosts, Leftover(s.hosts.b.k, s.left, l.room));
    } else if l.half {
      PollSplit(s, size, l);
    } else {
      PollFull(s, size, l);
    }
  }

  /** A stream run is a run of the two hosts on the events underneath. */
  lemma {:induction false} StreamIsHostRun(s: Streams, size: nat, evs: seq<StreamEvent>)
    ensures StreamRun(s, size, evs).hosts == HostRun(s.hosts, AllUnderneath(s, size, evs))
  {
    if evs != [] {
      var n := |evs| - 1;
      var s1 := StreamRun(s, size, evs[..n]);
      StreamIsHostRun(s, size, evs[..n]);
      HostRunConcat(s.hosts, AllUnderneath(s, size, evs[..n]), Underneath(s1, size, evs[n]));
      match evs[n] {
        case Base(e) => HostRunOne(s1.hosts, e);
        case PollB(l) => PollIs(s1, size, l);
        case CloseB =>
      }
    }
  }

  // ---- The byte stream --------------------------------------------------------------------

  /** Of the bytes a poll has, those that fit are handed out, and the others are kept. */
  ghost predicate Shares(have: seq<byte>, room: nat, o: PollOut) {
    Handed(o.poll) == have[..Min(|have|, room)] && o.left == have[Min(|have|, room)..]
  }

  /** At most one message is taken out of the engine, and it is shared. */
  ghost predicate Gives(o: PollOut, room: nat) {
    |o.got| <= 1 && (o.got != [] ==> o.poll.Ready?) && Shares(Concat(o.got), room, o)
  }

  lemma {:induction false} ReceiveGives(k: Kcb, closed: bool, size: nat, room: nat)
    ensures Gives(Receive(k, closed, size, room), room)
  {
    var o := Receive(k, closed, size, room);
    if o.got != [] { assert o.got == [o.got[0]] && o.got[..0] == []; }
  }

  lemma {:induction false} ServedGives(k: Kcb, closed: bool, size: nat, room: nat, arrival: Arrival, now: u32)
    ensures Gives(Served(k, closed, size, room, arrival, now), room)
  {
    ReceiveGives(Engine.Update(Wrap32, Arrive(k, arrival), now).k, closed, size, room);
  }

  lemma {:induction false} LooksGive(k: Kcb, closed: bool, size: nat, room: nat, arrival: Arrival, now: u32, lock: bool)
    ensures Gives(FirstLook(k, closed, size, room, now, lock), room)
    ensures Gives(SecondLook(k, closed, size, room, arrival, now, lock), room)
  {
    ReceiveGives(k, closed, size, room);
    ReceiveGives(Engine.Update(Wrap32, Arrive(k, arrival), now).k, closed, size, room);
  }

  lemma {:induction false} OutGives(o: PollOut, out: seq<Datagram>, room: nat)
    requires Gives(o, room)
    ensures Gives(o.(out := out), room)
  {
  }

  /** A poll of the stream without a leftover. */
  lemma {:induction false} FullGives(k: Kcb, closed: bool, size: nat, room: nat, arrival: Arrival, now: u32)
    ensures Gives(Polled(k, [], closed, size, room, arrival, now), room)
  {
    var first := Receive(k, closed, size, room);
    ReceiveGives(k, closed, size, room);
    ServedGives(first.k, closed, size, room, arrival, now);
  }

  /** A poll of the read half without a leftover. */
  lemma {:induction false} HalfGives(k: Kcb, closed: bool, size: nat, room: nat, arrival: Arrival, now: u32,
                                     lock1: bool, lock2: bool)
    ensures Gives(HalfPolled(k, [], closed, size, room, arrival, now, lock1, lock2), room)
  {
    var first := FirstLook(k, closed, size, room, now, lock1);
    var second := SecondLook(first.k, closed, size, room, arrival, now, lock2);
    LooksGive(k, closed, size, room, arrival, now, lock1);
    LooksGive(first.k, closed, size, room, arrival, now, lock2);
    OutGives(second, first.out + second.out, room);
  }

  /** The bytes a poll has are the leftover, or else those of the message it takes. */
  lemma {:induction false} GivesShares(o: PollOut, room: nat)
    requires Gives(o, room)
    ensures Shares([] + Concat(o.got), room, o)
  {
    assert [] + Concat(o.got) == Concat(o.got);
  }

  /** Every poll hands out as many bytes as fit, the first ones, of the leftover or else of the one message
      it takes, and keeps the rest.  A poll of a leftover does nothing else. */
  lemma {:induction false} PollGives(s: Streams, size: nat, l: Look)
    ensures var o := LookAt(s, size, l);
            && Shares(s.left + Concat(o.got), l.room, o) && |o.got| <= 1 && (o.got != [] ==> o.poll.Ready?)
            && (s.left != [] ==> o.poll.Ready? && o.k == s.hosts.b.k && o.got == [] && o.out == [])
  {
    var k, arrival := s.hosts.b.k, Resolve(s.hosts.a.net, l.src);
    if s.left == [] {
      if l.half {
        HalfGives(k, s.closed, size, l.room, arrival, l.now, l.lock1, l.lock2);
      } else {
        FullGives(k, s.closed, size, l.room, arrival, l.now);
      }
      GivesShares(LookAt(s, size, l), l.room);
    } else {
      LeftoverFirst(k, s.left, s.closed, size, l.room, arrival, l.now, l.lock1, l.lock2);
      assert s.left + Concat([]) == s.left;
    }
  }

  lemma {:induction false} PollKeeps(s: Streams, size: nat, l: Look)
    ensures var o := LookAt(s, size, l); s.left + Concat(o.got) == Handed(o.poll) + o.left
  {
    PollGives(s, size, l);
    SharesAll(s.left + Concat(LookAt(s, size, l).got), l.room, LookAt(s, size, l));
  }

  lemma {:induction false} SharesAll(have: seq<byte>, room: nat, o: PollOut)
    requires Shares(have, room, o)
    ensures have == Handed(o.poll) + o.left
  {
  }

  // ---- Emptying the leftover --------------------------------------------------------------

  /** The room of all polls among some events. */
  function Rooms(evs: seq<StreamEvent>): nat {
    if evs == [] then 0
    else Rooms(evs[..|evs| - 1]) + if evs[|evs| - 1].PollB? then evs[|evs| - 1].look.room else 0
  }

  /** s after `n` bytes of its leftover are handed out. */
  function HandedOut(s: Streams, n: nat): Streams
    requires n <= |s.left|
  {
    s.(left := s.left[n..], handed := s.handed + s.left[..n])
  }

  lemma {:induction false} PollHandsOut(s: Streams, size: nat, l: Look, m: nat)
    requires m < |s.left|
    ensures StreamStep(HandedOut(s, m), size, PollB(l)) == HandedOut(s, Min(|s.left|, m + l.room))
  {
    var s1 := HandedOut(s, m);
    PollGives(s1, size, l);
    assert s1.left + Concat([]) == s1.left;
    assert s.hosts.b.net + Map(Encode, []) == s.hosts.b.net && s.hosts.b.got + [] == s.hosts.b.got;
    HandedTwice(s, m, Min(|s1.left|, l.room));
  }

  /** Polls hand out the leftover in order and touch nothing else, until it is used up. */
  lemma {:induction false} PollsHandOut(s: Streams, size: nat, evs: seq<StreamEvent>)
    requires forall i :: 0 <= i < |evs| ==> evs[i].PollB?
    requires evs != [] ==> Rooms(evs[..|evs| - 1]) < |s.left|
    ensures StreamRun(s, size, evs) == HandedOut(s, Min(|s.left|, Rooms(evs)))
  {
    if evs == [] {
      assert s.handed + s.left[..0] == s.handed;
    } else {
      var n := |evs| - 1;
      RoomsGrow(evs[..n]);
      PollsHandOut(s, size, evs[..n]);
      PollHandsOut(s, size, evs[n].look, Rooms(evs[..n]));
    }
  }

  lemma {:induction false} RoomsGrow(evs: seq<StreamEvent>)
    ensures evs != [] ==> Rooms(evs[..|evs| - 1]) <= Rooms(evs)
  {
  }

  lemma {:induction false} HandedTwice(s: Streams, m: nat, n: nat)
    requires m + n <= |s.left|
    ensures HandedOut(HandedOut(s, m), n) == HandedOut(s, m + n)
  {
    assert s.left[m..][n..] == s.left[m + n..];
    assert s.left[..m] + s.left[m..][..n] == s.left[..m + n];
    Assoc(s.handed, s.left[..m], s.left[m..][..n]);
  }

  /** Repeated polls with room empty the leftover: after at most as many polls as it has bytes, all of
      it has been handed out. */
  lemma {:induction false} LeftoverEmptied(s: Streams, size: nat, evs: seq<StreamEvent>) returns (n: nat)
    requires |evs| >= |s.left| && forall i :: 0 <= i < |evs| ==> evs[i].PollB? && evs[i].look.room > 0
    ensures n <= |s.left| && StreamRun(s, size, evs[..n]) == s.(left := [], handed := s.handed + s.left)
  {
    n := FirstEnough(evs, |s.left|);
    if n > 0 { assert evs[..n][..n - 1] == evs[..n - 1]; }
    PollsHandOut(s, size, evs[..n]);
    assert s.left[|s.left|..] == [] && s.left[..|s.left|] == s.left;
  }

  /** The first number of polls that have room for `need` bytes together. */
  lemma {:induction false} FirstEnough(evs: seq<StreamEvent>, need: nat) returns (n: nat)
    requires |evs| >= need && forall i :: 0 <= i < |evs| ==> evs[i].PollB? && evs[i].look.room > 0
    ensures n <= need && Rooms(evs[..n]) >= need && (n > 0 ==> Rooms(evs[..n - 1]) < need)
  {
    n := 0;
    while Rooms(evs[..n]) < need
      invariant n <= need && Rooms(evs[..n]) >= n && (n > 0 ==> Rooms(evs[..n - 1]) < need)
      decreases need - n
    {
      assert evs[..n + 1][..n] == evs[..n];
      n := n + 1;
    }
  }

  lemma {:induction false} ConcatAppend(a: seq<seq<byte>>, b: seq<seq<byte>>)
    ensures Concat(a + b) == Concat(a) + Concat(b)
  {
    if b == [] {
      assert a + b == a;
    } else {
      var n := |b| - 1;
      assert (a + b)[..|a + b| - 1] == a + b[..n];
      ConcatAppend(a, b[..n]);
      Assoc(Concat(a), Concat(b[..n]), b[n]);
    }
  }

  /** Handed out and left over, B's bytes are those taken out of its engine. */
  ghost predicate Balanced(s: Streams) { Concat(s.hosts.b.got) == s.handed + s.left }

  lemma {:induction false} StepBalanced(s: Streams, size: nat, ev: StreamEvent)
    requires Balanced(s)
    ensures Balanced(StreamStep(s, size, ev))
  {
    if ev.PollB? {
      var o := LookAt(s, size, ev.look);
      PollKeeps(s, size, ev.look);
      ConcatAppend(s.hosts.b.got, o.got);
      Assoc(s.handed, s.left, Concat(o.got));
      Assoc(s.handed, Handed(o.poll), o.left);
    }
  }

  lemma {:induction false} RunBalanced(s: Streams, size: nat, evs: seq<StreamEvent>)
    requires Balanced(s)
    ensures Balanced(StreamRun(s, size, evs))
  {
    if evs != [] {
      RunBalanced(s, size, evs[..|evs| - 1]);
      StepBalanced(StreamRun(s, size, evs[..|evs| - 1]), size, evs[|evs| - 1]);
    }
  }

  /** The byte stream: in every run, what B's polls have handed out, then the leftover, then what
      the two engines still hold, is exactly what A's sends have accepted. */
  lemma {:induction false} StreamConserved(cfgA: Config, cfgB: Config, size: nat, evs: seq<StreamEvent>)
    requires Timely(cfgA, cfgB, AllUnderneath(Opened(cfgA, cfgB), size, evs))
    ensures var s := StreamRun(Opened(cfgA, cfgB), size, evs);
            Concat(s.hosts.a.sent) ==
            s.handed + s.left + Conservation.InEngines(Wrap32, s.hosts.a.k, s.hosts.b.k)
  {
    StreamIsHostRun(Opened(cfgA, cfgB), size, evs);
    RunBalanced(Opened(cfgA, cfgB), size, evs);
    Conservation.HostsConserve(cfgA, cfgB, AllUnderneath(Opened(cfgA, cfgB), size, evs));
  }
}
