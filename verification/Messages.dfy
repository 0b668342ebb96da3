/** In-order, exactly-once delivery over every run: the bytes read by one side are a prefix of
    the bytes accepted by the other, and in message mode the messages read are a prefix of the
    messages accepted.  Also why a full receive queue can always be read. */
module Messages {
  import opened Words
  import opened Engine
  import opened Seqs
  import opened Scans
  import opened Network
  import opened Transport
  import opened Steps

  function Join(fs: seq<Frag>): seq<byte> {
    if fs == [] then [] else fs[0].data + Join(fs[1..])
  }

  function Concat(ms: seq<seq<byte>>): seq<byte> {
    if ms == [] then [] else Concat(ms[..|ms| - 1]) + ms[|ms| - 1]
  }

  /** The fragments of one message, numbered down to 0. */
  function MsgFrags(mss: int, m: seq<byte>): seq<Frag>
    requires mss > 0
  {
    if FragCount(mss, |m|) < WND_RCV then Fragments(mss, m, FragCount(mss, |m|), false) else []
  }

  function Fragmenter(mss: int): seq<byte> -> seq<Frag>
    requires mss > 0
  {
    m => MsgFrags(mss, m)
  }

  function AllFrags(mss: int, ms: seq<seq<byte>>): seq<Frag>
    requires mss > 0
  {
    FlatMap(Fragmenter(mss), ms)
  }

  // ---- Fragmentation --------------------------------------------------------------------

  lemma {:induction false} JoinAppend(a: seq<Frag>, b: seq<Frag>)
    ensures Join(a + b) == Join(a) + Join(b)
  {
    if a == [] {
      assert a + b == b;
    } else {
      JoinAppend(a[1..], b);
      assert (a + b)[1..] == a[1..] + b;
      Assoc(a[0].data, Join(a[1..]), Join(b));
    }
  }

  lemma {:induction false} FragmentsShape(mss: int, data: seq<byte>, count: nat, stream: bool)
    requires mss > 0 && count <= 0x100
    ensures var fs := Fragments(mss, data, count, stream);
            |fs| == count
            && forall i :: 0 <= i < count ==> |fs[i].data| <= mss && fs[i].frg == if stream then 0 else count - 1 - i
    decreases count
  {
    if count > 0 {
      FragmentsShape(mss, data[Min(|data|, mss)..], count - 1, stream);
    }
  }

  lemma {:induction false} DropFits(len: nat, mss: int, count: nat)
    requires count > 0 && mss > 0 && len <= count * mss
    ensures len - Min(len, mss) <= (count - 1) * mss
  {
    assert count * mss == (count - 1) * mss + mss;
    if len <= mss { assert (count - 1) * mss >= 0; }
  }

  /** Fragmenting loses no byte when the fragments have room for all of them. */
  lemma {:induction false} FragmentsJoin(mss: int, data: seq<byte>, count: nat, stream: bool)
    requires mss > 0 && count <= 0x100 && |data| <= count * mss
    ensures Join(Fragments(mss, data, count, stream)) == data
    decreases count
  {
    if count > 0 {
      var size := Min(|data|, mss);
      DropFits(|data|, mss, count);
      FragmentsJoin(mss, data[size..], count - 1, stream);
      var first := Frag(if stream then 0 else count - 1, data[..size]);
      assert Fragments(mss, data, count, stream)[1..] == Fragments(mss, data[size..], count - 1, stream);
      assert data == data[..size] + data[size..];
    }
  }

  lemma {:induction false} FragCountCovers(mss: int, len: nat)
    requires mss > 0
    ensures len <= FragCount(mss, len) * mss && FragCount(mss, len) >= 1
  {
    if len > mss {
      FragCountCovers(mss, len - mss);
      assert FragCount(mss, len) * mss == mss + FragCount(mss, len - mss) * mss;
    }
  }

  // ---- The invariants -------------------------------------------------------------------

  /** The segments numbered so far and snd_queue together carry the bytes accepted. */
  ghost predicate BytesAccepted(x: Endpoint) { Join(x.hist + x.k.sndQueue) == Concat(x.sent) }

  ghost predicate SmallFrgs(x: Endpoint) {
    forall f :: f in x.hist + x.k.sndQueue ==>
      f.frg + 1 < WND_RCV && |f.data| <= x.k.cfg.Mss() && (x.k.cfg.stream ==> f.frg == 0)
  }

  /** In message mode they are the fragments of the accepted messages. */
  ghost predicate MessagesAccepted(x: Endpoint) {
    !x.k.cfg.stream ==>
      && x.hist + x.k.sndQueue == AllFrags(x.k.cfg.Mss(), x.sent)
      && forall m :: m in x.sent ==> FragCount(x.k.cfg.Mss(), |m|) < WND_RCV
  }

  ghost predicate Accepted(x: Endpoint) { BytesAccepted(x) && SmallFrgs(x) && MessagesAccepted(x) }

  ghost predicate BytesReturned(y: Endpoint) { Join(y.taken) == Concat(y.got) }

  ghost predicate MessagesReturned(x: Endpoint, y: Endpoint) {
    !x.k.cfg.stream ==> y.got <= x.sent && y.taken == AllFrags(x.k.cfg.Mss(), y.got)
  }

  /** What y has read of x's data. */
  ghost predicate Returned(x: Endpoint, y: Endpoint) { BytesReturned(y) && MessagesReturned(x, y) }

  // ---- Accepting data -------------------------------------------------------------------

  lemma {:induction false} ConcatSnoc(ms: seq<seq<byte>>, m: seq<byte>)
    ensures Concat(ms + [m]) == Concat(ms) + m
  {
    assert (ms + [m])[..|ms|] == ms;
  }

  lemma {:induction false} JoinTail(a: seq<Frag>, q: seq<Frag>, ext: seq<byte>)
    requires q != []
    ensures var tail := q[|q| - 1];
            Join(a + (q[..|q| - 1] + [Frag(0, tail.data + ext)])) == Join(a + q) + ext
  {
    var tail := q[|q| - 1];
    var f := Frag(0, tail.data + ext);
    var front := a + q[..|q| - 1];
    assert a + (q[..|q| - 1] + [f]) == front + [f];
    assert a + q == front + [tail];
    JoinAppend(front, [f]);
    JoinAppend(front, [tail]);
    assert Join([f]) == f.data && Join([tail]) == tail.data;
  }

  /** snd_queue after the merge step of stream mode. */
  function Merged(k: Kcb, data: seq<byte>): seq<Frag> {
    var ext := Extend(k, |data|);
    if ext == 0 then k.sndQueue
    else k.sndQueue[..|k.sndQueue| - 1] + [Frag(0, k.sndQueue[|k.sndQueue| - 1].data + data[..ext])]
  }

  lemma {:induction false} SendShape(k: Kcb, data: seq<byte>)
    ensures var r := Engine.Send(k, data);
            var ext := Extend(k, |data|);
            var count := FragCount(k.cfg.Mss(), |data| - ext);
            && (r.ret < 0 ==> r.k == k)
            && (r.ret >= 0 ==>
                  (r.ret == ext && r.k.sndQueue == Merged(k, data))
                  || (r.ret == |data| && count < WND_RCV
                      && r.k.sndQueue == Merged(k, data) + Fragments(k.cfg.Mss(), data[ext..], count, k.cfg.stream)))
  {
  }

  lemma {:induction false} JoinPieces(a: seq<Frag>, q: seq<Frag>, fs: seq<Frag>, before: seq<byte>, data: seq<byte>,
                                      ext: nat)
    requires ext <= |data| && Join(a + q) == before + data[..ext] && Join(fs) == data[ext..]
    ensures Join(a + (q + fs)) == before + data
  {
    Assoc(a, q, fs);
    JoinAppend(a + q, fs);
    Assoc(before, data[..ext], data[ext..]);
    assert data[..ext] + data[ext..] == data;
  }

  lemma {:induction false} MergedJoin(k: Kcb, data: seq<byte>, a: seq<Frag>)
    ensures Join(a + Merged(k, data)) == Join(a + k.sndQueue) + data[..Extend(k, |data|)]
  {
    var ext := Extend(k, |data|);
    if ext > 0 { JoinTail(a, k.sndQueue, data[..ext]); }
  }

  function PiecesOf(mss: int, rest: seq<byte>, stream: bool): seq<Frag>
    requires mss > 0 && FragCount(mss, |rest|) < WND_RCV
  {
    Fragments(mss, rest, FragCount(mss, |rest|), stream)
  }

  lemma {:induction false} PiecesJoin(mss: int, rest: seq<byte>, stream: bool)
    requires mss > 0 && FragCount(mss, |rest|) < WND_RCV
    ensures Join(PiecesOf(mss, rest, stream)) == rest
  {
    FragCountCovers(mss, |rest|);
    FragmentsJoin(mss, rest, FragCount(mss, |rest|), stream);
  }

  lemma {:induction false} SendJoin(k: Kcb, data: seq<byte>, a: seq<Frag>)
    ensures var r := Engine.Send(k, data);
            if 0 <= r.ret then r.ret <= |data| && Join(a + r.k.sndQueue) == Join(a + k.sndQueue) + data[..r.ret]
            else r.k == k
  {
    var ext := Extend(k, |data|);
    var before := Join(a + k.sndQueue);
    SendShape(k, data);
    MergedJoin(k, data, a);
    if FragCount(k.cfg.Mss(), |data| - ext) < WND_RCV {
      PiecesJoin(k.cfg.Mss(), data[ext..], k.cfg.stream);
      JoinPieces(a, Merged(k, data), PiecesOf(k.cfg.Mss(), data[ext..], k.cfg.stream), before, data, ext);
      assert data[..|data|] == data;
    }
  }

  lemma {:induction false} WriteBytes(x: Endpoint, data: seq<byte>)
    requires BytesAccepted(x)
    ensures BytesAccepted(ActOn(Ideal, x, [], Write(data)))
  {
    var r := Engine.Send(x.k, data);
    SendJoin(x.k, data, x.hist);
    if r.ret >= 0 { ConcatSnoc(x.sent, data[..r.ret]); }
  }

  lemma {:induction false} WriteFrgs(x: Endpoint, data: seq<byte>)
    requires SmallFrgs(x)
    ensures SmallFrgs(ActOn(Ideal, x, [], Write(data)))
  {
    SendFrags(x.k, data);
  }

  lemma {:induction false} WriteMessages(x: Endpoint, y: Endpoint, data: seq<byte>)
    requires MessagesAccepted(x) && MessagesReturned(x, y)
    ensures var x' := ActOn(Ideal, x, [], Write(data)); MessagesAccepted(x') && MessagesReturned(x', y)
  {
    var r := Engine.Send(x.k, data);
    if !x.k.cfg.stream && r.ret >= 0 {
      SendFrags(x.k, data);
      SendShape(x.k, data);
      assert data[..r.ret] == data;
      FlatMapSnoc(Fragmenter(x.k.cfg.Mss()), x.sent, data);
      Assoc(x.hist, x.k.sndQueue, MsgFrags(x.k.cfg.Mss(), data));
    }
  }

  lemma {:induction false} SendFrags(k: Kcb, data: seq<byte>)
    ensures var r := Engine.Send(k, data);
            forall f :: f in r.k.sndQueue ==>
              f in k.sndQueue || (f.frg + 1 < WND_RCV && |f.data| <= k.cfg.Mss() && (k.cfg.stream ==> f.frg == 0))
    ensures var r := Engine.Send(k, data);
            !k.cfg.stream && r.ret >= 0 ==>
              r.ret == |data| && r.k.sndQueue == k.sndQueue + MsgFrags(k.cfg.Mss(), data)
              && FragCount(k.cfg.Mss(), |data|) < WND_RCV
  {
    var rest := data[Extend(k, |data|)..];
    var count := FragCount(k.cfg.Mss(), |rest|);
    if count < WND_RCV {
      FragmentsShape(k.cfg.Mss(), rest, count, k.cfg.stream);
    }
    if !k.cfg.stream { assert rest == data; }
  }

  // ---- Numbering keeps the stream -------------------------------------------------------

  lemma {:induction false} FlushQueue(x: Endpoint, k: Kcb)
    requires k == x.k.(clock := k.clock)
    ensures var x' := Emit(x, Engine.Flush(Ideal, k));
            x'.hist + x'.k.sndQueue == x.hist + x.k.sndQueue
            && x'.sent == x.sent && x'.taken == x.taken && x'.got == x.got && x'.k.cfg == x.k.cfg
  {
    var x' := Emit(x, Engine.Flush(Ideal, k));
    if k.clock.updated {
      var n := FillRun(Cleared(k), EffWnd(k));
      FlushParts(k);
      FlushFrame(k);
      assert x'.k.sndQueue == k.sndQueue[n..];
      assert x'.hist == x.hist + k.sndQueue[..n];
      assert k.sndQueue[..n] + k.sndQueue[n..] == k.sndQueue;
    }
  }

  lemma {:induction false} DriveQueue(x: Endpoint, now: u32)
    ensures var x' := ActOn(Ideal, x, [], Drive(now));
            x'.hist + x'.k.sndQueue == x.hist + x.k.sndQueue
            && x'.sent == x.sent && x'.taken == x.taken && x'.got == x.got && x'.k.cfg == x.k.cfg
  {
    var tick := Tick(x.k.clock, x.k.cfg.interval, now);
    var k := x.k.(clock := tick.0);
    if tick.1 {
      FlushQueue(x, k);
    } else {
      assert x.hist + x.k.sndQueue[..0] == x.hist;
    }
  }

  // ---- Reading --------------------------------------------------------------------------

  lemma {:induction false} BytesJoin(q: seq<Pkt>)
    ensures Bytes(q) == Join(ToFrags(q))
  {
    if q != [] {
      BytesJoin(q[1..]);
    }
  }

  /** What recv hands out is the payload of the segments it consumes. */
  lemma {:induction false} ReadJoin(y: Endpoint, len: int)
    requires BytesReturned(y)
    ensures BytesReturned(ActOn(Ideal, y, [], Read(len)))
  {
    var n := MsgCount(y.k.rcvQueue);
    RecvShape(y.k, len);
    JoinAppend(y.taken, ToFrags(y.k.rcvQueue[..n]));
    BytesJoin(y.k.rcvQueue[..n]);
    ConcatSnoc(y.got, MsgBytes(y.k.rcvQueue));
  }

  lemma {:induction false} MsgCountIs(q: seq<Pkt>, c: nat)
    requires 1 <= c <= |q|
    requires forall i :: 0 <= i < c ==> q[i].frg == c - 1 - i
    ensures MsgCount(q) == c
  {
    if c > 1 {
      MsgCountIs(q[1..], c - 1);
    }
  }

  /** The packets of q are consecutive fragments of `all`, from position `at` on. */
  ghost predicate LinesUp(q: seq<Pkt>, all: seq<Frag>, at: nat) {
    forall i :: 0 <= i < |q| ==> at + i < |all| && q[i].ToFrag() == all[at + i]
  }

  lemma {:induction false} QueueInAll(x: Endpoint, y: Endpoint)
    requires ReceiverOk(y.k, y.taken, x.hist)
    ensures LinesUp(y.k.rcvQueue, x.hist + x.k.sndQueue, |y.taken|)
    ensures |y.taken| + |y.k.rcvQueue| <= |x.hist|
  {
    forall i | 0 <= i < |y.k.rcvQueue| ensures y.k.rcvQueue[i].ToFrag() == x.hist[|y.taken| + i] {
      assert InHist(x.hist, y.k.rcvQueue[i]);
    }
  }

  lemma {:induction false} HeadFrags(q: seq<Pkt>, all: seq<Frag>, at: nat, fs: seq<Frag>)
    requires q != [] && fs != [] && at + |fs| <= |all|
    requires all[at..at + |fs|] == fs
    requires LinesUp(q, all, at)
    requires forall i :: 0 <= i < |fs| ==> fs[i].frg == |fs| - 1 - i
    ensures q[0].frg == |fs| - 1
    ensures |fs| <= |q| ==> MsgCount(q) == |fs| && ToFrags(q[..|fs|]) == fs
  {
    forall i | 0 <= i < |q| && i < |fs| ensures q[i].ToFrag() == fs[i] {
      assert fs[i] == all[at..at + |fs|][i];
    }
    if |fs| <= |q| {
      MsgCountIs(q, |fs|);
    }
  }

  /** A nonempty receive queue starts with the fragments of the next message to be read. */
  lemma {:induction false} HeadMessage(mss: int, m: seq<byte>, all: seq<Frag>, at: nat, q: seq<Pkt>)
    requires mss > 0 && q != [] && FragCount(mss, |m|) < WND_RCV
    requires at + |MsgFrags(mss, m)| <= |all| && all[at..at + |MsgFrags(mss, m)|] == MsgFrags(mss, m)
    requires LinesUp(q, all, at)
    ensures var fs := MsgFrags(mss, m);
            fs != [] && q[0].frg == |fs| - 1
            && (|fs| <= |q| ==> MsgCount(q) == |fs| && ToFrags(q[..|fs|]) == fs)
  {
    FragCountCovers(mss, |m|);
    FragmentsShape(mss, m, FragCount(mss, |m|), false);
    HeadFrags(q, all, at, MsgFrags(mss, m));
  }

  lemma {:induction false} NextOf(mss: int, got: seq<seq<byte>>, m: seq<byte>, all: seq<Frag>, taken: seq<Frag>,
                                  q: seq<Pkt>)
    requires mss > 0 && FragCount(mss, |m|) < WND_RCV && taken == AllFrags(mss, got)
    requires |taken| + |MsgFrags(mss, m)| <= |all|
    requires all[|taken|..|taken| + |MsgFrags(mss, m)|] == MsgFrags(mss, m)
    requires q != [] && q[0].frg + 1 <= |q|
    requires LinesUp(q, all, |taken|)
    ensures MsgBytes(q) == m && AllFrags(mss, got + [m]) == taken + ToFrags(q[..MsgCount(q)])
  {
    HeadMessage(mss, m, all, |taken|, q);
    MessageBytes(mss, m, q);
    FlatMapSnoc(Fragmenter(mss), got, m);
  }

  lemma {:induction false} MoreSent(x: Endpoint, y: Endpoint)
    requires ReceiverOk(y.k, y.taken, x.hist) && MessagesAccepted(x) && MessagesReturned(x, y) && !x.k.cfg.stream
    requires y.k.rcvQueue != []
    ensures |y.got| < |x.sent| && x.sent[..|y.got|] == y.got
  {
    QueueInAll(x, y);
    assert |y.got| == |x.sent| ==> y.got == x.sent;
  }

  /** A receive queue with a complete head message: consuming it yields the next accepted one. */
  lemma {:induction false} NextMessage(x: Endpoint, y: Endpoint)
    requires ReceiverOk(y.k, y.taken, x.hist) && MessagesAccepted(x) && MessagesReturned(x, y) && !x.k.cfg.stream
    requires y.k.rcvQueue != [] && y.k.rcvQueue[0].frg + 1 <= |y.k.rcvQueue|
    ensures |y.got| < |x.sent| && MsgBytes(y.k.rcvQueue) == x.sent[|y.got|]
    ensures AllFrags(x.k.cfg.Mss(), y.got + [x.sent[|y.got|]]) ==
            y.taken + ToFrags(y.k.rcvQueue[..MsgCount(y.k.rcvQueue)])
  {
    QueueInAll(x, y);
    MoreSent(x, y);
    var m := x.sent[|y.got|];
    assert m in x.sent;
    FlatMapAt(Fragmenter(x.k.cfg.Mss()), x.sent, y.got);
    NextOf(x.k.cfg.Mss(), y.got, m, x.hist + x.k.sndQueue, y.taken, y.k.rcvQueue);
  }

  lemma {:induction false} MessageBytes(mss: int, m: seq<byte>, q: seq<Pkt>)
    requires mss > 0 && FragCount(mss, |m|) < WND_RCV
    requires var fs := MsgFrags(mss, m); MsgCount(q) == |fs| && ToFrags(q[..|fs|]) == fs
    ensures MsgBytes(q) == m
  {
    BytesJoin(q[..MsgCount(q)]);
    FragCountCovers(mss, |m|);
    FragmentsJoin(mss, m, FragCount(mss, |m|), false);
  }

  lemma {:induction false} ReadMessages(x: Endpoint, y: Endpoint, len: int)
    requires ReceiverOk(y.k, y.taken, x.hist) && MessagesAccepted(x) && MessagesReturned(x, y)
    ensures MessagesReturned(x, ActOn(Ideal, y, [], Read(len)))
  {
    RecvShape(y.k, len);
    if !x.k.cfg.stream && len >= 0 && Recv(Ideal, y.k, len).ret >= 0 {
      NextMessage(x, y);
      PrefixNext(y.got, x.sent);
    }
  }

  lemma {:induction false} PrefixNext(a: seq<seq<byte>>, b: seq<seq<byte>>)
    requires a <= b && |a| < |b|
    ensures a + [b[|a|]] <= b
  {
  }

  // ---- Every run ------------------------------------------------------------------------

  ghost predicate Ordered(s: Sys) {
    && Inv(s) && Accepted(s.a) && Accepted(s.b) && Returned(s.a, s.b) && Returned(s.b, s.a)
    && s.a.k.probe.wait <= PROBE_LIMIT && s.b.k.probe.wait <= PROBE_LIMIT
  }

  lemma {:induction false} ActProbe(x: Endpoint, peer: seq<Datagram>, act: Act)
    requires x.k.probe.wait <= PROBE_LIMIT
    ensures ActOn(Ideal, x, peer, act).k.probe.wait <= PROBE_LIMIT
  {
    match act {
      case Write(data) =>
      case Read(len) => RecvProbe(x.k, len);
      case Drive(now) => FlushProbe(x.k.(clock := Tick(x.k.clock, x.k.cfg.interval, now).0));
      case FlushNow => FlushProbe(x.k);
      case Deliver(i) => if i < |peer| { InputAllCfg(Ideal, x.k, peer[i]); }
    }
  }

  lemma {:induction false} RecvProbe(k: Kcb, len: int)
    ensures Recv(Ideal, k, len).k.probe.wait == k.probe.wait
  {
    MoveReadyFrame(Ideal, k);
    MoveReadyFrame(Ideal, k.(rcvQueue := k.rcvQueue[MsgCount(k.rcvQueue)..]));
  }

  lemma {:induction false} FlushProbe(k: Kcb)
    requires k.probe.wait <= PROBE_LIMIT
    ensures Engine.Flush(Ideal, k).k.probe.wait <= PROBE_LIMIT
  {
    FillFrame(Ideal, Cleared(k), EffWnd(k));
  }

  /** What does not touch the application's side of an endpoint. */
  lemma {:induction false} Untouched(x: Endpoint, x': Endpoint, y: Endpoint)
    requires Accepted(x) && Accepted(y) && Returned(x, y) && Returned(y, x)
    requires x'.hist + x'.k.sndQueue == x.hist + x.k.sndQueue && x'.k.cfg == x.k.cfg
    requires x'.sent == x.sent && x'.taken == x.taken && x'.got == x.got
    ensures Accepted(x') && Returned(x', y) && Returned(y, x')
  {
  }

  lemma {:induction false} ReadFrame(x: Endpoint, len: int)
    ensures var x' := ActOn(Ideal, x, [], Read(len));
            x'.k.sndQueue == x.k.sndQueue && x'.hist == x.hist && x'.sent == x.sent && x'.k.cfg == x.k.cfg
  {
    RecvShape(x.k, len);
    MoveReadyFrame(Ideal, x.k.(rcvQueue := x.k.rcvQueue[if len < 0 then 0 else MsgCount(x.k.rcvQueue)..]));
  }

  lemma {:induction false} WriteOrdered(x: Endpoint, y: Endpoint, data: seq<byte>)
    requires Accepted(x) && Returned(x, y) && Returned(y, x)
    ensures var x' := ActOn(Ideal, x, [], Write(data));
            Accepted(x') && Returned(x', y) && Returned(y, x')
  {
    WriteBytes(x, data);
    WriteFrgs(x, data);
    WriteMessages(x, y, data);
  }

  lemma {:induction false} ReadOrdered(x: Endpoint, y: Endpoint, len: int)
    requires ReceiverOk(x.k, x.taken, y.hist) && Accepted(x) && Accepted(y) && Returned(x, y) && Returned(y, x)
    ensures var x' := ActOn(Ideal, x, [], Read(len));
            Accepted(x') && Returned(x', y) && Returned(y, x')
  {
    ReadJoin(x, len);
    ReadMessages(y, x, len);
    ReadFrame(x, len);
  }

  lemma {:induction false} QuietAct(x: Endpoint, peer: seq<Datagram>, act: Act)
    requires !act.Write? && !act.Read?
    ensures var x' := ActOn(Ideal, x, peer, act);
            x'.hist + x'.k.sndQueue == x.hist + x.k.sndQueue && x'.k.cfg == x.k.cfg
            && x'.sent == x.sent && x'.taken == x.taken && x'.got == x.got
  {
    match act {
      case Drive(now) => DriveQueue(x, now);
      case FlushNow => FlushQueue(x, x.k);
      case Deliver(i) => if i < |peer| { InputAllCfg(Ideal, x.k, peer[i]); }
    }
  }

  lemma {:induction false} ActOrdered(x: Endpoint, y: Endpoint, act: Act)
    requires ReceiverOk(x.k, x.taken, y.hist) && Accepted(x) && Accepted(y) && Returned(x, y) && Returned(y, x)
    ensures var x' := ActOn(Ideal, x, y.net, act);
            Accepted(x') && Returned(x', y) && Returned(y, x')
  {
    if act.Write? {
      WriteOrdered(x, y, act.data);
    } else if act.Read? {
      ReadOrdered(x, y, act.len);
    } else {
      QuietAct(x, y.net, act);
      Untouched(x, ActOn(Ideal, x, y.net, act), y);
    }
  }

  lemma {:induction false} StepOrdered(s: Sys, e: Event)
    requires Ordered(s)
    ensures var s' := Step(Ideal, s, e); Ordered(s') && s'.a.k.cfg == s.a.k.cfg && s'.b.k.cfg == s.b.k.cfg
  {
    if e.atA {
      ActOk(s.a, s.b, e.act);
      ActOrdered(s.a, s.b, e.act);
      ActProbe(s.a, s.b.net, e.act);
    } else {
      ActOk(s.b, s.a, e.act);
      ActOrdered(s.b, s.a, e.act);
      ActProbe(s.b, s.a.net, e.act);
    }
  }

  lemma {:induction false} InitOrdered(cfgA: Config, cfgB: Config)
    requires cfgA.conv == cfgB.conv
    ensures Ordered(Init(cfgA, cfgB))
  {
    var a, b := NewEndpoint(cfgA), NewEndpoint(cfgB);
    InitHalf(a, b);
    InitHalf(b, a);
  }

  /** Endpoints with no history. */
  lemma {:induction false} InitHalf(x: Endpoint, y: Endpoint)
    requires x.k.sndQueue == [] && x.k.sndBuf == [] && x.k.acks == [] && x.k.sndUna == x.k.sndNxt == 0
    requires x.net == [] && x.hist == [] && x.sent == [] && y.taken == [] && y.got == []
    requires y.k.rcvQueue == [] && y.k.rcvBuf == [] && y.k.rcvNxt == 0
    ensures Half(x, y) && Accepted(x) && Returned(x, y)
  {
  }

  lemma {:induction false} RunOrdered(s: Sys, es: seq<Event>)
    requires Ordered(s)
    ensures var s' := Run(Ideal, s, es); Ordered(s') && s'.a.k.cfg == s.a.k.cfg && s'.b.k.cfg == s.b.k.cfg
  {
    if es != [] {
      RunOrdered(s, es[..|es| - 1]);
      StepOrdered(Run(Ideal, s, es[..|es| - 1]), es[|es| - 1]);
    }
  }

  lemma {:induction false} OrderedRuns(cfgA: Config, cfgB: Config, es: seq<Event>)
    requires cfgA.conv == cfgB.conv
    ensures var s := Run(Ideal, Init(cfgA, cfgB), es); Ordered(s) && s.a.k.cfg == cfgA && s.b.k.cfg == cfgB
  {
    InitOrdered(cfgA, cfgB);
    RunOrdered(Init(cfgA, cfgB), es);
  }

  /** Message mode: what B has read is a prefix, message by message, of what A's send accepted. */
  lemma {:induction false} MessagesInOrder(cfgA: Config, cfgB: Config, es: seq<Event>)
    requires cfgA.conv == cfgB.conv && !cfgA.stream
    ensures var s := Run(Ideal, Init(cfgA, cfgB), es); s.b.got <= s.a.sent
  {
    OrderedRuns(cfgA, cfgB, es);
  }

  /** Either mode: every accepted byte is, exactly once and in order, read by B, in B's receive
      queue, or still to be made readable at B. */
  lemma {:induction false} BytesConserved(cfgA: Config, cfgB: Config, es: seq<Event>)
    requires cfgA.conv == cfgB.conv
    ensures var s := Run(Ideal, Init(cfgA, cfgB), es);
            0 <= s.b.k.rcvNxt <= |s.a.hist|
            && Concat(s.a.sent) ==
               Concat(s.b.got) + Bytes(s.b.k.rcvQueue) + Join(s.a.hist[s.b.k.rcvNxt..] + s.a.k.sndQueue)
  {
    OrderedRuns(cfgA, cfgB, es);
    var s := Run(Ideal, Init(cfgA, cfgB), es);
    Conserved(s.a, s.b);
  }

  lemma {:induction false} Conserved(x: Endpoint, y: Endpoint)
    requires ReceiverOk(y.k, y.taken, x.hist) && BytesAccepted(x) && BytesReturned(y)
    ensures Concat(x.sent) ==
            Concat(y.got) + Bytes(y.k.rcvQueue) + Join(x.hist[y.k.rcvNxt..] + x.k.sndQueue)
  {
    QueueInAll(x, y);
    BytesJoin(y.k.rcvQueue);
    ConservedValues(x.hist, x.k.sndQueue, y.taken, ToFrags(y.k.rcvQueue), y.k.rcvNxt, x.sent, y.got,
                    Bytes(y.k.rcvQueue));
  }

  lemma {:induction false} ConservedValues(hist: seq<Frag>, queue: seq<Frag>, taken: seq<Frag>, q: seq<Frag>, nxt: int,
                                           sent: seq<seq<byte>>, got: seq<seq<byte>>, readable: seq<byte>)
    requires |taken| + |q| == nxt <= |hist| && taken == hist[..|taken|]
    requires forall i :: 0 <= i < |q| ==> q[i] == (hist + queue)[|taken| + i]
    requires Join(hist + queue) == Concat(sent) && Join(taken) == Concat(got) && Join(q) == readable
    ensures Concat(sent) == Concat(got) + readable + Join(hist[nxt..] + queue)
  {
    Split(hist, queue, taken, q);
  }

  lemma {:induction false} Split(hist: seq<Frag>, queue: seq<Frag>, taken: seq<Frag>, q: seq<Frag>)
    requires |taken| + |q| <= |hist| && taken == hist[..|taken|]
    requires forall i :: 0 <= i < |q| ==> q[i] == (hist + queue)[|taken| + i]
    ensures Join(hist + queue) == Join(taken) + Join(q) + Join(hist[|taken| + |q|..] + queue)
  {
    var rest := hist[|taken| + |q|..] + queue;
    assert hist + queue == (taken + q) + rest;
    JoinAppend(taken + q, rest);
    JoinAppend(taken, q);
  }

  /** A full receive queue starts with a complete message, so advertising a zero window implies
      that recv with a large enough buffer succeeds. */
  lemma {:induction false} FullQueueReadable(cfgA: Config, cfgB: Config, es: seq<Event>, len: nat)
    requires cfgA.conv == cfgB.conv
    ensures var k := Run(Ideal, Init(cfgA, cfgB), es).b.k;
            WndUnused(k) == 0 ==>
              0 <= PeekSize(k) && (PeekSize(k) <= len ==> Recv(Ideal, k, len).ret == PeekSize(k))
  {
    OrderedRuns(cfgA, cfgB, es);
    var s := Run(Ideal, Init(cfgA, cfgB), es);
    FullRead(s.a, s.b, len);
  }

  lemma {:induction false} FullRead(x: Endpoint, y: Endpoint, len: nat)
    requires ReceiverOk(y.k, y.taken, x.hist) && SmallFrgs(x)
    ensures WndUnused(y.k) == 0 ==>
              0 <= PeekSize(y.k) && (PeekSize(y.k) <= len ==> Recv(Ideal, y.k, len).ret == PeekSize(y.k))
  {
    if WndUnused(y.k) == 0 {
      FullHead(x, y);
      if PeekSize(y.k) <= len { PeekIsRecv(y.k, len); }
    }
  }

  lemma {:induction false} FullHead(x: Endpoint, y: Endpoint)
    requires ReceiverOk(y.k, y.taken, x.hist) && SmallFrgs(x) && |y.k.rcvQueue| >= WND_RCV - 1
    ensures PeekSize(y.k) >= 0
  {
    assert InHist(x.hist, y.k.rcvQueue[0]);
    var f := x.hist[y.k.rcvQueue[0].sn];
    assert f in x.hist + x.k.sndQueue;
  }

  lemma {:induction false} PeekIsRecv(k: Kcb, len: nat)
    requires 0 <= PeekSize(k) <= len
    ensures Recv(Ideal, k, len).ret == PeekSize(k)
  {
    if k.rcvQueue[0].frg == 0 {
      assert k.rcvQueue[..1] == [k.rcvQueue[0]];
      assert Bytes([k.rcvQueue[0]]) == k.rcvQueue[0].data + Bytes([]);
    }
  }
}
