/** The application's two calls in full: what `ikcp_recv` returns and announces, and how `ikcp_send`
    cuts and joins what it is given. */
module Calls {
  import opened Words
  import opened Engine
  import opened Scans
  import opened Wire
  import opened Network
  import opened Messages
  import opened Sending

  // ---- Receiving ----------------------------------------------------------------------------

  /** The first n segments of a receive queue are its head message: everything up to the first segment
      numbered 0, or everything when there is none. */
  ghost predicate IsHead(q: seq<Pkt>, n: nat) {
    && n <= |q| && (q != [] ==> n > 0)
    && (forall i :: 0 <= i < n - 1 ==> q[i].frg != 0) && (n < |q| ==> q[n - 1].frg == 0)
  }

  lemma {:induction false} MsgCountHead(q: seq<Pkt>)
    ensures IsHead(q, MsgCount(q))
  {
    if q != [] && q[0].frg != 0 {
      MsgCountHead(q[1..]);
      var n := MsgCount(q[1..]);
      forall i | 0 <= i < n ensures q[i].frg != 0 {
        if i > 0 { assert q[i] == q[1..][i - 1]; }
      }
    }
  }

  /** The result of `ikcp_recv`: -1 without a segment, -2 when the head message is incomplete, -3 when it
      is too long, and otherwise its length. */
  function RecvResult(q: seq<Pkt>, n: nat, room: nat): int
    requires n <= |q|
  {
    if q == [] then -1
    else if |q| < q[0].frg + 1 then -2
    else if |Bytes(q[..n])| > room then -3
    else |Bytes(q[..n])|
  }

  /** Which segments a successful call leaves: the message is removed unless the length was negative, and
      the next m segments in sequence follow, as many as fit.  A queue that was full and is so no longer
      is announced to the peer. */
  ghost predicate AfterRecv(k: Kcb, n: nat, m: nat, r: Kcb)
    requires n <= |k.rcvQueue| && m <= |k.rcvBuf|
  {
    && r == k.(rcvQueue := k.rcvQueue[n..] + k.rcvBuf[..m], rcvBuf := k.rcvBuf[m..], rcvNxt := k.rcvNxt + m,
               probe := r.probe)
    && (forall i :: 0 <= i < m ==> k.rcvBuf[i].sn == k.rcvNxt + i)
    && (m < |k.rcvBuf| && k.rcvBuf[m].sn == k.rcvNxt + m ==> |r.rcvQueue| >= k.cfg.rcvWnd)
    && (m > 0 ==> |r.rcvQueue| <= k.cfg.rcvWnd)
    && r.probe == k.probe.(tell := k.probe.tell || |r.rcvQueue| < k.cfg.rcvWnd <= |k.rcvQueue|)
  }

  lemma {:induction false} OneBytes(p: Pkt)
    ensures Bytes([p]) == p.data
  {
    assert [p][1..] == [] && Bytes([p]) == p.data + Bytes([]);
  }

  lemma {:induction false} RecvIs(k: Kcb, len: int) returns (n: nat)
    ensures IsHead(k.rcvQueue, n) && n == MsgCount(k.rcvQueue)
    ensures var o := Recv(Ideal, k, len);
            && o.ret == RecvResult(k.rcvQueue, n, if len < 0 then -len else len)
            && (o.ret < 0 ==> o == RecvOut(k, o.ret, [])) && (o.ret >= 0 ==> o.data == Bytes(k.rcvQueue[..n]))
  {
    n := MsgCount(k.rcvQueue);
    MsgCountHead(k.rcvQueue);
    if k.rcvQueue != [] && k.rcvQueue[0].frg == 0 {
      assert k.rcvQueue[..1] == [k.rcvQueue[0]];
      OneBytes(k.rcvQueue[0]);
    }
  }

  /** A call of `ikcp_recv`, in full. */
  lemma {:induction false} RecvDoes(k: Kcb, len: int) returns (n: nat, m: nat)
    ensures IsHead(k.rcvQueue, n) && m <= |k.rcvBuf|
    ensures var o := Recv(Ideal, k, len);
            && o.ret == RecvResult(k.rcvQueue, n, if len < 0 then -len else len)
            && (o.ret < 0 ==> o == RecvOut(k, o.ret, []))
            && (o.ret >= 0 ==> o.data == Bytes(k.rcvQueue[..n]) && AfterRecv(k, if len < 0 then 0 else n, m, o.k))
  {
    n := RecvIs(k, len);
    var taken := if len < 0 then 0 else n;
    var k1 := k.(rcvQueue := k.rcvQueue[taken..]);
    assert k.rcvQueue[0..] == k.rcvQueue;
    m := MoveReadyRun(k1);
  }

  /** Fast recovery: when a call opens a queue that was full, the next flush tells the peer how much
      room there is now. */
  lemma {:induction false} ReopenTold(k: Kcb, len: int, c: Clock) returns (p: Pkt)
    requires k.cfg.rcvWnd <= |k.rcvQueue| && c.updated
    requires var o := Recv(Ideal, k, len); o.ret >= 0 && |o.k.rcvQueue| < k.cfg.rcvWnd
    ensures var r := Recv(Ideal, k, len).k;
            && p in Flatten(Engine.Flush(Ideal, r.(clock := c)).out)
            && p.cmd == CMD_WINS && p.wnd == k.cfg.rcvWnd - |r.rcvQueue| > 0
  {
    var n, m := RecvDoes(k, len);
    var r := Recv(Ideal, k, len).k.(clock := c);
    WindowIs(r);
    var added, control := FlushDoes(r, EffWnd(r));
    p := control[|control| - 1];
    assert p in control;
  }

  // ---- Sending ------------------------------------------------------------------------------

  /** All pieces are full but the last, which has what remains. */
  ghost predicate FullPieces(mss: int, data: seq<byte>, fs: seq<Frag>) {
    && fs != [] && (forall i :: 0 <= i < |fs| - 1 ==> |fs[i].data| == mss)
    && |fs[|fs| - 1].data| <= mss && (data != [] ==> fs[|fs| - 1].data != [])
  }

  lemma {:induction false} PiecesFull(mss: int, data: seq<byte>, count: nat, stream: bool)
    requires mss > 0 && count == FragCount(mss, |data|) <= 0x100
    ensures FullPieces(mss, data, Fragments(mss, data, count, stream))
    decreases count
  {
    var fs := Fragments(mss, data, count, stream);
    if |data| > mss {
      var rest := Fragments(mss, data[mss..], count - 1, stream);
      FragCountCovers(mss, |data| - mss);
      PiecesFull(mss, data[mss..], count - 1, stream);
      assert fs == [fs[0]] + rest;
      forall i | 0 <= i < |fs| - 1 ensures |fs[i].data| == mss {
        if i > 0 { assert fs[i] == rest[i - 1]; }
      }
    } else {
      OnePiece(mss, data, stream);
    }
  }

  lemma {:induction false} OnePiece(mss: int, data: seq<byte>, stream: bool)
    requires mss > 0 && |data| <= mss
    ensures FragCount(mss, |data|) == 1 && Fragments(mss, data, 1, stream) == [Frag(0, data)]
  {
    assert Fragments(mss, data[|data|..], 0, stream) == [] && data[..|data|] == data;
  }

  /** In stream mode snd_queue holds full segments but for the last, and no empty one. */
  ghost predicate Packed(mss: int, q: seq<Frag>) {
    && (forall i :: 0 <= i < |q| - 1 ==> |q[i].data| == mss)
    && forall i :: 0 <= i < |q| ==> 0 < |q[i].data| <= mss
  }

  lemma {:induction false} PackedDrop(mss: int, q: seq<Frag>, n: nat)
    requires Packed(mss, q) && n <= |q|
    ensures Packed(mss, q[n..])
  {
    forall i | 0 <= i < |q[n..]| ensures q[n..][i] == q[n + i] { }
  }

  lemma {:induction false} PackedAppend(mss: int, q: seq<Frag>, data: seq<byte>, fs: seq<Frag>)
    requires Packed(mss, q) && FullPieces(mss, data, fs) && data != [] && mss > 0
    requires q != [] ==> |q[|q| - 1].data| == mss
    ensures Packed(mss, q + fs)
  {
    var r := q + fs;
    forall i | 0 <= i < |r| ensures r[i] == if i < |q| then q[i] else fs[i - |q|] { }
  }

  /** snd_queue after the data has been merged into its tail. */
  lemma {:induction false} PackedMerge(k: Kcb, data: seq<byte>)
    requires k.cfg.stream && Packed(k.cfg.Mss(), k.sndQueue)
    ensures var q := Merged(k, data); var ext := Extend(k, |data|);
            && ext <= |data| && Packed(k.cfg.Mss(), q)
            && (ext < |data| && q != [] ==> |q[|q| - 1].data| == k.cfg.Mss())
  {
  }

  lemma {:induction false} StreamSendIs(k: Kcb, data: seq<byte>)
    requires k.cfg.stream
    ensures var ext := Extend(k, |data|); var rest := data[ext..]; var r := Engine.Send(k, data).k;
            var count := FragCount(k.cfg.Mss(), |rest|);
            r == k.(sndQueue := Merged(k, data)
                                + if rest == [] || count >= WND_RCV then []
                                  else Fragments(k.cfg.Mss(), rest, count, true))
  {
    assert Merged(k, data) + [] == Merged(k, data);
  }

  lemma {:induction false} SendPacked(k: Kcb, data: seq<byte>)
    requires k.cfg.stream && Packed(k.cfg.Mss(), k.sndQueue)
    ensures Packed(k.cfg.Mss(), Engine.Send(k, data).k.sndQueue)
  {
    var ext := Extend(k, |data|);
    var rest := data[ext..];
    var count := FragCount(k.cfg.Mss(), |rest|);
    StreamSendIs(k, data);
    PackedMerge(k, data);
    if rest != [] && count < WND_RCV {
      PiecesFull(k.cfg.Mss(), rest, count, true);
      PackedAppend(k.cfg.Mss(), Merged(k, data), rest, Fragments(k.cfg.Mss(), rest, count, true));
    } else {
      assert Merged(k, data) + [] == Merged(k, data);
    }
  }

  lemma {:induction false} FlushPacked(k: Kcb)
    requires Packed(k.cfg.Mss(), k.sndQueue)
    ensures Packed(k.cfg.Mss(), Engine.Flush(Ideal, k).k.sndQueue)
  {
    if k.clock.updated {
      WindowIs(k);
      var n := FlushNumbers(k, EffWnd(k));
      PackedDrop(k.cfg.Mss(), k.sndQueue, n);
    }
  }

  lemma {:induction false} ActPacked(x: Endpoint, peer: seq<Datagram>, act: Act)
    requires x.k.cfg.stream && Packed(x.k.cfg.Mss(), x.k.sndQueue)
    ensures var r := ActOn(Ideal, x, peer, act).k; Packed(x.k.cfg.Mss(), r.sndQueue)
  {
    match act {
      case Write(data) => SendPacked(x.k, data);
      case Read(len) => ReadFrame(x, len);
      case Drive(now) => FlushPacked(x.k.(clock := Tick(x.k.clock, x.k.cfg.interval, now).0));
      case FlushNow => FlushPacked(x.k);
      case Deliver(i) => if i < |peer| { InputAllCfg(Ideal, x.k, peer[i]); }
    }
  }

  /** In every run in stream mode, snd_queue wastes no space: all its segments are full but the last, and
      none is empty. */
  lemma {:induction false} StreamPacked(cfgA: Config, cfgB: Config, es: seq<Event>)
    requires cfgA.conv == cfgB.conv && cfgA.stream
    ensures Packed(cfgA.mtu - 24, Run(Ideal, Init(cfgA, cfgB), es).a.k.sndQueue)
  {
    if es != [] {
      var n := |es| - 1;
      var s := Run(Ideal, Init(cfgA, cfgB), es[..n]);
      StreamPacked(cfgA, cfgB, es[..n]);
      OrderedRuns(cfgA, cfgB, es[..n]);
      if es[n].atA { ActPacked(s.a, s.b.net, es[n].act); }
    }
  }
}
