/** The imperative engine: a control block with its counters, its growable acknowledgement array
    and its output buffer, method by method against the functions of `Engine` on wrapping
    32-bit sequence numbers. */
module KcpEngine {
  import opened Words
  import opened Seqs
  import opened Engine
  import opened Wire
  import opened Loops
  import Scans
  import Timers

  /** Consecutive (sn, ts) pairs in a doubling array. */
  datatype AckArray = AckArray(list: array<u32>, block: nat, count: nat)

  class Kcp {
    const cfg: Config

    var sndUna: u32
    var sndNxt: u32
    var rcvNxt: u32
    var sndQueue: seq<Frag>
    var sndBuf: seq<Seg>
    var rcvBuf: seq<Pkt>
    var rcvQueue: seq<Pkt>
    var nsndQue: nat
    var nsndBuf: nat
    var nrcvBuf: nat
    var nrcvQue: nat

    // Acknowledgements to send.
    var ack: AckArray
    ghost var acks: seq<Ack>

    var rmtWnd: u16
    var cong: Cong
    var rtt: Rtt
    var probe: Probe
    var clock: Clock
    var xmit: u32
    var dead: bool

    const buffer: array<byte>
    // What the output callback has been given.
    var output: seq<seq<byte>>

    /** The acknowledgement array holds exactly the list `acks`. */
    ghost predicate AcksValid()
      reads this`ack, this`acks, ack.list
    {
      && ack.list.Length == 2 * ack.block && ack.count == |acks| <= ack.block
      && forall i :: 0 <= i < ack.count ==> ack.list[2 * i] == acks[i].sn && ack.list[2 * i + 1] == acks[i].ts
    }

    /** The counters are the queue lengths. */
    ghost predicate Counted()
      reads this`nsndQue, this`nsndBuf, this`nrcvBuf, this`nrcvQue
      reads this`sndQueue, this`sndBuf, this`rcvBuf, this`rcvQueue
    {
      nsndQue == |sndQueue| && nsndBuf == |sndBuf| && nrcvBuf == |rcvBuf| && nrcvQue == |rcvQueue|
    }

    /** Segments to send fit the MTU; in stream mode none has a fragment number. */
    ghost predicate Fits()
      reads this`sndQueue, this`sndBuf
    {
      Waiting(cfg, sndQueue) && Sendables(sndBuf, cfg.Mss())
    }

    ghost predicate Valid()
      reads this`nsndQue, this`nsndBuf, this`nrcvBuf, this`nrcvQue
      reads this`sndQueue, this`sndBuf, this`rcvBuf, this`rcvQueue
      reads this`ack, this`acks, ack.list
    {
      && Counted() && Fits() && AcksValid()
      && buffer.Length == (cfg.mtu + OVERHEAD) * 3 && (ack.list as object) != buffer
    }

    /** The value of the control block. */
    ghost function Abs(): Kcb
      reads this
    {
      Kcb(cfg, sndUna, sndNxt, rcvNxt, sndQueue, sndBuf, rcvBuf, rcvQueue, acks, rmtWnd,
          cong, rtt, probe, clock, xmit, dead)
    }

    constructor (cfg: Config)
      ensures Valid() && this.cfg == cfg && Abs() == Create(cfg) && output == []
      ensures rmtWnd == 128 && cong == Cong(0, 2, 0) && rtt == Rtt(0, 0, 200) && clock == Clock(0, 100, false)
      ensures fresh(ack.list) && fresh(buffer)
    {
      this.cfg := cfg;
      sndUna, sndNxt, rcvNxt := 0, 0, 0;
      sndQueue, sndBuf, rcvBuf, rcvQueue := [], [], [], [];
      nsndQue, nsndBuf, nrcvBuf, nrcvQue := 0, 0, 0, 0;
      var list := new u32[0];
      ack, acks := AckArray(list, 0, 0), [];
      rmtWnd := WND_RCV;
      cong, rtt := Cong(0, THRESH_INIT, 0), Rtt(0, 0, RTO_DEF);
      probe, clock := Probe(0, 0, false, false), Clock(0, INTERVAL, false);
      xmit, dead := 0, false;
      buffer := new byte[(cfg.mtu + OVERHEAD) * 3];
      output := [];
    }

    // ---- Acknowledgement processing -----------------------------------------------------

    method UpdateAck(rtt: int)
      requires Valid()
      modifies this`rtt
      ensures Valid() && Abs() == old(Abs()).(rtt := Engine.UpdateAck(cfg, old(Abs()).rtt, rtt))
    {
      this.rtt := Estimate(cfg, this.rtt, rtt);
    }

    method ShrinkBuf()
      requires Valid()
      modifies this`sndUna
      ensures Valid() && Abs() == Engine.ShrinkBuf(old(Abs()))
    {
      if sndBuf != [] {
        sndUna := sndBuf[0].pkt.sn;
      } else {
        sndUna := sndNxt;
      }
    }

    method ParseUna(una: u32)
      requires Valid()
      modifies this`sndBuf, this`nsndBuf
      ensures Valid() && Abs() == old(Abs()).(sndBuf := Engine.ParseUna(Wrap32, old(sndBuf), una))
    {
      UnaKeeps(sndBuf, una, cfg.Mss());
      var left := ScanUna(sndBuf, una);
      nsndBuf := nsndBuf - (|sndBuf| - |left|);
      sndBuf := left;
    }

    method ParseAck(sn: u32)
      requires Valid()
      modifies this`sndBuf, this`nsndBuf
      ensures Valid() && Abs() == Engine.ParseAck(Wrap32, old(Abs()), sn)
    {
      if Itimediff(sn, sndUna) < 0 || Itimediff(sn, sndNxt) >= 0 {
        return;
      }
      AckScanKeeps(sndBuf, sn, cfg.Mss());
      var left := ScanAck(sndBuf, sn);
      nsndBuf := nsndBuf - (|sndBuf| - |left|);
      sndBuf := left;
    }

    method ParseFastack(sn: u32, ts: u32)
      requires Valid()
      modifies this`sndBuf
      ensures Valid() && Abs() == Engine.ParseFastack(Wrap32, old(Abs()), sn, ts)
      ensures if Itimediff(sn, sndUna) >= 0 && Itimediff(sn, sndNxt) < 0
              then Scans.CountsRaised(Wrap32, old(sndBuf), sn, ts, sndBuf) else sndBuf == old(sndBuf)
    {
      if Itimediff(sn, sndUna) < 0 || Itimediff(sn, sndNxt) >= 0 {
        return;
      }
      FastackKeeps(sndBuf, sn, ts, cfg.Mss());
      sndBuf := ScanFastack(sndBuf, sn, ts);
    }

    /** A larger array with the acknowledgements of the present one. */
    method GrowAcks() returns (list: array<u32>, block: nat)
      requires AcksValid()
      ensures fresh(list) && list.Length == 2 * block && ack.count < block
      ensures forall i :: 0 <= i < ack.count ==> list[2 * i] == acks[i].sn && list[2 * i + 1] == acks[i].ts
    {
      block := 8;
      while block < ack.count + 1
        invariant block >= 8
      {
        block := 2 * block;
      }
      list := new u32[2 * block];
      for x := 0 to ack.count
        invariant AcksValid()
        invariant forall i :: 0 <= i < x ==> list[2 * i] == acks[i].sn && list[2 * i + 1] == acks[i].ts
      {
        list[2 * x] := ack.list[2 * x];
        list[2 * x + 1] := ack.list[2 * x + 1];
      }
    }

    /** Appends to the acknowledgement list, doubling the array when it is full. */
    method AppendAck(sn: u32, ts: u32)
      requires AcksValid()
      modifies this`ack, this`acks, ack.list
      ensures AcksValid() && acks == old(acks) + [Ack(sn, ts)]
      ensures ack.list == old(ack.list) || fresh(ack.list)
    {
      if ack.count + 1 > ack.block {
        var list, block := GrowAcks();
        ack := ack.(list := list, block := block);
      }
      ack.list[2 * ack.count] := sn;
      ack.list[2 * ack.count + 1] := ts;
      ack := ack.(count := ack.count + 1);
      acks := acks + [Ack(sn, ts)];
    }

    method AckPush(sn: u32, ts: u32)
      requires Valid()
      modifies this`ack, this`acks, ack.list
      ensures Valid() && Abs() == old(Abs()).(acks := old(acks) + [Ack(sn, ts)])
      ensures ack.list == old(ack.list) || fresh(ack.list)
    {
      AppendAck(sn, ts);
    }

    // ---- Receiving data -----------------------------------------------------------------

    /** Unlinks the head of rcv_buf. */
    method TakeHead() returns (seg: Pkt)
      requires Counted() && rcvBuf != []
      modifies this`rcvBuf, this`nrcvBuf
      ensures Counted() && seg == old(rcvBuf)[0] && rcvBuf == old(rcvBuf)[1..]
    {
      seg := rcvBuf[0];
      rcvBuf := rcvBuf[1..];
      nrcvBuf := nrcvBuf - 1;
    }

    /** Links a segment at the tail of rcv_queue. */
    method PutTail(seg: Pkt)
      requires Counted()
      modifies this`rcvQueue, this`nrcvQue
      ensures Counted() && rcvQueue == old(rcvQueue) + [seg]
    {
      rcvQueue := rcvQueue + [seg];
      nrcvQue := nrcvQue + 1;
    }

    /** One round of moving available data from rcv_buf to rcv_queue. */
    method MoveHead()
      requires Counted() && rcvBuf != []
      modifies this`rcvBuf, this`rcvQueue, this`nrcvBuf, this`nrcvQue, this`rcvNxt
      ensures Counted() && Abs() == MoveOne(Wrap32, old(Abs()))
    {
      var seg := TakeHead();
      PutTail(seg);
      rcvNxt := U32(rcvNxt + 1);
    }

    /** Moves available data from rcv_buf to rcv_queue. */
    method MoveReady()
      requires Valid()
      modifies this`rcvBuf, this`rcvQueue, this`nrcvBuf, this`nrcvQue, this`rcvNxt
      ensures Valid() && Abs() == Engine.MoveReady(Wrap32, old(Abs()))
    {
      ghost var goal := Engine.MoveReady(Wrap32, Abs());
      while rcvBuf != [] && rcvBuf[0].sn == rcvNxt && nrcvQue < cfg.rcvWnd
        invariant Counted()
        invariant Engine.MoveReady(Wrap32, Abs()) == goal
        decreases |rcvBuf|
      {
        MoveHead();
      }
    }

    method ParseData(newseg: Pkt)
      requires Valid()
      modifies this`rcvBuf, this`rcvQueue, this`nrcvBuf, this`nrcvQue, this`rcvNxt
      ensures Valid() && Abs() == Engine.ParseData(Wrap32, old(Abs()), newseg)
    {
      if Itimediff(newseg.sn, U32(rcvNxt + cfg.rcvWnd)) < 0 && Itimediff(newseg.sn, rcvNxt) >= 0 {
        var repeated;
        rcvBuf, repeated := ScanInsert(rcvBuf, newseg);
        if !repeated {
          nrcvBuf := nrcvBuf + 1;
        }
        assert Abs() == old(Abs()).(rcvBuf := Insert(Wrap32, old(rcvBuf), newseg));
        MoveReady();
      }
    }

    // ---- Input --------------------------------------------------------------------------

    method InputHead(p: Pkt)
      requires Valid() && 0 <= p.una < M32
      modifies this`rmtWnd, this`sndBuf, this`nsndBuf, this`sndUna
      ensures Valid() && Abs() == Engine.InputHead(Wrap32, old(Abs()), p)
    {
      rmtWnd := p.wnd;
      ParseUna(p.una);
      ShrinkBuf();
    }

    method InputAck(p: Pkt)
      requires Valid() && 0 <= p.sn < M32
      modifies this`rtt, this`sndBuf, this`nsndBuf, this`sndUna
      ensures Valid() && Abs() == Engine.InputAck(Wrap32, old(Abs()), p)
    {
      if Itimediff(clock.current, p.ts) >= 0 {
        UpdateAck(Itimediff(clock.current, p.ts));
      }
      ParseAck(p.sn);
      ShrinkBuf();
    }

    method InputPush(p: Pkt)
      requires Valid() && 0 <= p.sn < M32
      modifies this`ack, this`acks, ack.list
      modifies this`rcvBuf, this`rcvQueue, this`nrcvBuf, this`nrcvQue, this`rcvNxt
      ensures Valid() && Abs() == Engine.InputPush(Wrap32, old(Abs()), p)
      ensures ack.list == old(ack.list) || fresh(ack.list)
    {
      if Itimediff(p.sn, U32(rcvNxt + cfg.rcvWnd)) < 0 {
        AckPush(p.sn, p.ts);
        if Itimediff(p.sn, rcvNxt) >= 0 {
          ParseData(p);
        }
      }
    }

    /** The work on one decoded segment. */
    method InputPkt(p: Pkt)
      requires Valid() && 0 <= p.sn < M32 && 0 <= p.una < M32
      modifies this`rmtWnd, this`sndBuf, this`nsndBuf, this`sndUna, this`rtt
      modifies this`ack, this`acks, ack.list
      modifies this`rcvBuf, this`rcvQueue, this`nrcvBuf, this`nrcvQue, this`rcvNxt, this`probe
      ensures Valid() && Abs() == Engine.InputPkt(Wrap32, old(Abs()), p)
      ensures ack.list == old(ack.list) || fresh(ack.list)
    {
      InputHead(p);
      if p.cmd == CMD_ACK {
        InputAck(p);
      } else if p.cmd == CMD_PUSH {
        InputPush(p);
      } else if p.cmd == CMD_WASK {
        probe := probe.(tell := true);
      }
    }

    /** Window growth after a datagram. */
    method GrowWindow()
      requires Valid()
      modifies this`cong
      ensures Valid() && Abs() == old(Abs()).(cong := Grow(old(Abs()).cong, cfg.Mss(), rmtWnd))
    {
      cong := GrowLinear(cong, cfg.Mss(), rmtWnd);
    }

    /** `ikcp_input`. */
    method Input(data: seq<byte>) returns (ret: int)
      requires Valid()
      modifies this`rmtWnd, this`sndBuf, this`nsndBuf, this`sndUna, this`rtt
      modifies this`ack, this`acks, ack.list
      modifies this`rcvBuf, this`rcvQueue, this`nrcvBuf, this`nrcvQue, this`rcvNxt, this`probe
      modifies this`cong
      ensures Valid() && Returned(Abs(), ret) == InputRaw(old(Abs()), data)
      ensures ack.list == old(ack.list) || fresh(ack.list)
    {
      if |data| < OVERHEAD {
        return -1;
      }
      var prevUna := sndUna;
      var sc;
      ret, sc := InputSegments(data);
      if ret == 0 {
        InputEnd(prevUna, sc);
      }
    }

    /** The loop of `ikcp_input`. */
    method InputSegments(data: seq<byte>) returns (ret: int, sc: Scan)
      requires Valid()
      modifies this`rmtWnd, this`sndBuf, this`nsndBuf, this`sndUna, this`rtt
      modifies this`ack, this`acks, ack.list
      modifies this`rcvBuf, this`rcvQueue, this`nrcvBuf, this`nrcvQue, this`rcvNxt, this`probe
      ensures Valid() && InputOut(Abs(), sc, ret) == InputLoop(old(Abs()), NoAck, data)
      ensures ack.list == old(ack.list) || fresh(ack.list)
      ensures sc.MaxAck? ==> 0 <= sc.sn < M32
    {
      ghost var goal := InputLoop(Abs(), NoAck, data);
      sc := NoAck;
      var rest := data;
      while true
        invariant Valid() && InputLoop(Abs(), sc, rest) == goal
        invariant ack.list == old(ack.list) || fresh(ack.list)
        invariant sc.MaxAck? ==> 0 <= sc.sn < M32
        decreases |rest|
      {
        if |rest| < OVERHEAD {
          return 0, sc;
        }
        if Decode32(rest, 0) != cfg.conv {
          return -1, sc;
        }
        var len := Decode32(rest, 20);
        if |rest| - OVERHEAD < len || I32(len) < 0 {
          return -2, sc;
        }
        if !KnownCmd(rest[4]) {
          return -3, sc;
        }
        var p := DecodePkt(rest);
        InputPkt(p);
        sc := ScanPkt(Wrap32, sc, p);
        rest := rest[OVERHEAD + len..];
      }
    }

    /** The work of `ikcp_input` after its loop. */
    method InputEnd(prevUna: u32, sc: Scan)
      requires Valid() && (sc.MaxAck? ==> 0 <= sc.sn < M32)
      modifies this`sndBuf, this`cong
      ensures Valid() && Abs() == InputFinish(Wrap32, prevUna, old(Abs()), sc)
    {
      if sc.MaxAck? {
        ParseFastack(sc.sn, sc.ts);
      }
      if Itimediff(sndUna, prevUna) > 0 {
        GrowWindow();
      }
    }

    // ---- Application calls --------------------------------------------------------------

    method PeekSize() returns (size: int)
      requires Valid()
      ensures size == Engine.PeekSize(Abs())
    {
      if rcvQueue == [] {
        return -1;
      }
      if rcvQueue[0].frg == 0 {
        return |rcvQueue[0].data|;
      }
      if nrcvQue < rcvQueue[0].frg + 1 {
        return -1;
      }
      size := ScanLength(rcvQueue);
    }

    /** Unlinks the first n segments of rcv_queue. */
    method DropMessage(n: nat)
      requires Counted() && n <= |rcvQueue|
      modifies this`rcvQueue, this`nrcvQue
      ensures Counted() && rcvQueue == old(rcvQueue)[n..]
    {
      rcvQueue := rcvQueue[n..];
      nrcvQue := nrcvQue - n;
    }

    /** Copies out the head message, removes it unless peeking, and refills rcv_queue. */
    method TakeMessage(peek: bool) returns (data: seq<byte>)
      requires Valid()
      modifies this`rcvBuf, this`rcvQueue, this`nrcvBuf, this`nrcvQue, this`rcvNxt
      ensures data == MsgBytes(old(rcvQueue)) && Valid()
      ensures Abs() == Engine.MoveReady(Wrap32, if peek then old(Abs())
                                                else old(Abs()).(rcvQueue := old(rcvQueue)[MsgCount(old(rcvQueue))..]))
    {
      var n;
      n, data := ScanMessage(rcvQueue);
      if !peek {
        DropMessage(n);
      }
      MoveReady();
    }

    /** `ikcp_recv`. */
    method Recv(len: int) returns (ret: int, data: seq<byte>)
      requires Valid()
      modifies this`rcvBuf, this`rcvQueue, this`nrcvBuf, this`nrcvQue, this`rcvNxt, this`probe
      ensures Valid() && RecvOut(Abs(), ret, data) == Engine.Recv(Wrap32, old(Abs()), len)
    {
      if rcvQueue == [] {
        return -1, [];
      }
      var room := if len < 0 then -len else len;
      var peek := PeekSize();
      if peek < 0 {
        return -2, [];
      }
      if peek > room {
        return -3, [];
      }
      var recover := nrcvQue >= cfg.rcvWnd;
      data := TakeMessage(len < 0);
      if nrcvQue < cfg.rcvWnd && recover {
        probe := probe.(tell := true);
      }
      ret := |data|;
    }

    /** Replaces the tail of snd_queue by a longer segment: the counter is unchanged. */
    method MergeTail(more: seq<byte>)
      requires Counted() && Fits() && cfg.stream && sndQueue != []
      requires |sndQueue[|sndQueue| - 1].data| + |more| <= cfg.Mss()
      modifies this`sndQueue
      ensures Counted() && Fits()
      ensures sndQueue ==
              old(sndQueue)[..|old(sndQueue)| - 1] + [Frag(0, old(sndQueue)[|old(sndQueue)| - 1].data + more)]
    {
      var tail := sndQueue[|sndQueue| - 1];
      sndQueue := sndQueue[..|sndQueue| - 1] + [Frag(0, tail.data + more)];
    }

    /** Links a new segment at the tail of snd_queue. */
    method AddFragment(f: Frag)
      requires Counted() && Fits() && |f.data| <= cfg.Mss() && (cfg.stream ==> f.frg == 0)
      modifies this`sndQueue, this`nsndQue
      ensures Counted() && Fits() && sndQueue == old(sndQueue) + [f]
    {
      sndQueue := sndQueue + [f];
      nsndQue := nsndQue + 1;
    }

    /** One piece: what is left of the data after it. */
    method AddPiece(rest: seq<byte>, n: nat) returns (left: seq<byte>)
      requires Counted() && Fits() && n > 0 && FragmentsLeft(cfg.Mss(), rest, n)
      modifies this`sndQueue, this`nsndQue
      ensures Counted() && Fits() && FragmentsLeft(cfg.Mss(), left, n - 1) && |left| <= |rest|
      ensures sndQueue + Fragments(cfg.Mss(), left, n - 1, cfg.stream) ==
              old(sndQueue) + Fragments(cfg.Mss(), rest, n, cfg.stream)
    {
      var size := Min(|rest|, cfg.Mss());
      var f := Frag(if cfg.stream then 0 else n - 1, rest[..size]);
      FragmentRound(sndQueue, cfg.Mss(), rest, n, cfg.stream, f);
      AddFragment(f);
      left := rest[size..];
    }

    /** The fragment loop of `ikcp_send`. */
    method AddFragments(data: seq<byte>, count: nat) returns (sent: nat)
      requires Counted() && Fits() && count == FragCount(cfg.Mss(), |data|) < WND_RCV
      modifies this`sndQueue, this`nsndQue
      ensures Counted() && Fits() && sent == |data|
      ensures sndQueue == old(sndQueue) + Fragments(cfg.Mss(), data, count, cfg.stream)
    {
      var mss := cfg.Mss();
      var rest := data;
      sent := 0;
      ghost var goal := sndQueue + Fragments(mss, data, count, cfg.stream);
      for i := 0 to count
        invariant Counted() && Fits() && sent + |rest| == |data|
        invariant FragmentsLeft(mss, rest, count - i)
        invariant sndQueue + Fragments(mss, rest, count - i, cfg.stream) == goal
      {
        var left := AddPiece(rest, count - i);
        sent := sent + (|rest| - |left|);
        rest := left;
      }
    }

    /** Stream mode: how much of the data went into the last segment of snd_queue. */
    method Merge(data: seq<byte>) returns (extend: nat)
      requires Valid() && cfg.stream
      modifies this`sndQueue
      ensures Valid() && extend == Extend(old(Abs()), |data|) <= |data|
      ensures extend == 0 ==> sndQueue == old(sndQueue)
      ensures extend > 0 ==>
                && old(sndQueue) != []
                && sndQueue == old(sndQueue)[..|old(sndQueue)| - 1]
                               + [Frag(0, old(sndQueue)[|old(sndQueue)| - 1].data + data[..extend])]
    {
      extend := 0;
      if sndQueue != [] && |sndQueue[|sndQueue| - 1].data| < cfg.Mss() {
        var tail := sndQueue[|sndQueue| - 1];
        extend := Min(|data|, cfg.Mss() - |tail.data|);
        assert tail in sndQueue;
        assert extend == 0 ==> Frag(0, tail.data + data[..extend]) == tail;
        MergeTail(data[..extend]);
      }
    }

    /** `ikcp_send`. */
    method Send(data: seq<byte>) returns (ret: int)
      requires Valid()
      modifies this`sndQueue, this`nsndQue
      ensures Valid() && SendOut(Abs(), ret) == Engine.Send(old(Abs()), data)
    {
      var sent := 0;
      if cfg.stream {
        sent := Merge(data);
        if sent == |data| {
          return sent;
        }
      }
      var rest := data[sent..];
      var count := CountFragments(cfg.Mss(), |rest|);
      if count >= WND_RCV {
        return if cfg.stream && sent > 0 then sent else -2;
      }
      var more := AddFragments(rest, count);
      ret := sent + more;
    }

    // ---- The output buffer --------------------------------------------------------------

    /** The first ptr bytes of the buffer are the encoding of `cur`, a datagram within the MTU. */
    ghost predicate Buffered(ptr: nat, cur: Datagram)
      reads buffer
    {
      && buffer.Length == (cfg.mtu + OVERHEAD) * 3
      && ptr == Size(cur) <= cfg.mtu && buffer[..ptr] == Encode(cur)
    }

    /** Writes bytes at position ptr. */
    method Put(ptr: nat, bytes: seq<byte>) returns (next: nat)
      requires ptr + |bytes| <= buffer.Length
      modifies buffer
      ensures next == ptr + |bytes| && buffer[..next] == old(buffer[..ptr]) + bytes
    {
      for i := 0 to |bytes|
        invariant buffer[..ptr + i] == old(buffer[..ptr]) + bytes[..i]
      {
        buffer[ptr + i] := bytes[i];
      }
      next := ptr + |bytes|;
    }

    /** `ikcp_encode_seg`, and the copy of the payload behind it. */
    method EncodeSeg(p: Pkt, start: nat) returns (ptr: nat)
      requires start + PktSize(p) <= buffer.Length
      modifies buffer
      ensures ptr == start + PktSize(p)
      ensures buffer[..ptr] == old(buffer[..start]) + (EncodeHeader(p) + p.data)
    {
      HeaderParts(buffer[..start], p);
      ptr := Put(start, Encode32(p.conv));
      ptr := Put(ptr, [p.cmd]);
      ptr := Put(ptr, [p.frg]);
      ptr := Put(ptr, Encode16(p.wnd));
      ptr := Put(ptr, Encode32(p.ts));
      ptr := Put(ptr, Encode32(U32(p.sn)));
      ptr := Put(ptr, Encode32(U32(p.una)));
      ptr := Put(ptr, Encode32(U32(|p.data|)));
      ptr := Put(ptr, p.data);
    }

    /** `ikcp_output`: an empty buffer is not sent. */
    method Output(size: nat)
      requires size <= buffer.Length
      modifies this`output
      ensures output == if size == 0 then old(output) else old(output) + [buffer[..size]]
    {
      if size > 0 {
        output := output + [buffer[..size]];
      }
    }

    /** Writes a segment behind what is buffered, sending the buffer first when it is full. */
    method WriteSeg(p: Pkt, ptr: nat, ghost cur: Datagram, ghost rest: seq<Pkt>)
      returns (next: nat, ghost now: Datagram)
      requires Buffered(ptr, cur) && PktSize(p) <= cfg.mtu
      modifies this`output, buffer
      ensures Buffered(next, now)
      ensures Pending(cfg.mtu, output, now, rest) == Pending(cfg.mtu, old(output), cur, [p] + rest)
    {
      PackStep(cfg.mtu, output, cur, p, rest);
      next, now := ptr, cur;
      if ptr + PktSize(p) > cfg.mtu {
        Output(ptr);
        next, now := 0, [];
        assert [] + [p] == [p];
      }
      next := EncodeSeg(p, next);
      now := now + [p];
    }

    // ---- Flush --------------------------------------------------------------------------

    /** The window that this endpoint advertises. */
    ghost predicate Advertised(wnd: u16)
      reads this`nrcvQue, this`rcvQueue
    {
      nrcvQue == |rcvQueue| && wnd == (if nrcvQue < cfg.rcvWnd then cfg.rcvWnd - nrcvQue else 0) % 0x1_0000
    }

    /** `ikcp_wnd_unused`, cast to the 16 bits of the header. */
    method WndUnused() returns (wnd: u16)
      requires Valid()
      ensures Advertised(wnd) && wnd == Engine.WndUnused(Abs()) % 0x1_0000
    {
      wnd := (if nrcvQue < cfg.rcvWnd then cfg.rcvWnd - nrcvQue else 0) % 0x1_0000;
    }

    /** Writes the acknowledgement list. */
    method WriteAcks(h: Pkt, ghost rest: seq<Pkt>) returns (seg: Pkt, ptr: nat, ghost cur: Datagram)
      requires AcksValid() && buffer.Length == (cfg.mtu + OVERHEAD) * 3 && h.data == []
      modifies this`output, buffer
      ensures AcksValid() && Buffered(ptr, cur) && seg == AfterAcks(h, acks)
      ensures Pending(cfg.mtu, output, cur, rest) == Pending(cfg.mtu, old(output), [], AckPkts(h, acks) + rest)
    {
      seg, ptr, cur := h, 0, [];
      ghost var goal := Pending(cfg.mtu, output, [], AckPkts(h, acks) + rest);
      assert acks[0..] == acks;
      for i := 0 to ack.count
        invariant AcksValid() && Buffered(ptr, cur)
        invariant seg == AfterAcks(h, acks[..i])
        invariant Pending(cfg.mtu, output, cur, AckPkts(h, acks[i..]) + rest) == goal
      {
        AckRound(h, acks, i, rest);
        seg := seg.(sn := ack.list[2 * i], ts := ack.list[2 * i + 1]);
        ptr, cur := WriteSeg(seg, ptr, cur, AckPkts(h, acks[i + 1..]) + rest);
      }
      assert acks[..ack.count] == acks;
      assert AckPkts(h, acks[ack.count..]) + rest == rest;
    }

    method ClearAcks()
      requires AcksValid()
      modifies this`ack, this`acks
      ensures AcksValid() && acks == [] && ack.list == old(ack.list)
    {
      ack := ack.(count := 0);
      acks := [];
    }

    /** The window-probe timer. */
    method SetProbe(ghost s: Kcb)
      requires s.rmtWnd == rmtWnd && s.clock == clock && s.probe == probe
      modifies this`probe
      ensures probe == ProbeTimer(s)
    {
      if rmtWnd == 0 {
        if probe.wait == 0 {
          probe := probe.(wait := PROBE_INIT, ts := U32(clock.current + PROBE_INIT));
        } else if Itimediff(clock.current, probe.ts) >= 0 {
          var wait, ts := NextProbe(probe.wait, clock.current);
          probe := probe.(wait := wait, ts := ts, ask := true);
        }
      } else {
        probe := probe.(ts := 0, wait := 0);
      }
    }

    /** Writes the probes asked for. */
    method WriteProbes(h: Pkt, start: nat, ghost cur0: Datagram, ghost rest: seq<Pkt>)
      returns (ptr: nat, ghost cur: Datagram)
      requires h.data == [] && Buffered(start, cur0)
      modifies this`output, buffer
      ensures Buffered(ptr, cur)
      ensures Pending(cfg.mtu, output, cur, rest) ==
              Pending(cfg.mtu, old(output), cur0, ProbePkts(h, probe) + rest)
    {
      ptr, cur := start, cur0;
      ghost var tell := if probe.tell then [h.(cmd := CMD_WINS)] else [];
      ProbeParts(h, probe, rest);
      if probe.ask {
        ptr, cur := WriteSeg(h.(cmd := CMD_WASK), ptr, cur, tell + rest);
      }
      if probe.tell {
        ptr, cur := WriteSeg(h.(cmd := CMD_WINS), ptr, cur, rest);
      }
    }

    /** Unlinks the head of snd_queue. */
    method TakeWaiting() returns (f: Frag)
      requires Counted() && Fits() && sndQueue != []
      modifies this`sndQueue, this`nsndQue
      ensures Counted() && Fits() && f == old(sndQueue)[0] && sndQueue == old(sndQueue)[1..] && |f.data| <= cfg.Mss()
    {
      f := sndQueue[0];
      sndQueue := sndQueue[1..];
      nsndQue := nsndQue - 1;
    }

    /** Links a numbered segment at the tail of snd_buf. */
    method PutSent(g: Seg)
      requires Counted() && Fits() && |g.pkt.data| <= cfg.Mss() && 0 <= g.pkt.sn < M32
      modifies this`sndBuf, this`nsndBuf
      ensures Counted() && Fits() && sndBuf == old(sndBuf) + [g]
    {
      sndBuf := sndBuf + [g];
      nsndBuf := nsndBuf + 1;
    }

    /** Numbers the head of snd_queue and moves it to snd_buf. */
    method NumberHead(wnd: u16)
      requires Counted() && Fits() && sndQueue != [] && Advertised(wnd)
      modifies this`sndQueue, this`nsndQue, this`sndBuf, this`nsndBuf, this`sndNxt
      ensures Counted() && Fits() && Abs() == FillOne(Wrap32, old(Abs()))
    {
      var f := TakeWaiting();
      var p := Pkt(cfg.conv, CMD_PUSH, f.frg, wnd, clock.current, sndNxt, rcvNxt, f.data);
      PutSent(Seg(p, clock.current, rtt.rto, 0, 0));
      sndNxt := U32(sndNxt + 1);
    }

    /** Moves data from snd_queue to snd_buf while the window allows. */
    method FillWindow(wnd: u16, cwnd: u32)
      requires Counted() && Fits() && Advertised(wnd)
      modifies this`sndQueue, this`nsndQue, this`sndBuf, this`nsndBuf, this`sndNxt
      ensures Counted() && Fits() && Abs() == Fill(Wrap32, old(Abs()), cwnd)
    {
      ghost var goal := Fill(Wrap32, Abs(), cwnd);
      while Itimediff(sndNxt, U32(sndUna + cwnd)) < 0
        invariant Counted() && Fits() && Fill(Wrap32, Abs(), cwnd) == goal
        decreases |sndQueue|
      {
        if sndQueue == [] {
          break;
        }
        NumberHead(wnd);
      }
    }

    /** Stores the new state of segment i of snd_buf, and counts what happened to it. */
    method StoreSeg(i: nat, g: Seg, due: Due, ghost c: Counts)
      requires i < |sndBuf| && xmit == c.xmit && dead == c.dead
      modifies this`sndBuf, this`xmit, this`dead
      ensures sndBuf == old(sndBuf)[i := g]
      ensures xmit == c.Next(Outcome(g, due)).xmit && dead == c.Next(Outcome(g, due)).dead
    {
      sndBuf := sndBuf[i := g];
      if due.Timeout? {
        xmit := U32(xmit + 1);
      }
      if !due.Quiet? && g.xmit >= DEADLINK {
        dead := true;
      }
    }

    /** What the retransmission loop reads and does not change. */
    ghost predicate View(s: Kcb)
      reads this`clock, this`rtt, this`rcvNxt, this`rcvQueue
    {
      s.cfg == cfg && s.clock == clock && s.rtt == rtt && s.rcvNxt == rcvNxt && s.rcvQueue == rcvQueue
    }

    /** Stores and counts an outcome, and writes the segment if it is to be sent. */
    method WriteOutcome(i: nat, g: Seg, due: Due, ghost c: Counts, start: nat, ghost cur0: Datagram,
                        ghost rest: seq<Pkt>)
      returns (ptr: nat, ghost cur: Datagram)
      requires i < |sndBuf| && xmit == c.xmit && dead == c.dead && PktSize(g.pkt) <= cfg.mtu && Buffered(start, cur0)
      modifies this`sndBuf, this`xmit, this`dead, this`output, buffer
      ensures Buffered(ptr, cur) && sndBuf == old(sndBuf)[i := g]
      ensures xmit == c.Next(Outcome(g, due)).xmit && dead == c.Next(Outcome(g, due)).dead
      ensures Pending(cfg.mtu, output, cur, rest) == Pending(cfg.mtu, old(output), cur0, Outcome(g, due).Pkts() + rest)
    {
      StoreSeg(i, g, due, c);
      ptr, cur := start, cur0;
      assert [] + rest == rest;
      if !due.Quiet? {
        ptr, cur := WriteSeg(g.pkt, ptr, cur, rest);
      }
    }

    /** One round of the retransmission loop. */
    method FlushSegment(ghost s: Kcb, ghost plan: seq<Outcome>, ghost c: Counts, i: nat, wnd: u16, start: nat,
                        ghost cur0: Datagram, ghost rest: seq<Pkt>)
      returns (due: Due, ptr: nat, ghost cur: Datagram)
      requires i < |sndBuf| == |plan| && Planned(s, plan) && sndBuf[i] == s.sndBuf[i]
      requires View(s) && |sndBuf[i].pkt.data| <= cfg.Mss() && xmit == c.xmit && dead == c.dead
      requires Advertised(wnd) && Buffered(start, cur0)
      modifies this`sndBuf, this`xmit, this`dead, this`output, buffer
      ensures Buffered(ptr, cur) && due == plan[i].due && sndBuf == old(sndBuf)[i := plan[i].seg]
      ensures xmit == c.Next(plan[i]).xmit && dead == c.Next(plan[i]).dead
      ensures Pending(cfg.mtu, output, cur, rest) == Pending(cfg.mtu, old(output), cur0, plan[i].Pkts() + rest)
    {
      assert wnd == Engine.WndUnused(s) % 0x1_0000;
      var g;
      g, due := Resend(s, cfg, clock.current, rtt.rto, wnd, rcvNxt, sndBuf[i]);
      assert At(i);
      assert PktSize(g.pkt) <= cfg.mtu;
      ptr, cur := WriteOutcome(i, g, due, c, start, cur0, rest);
    }

    /** One round, with the loop's counters. */
    method FlushRound(ghost s: Kcb, ghost plan: seq<Outcome>, i: nat, wnd: u16, lost0: bool, change0: nat, start: nat,
                      ghost cur0: Datagram, ghost rest: seq<Pkt>)
      returns (lost: bool, change: nat, ptr: nat, ghost cur: Datagram)
      requires i < |sndBuf| == |plan| && Planned(s, plan) && View(s) && sndBuf[i] == s.sndBuf[i]
      requires |sndBuf[i].pkt.data| <= cfg.Mss() && Advertised(wnd) && Buffered(start, cur0)
      modifies this`sndBuf, this`xmit, this`dead, this`output, buffer
      ensures Buffered(ptr, cur) && sndBuf == old(sndBuf)[i := plan[i].seg]
      ensures Counts(xmit, dead, lost, change) == Counts(old(xmit), old(dead), lost0, change0).Next(plan[i])
      ensures Pending(cfg.mtu, output, cur, rest) == Pending(cfg.mtu, old(output), cur0, plan[i].Pkts() + rest)
    {
      lost, change := lost0, change0;
      var due;
      ghost var c := Counts(xmit, dead, lost, change);
      due, ptr, cur := FlushSegment(s, plan, c, i, wnd, start, cur0, rest);
      if due.Timeout? { lost := true; }
      if due.FastResend? { change := change + 1; }
    }

    /** The loop after i rounds: what is stored, counted, and will have been output at the end.  As in
        `Planned`, the trigger keeps the body folded. */
    ghost predicate Going(s: Kcb, plan: seq<Outcome>, i: nat, lost: bool, change: nat, ptr: nat, cur: Datagram,
                          goal: seq<seq<byte>>)
      requires i <= |plan|
      reads this`sndBuf, this`xmit, this`dead, this`output, buffer
    {
      |sndBuf| == |plan|
      && forall n {:trigger At(n)} :: At(n) ==>
           && Buffered(ptr, cur) && DoneTo(sndBuf, s.sndBuf, plan, i)
           && Counts(xmit, dead, lost, change) == Count(s, plan, i)
           && Pending(cfg.mtu, output, cur, Rest(plan, i).pkts) == goal
    }

    /** One round keeps the loop going. */
    method FlushNext(ghost s: Kcb, ghost plan: seq<Outcome>, i: nat, wnd: u16, lost0: bool, change0: nat, start: nat,
                     ghost cur0: Datagram, ghost goal: seq<seq<byte>>)
      returns (lost: bool, change: nat, ptr: nat, ghost cur: Datagram)
      requires i < |plan| && Planned(s, plan) && View(s) && Sendables(s.sndBuf, cfg.Mss()) && Advertised(wnd)
      requires Going(s, plan, i, lost0, change0, start, cur0, goal)
      modifies this`sndBuf, this`xmit, this`dead, this`output, buffer
      ensures Going(s, plan, i + 1, lost, change, ptr, cur, goal)
    {
      assert At(i);
      assert |s.sndBuf[i].pkt.data| <= cfg.Mss() by { assert s.sndBuf[i] in s.sndBuf; }
      DoneNext(sndBuf, s.sndBuf, plan, i);
      lost, change, ptr, cur := FlushRound(s, plan, i, wnd, lost0, change0, start, cur0, Rest(plan, i + 1).pkts);
    }

    /** The retransmission loop of `ikcp_flush`. */
    method FlushSegments(ghost s: Kcb, ghost plan: seq<Outcome>, wnd: u16, start: nat, ghost cur0: Datagram)
      returns (lost: bool, change: nat, ptr: nat, ghost cur: Datagram)
      requires Planned(s, plan) && |plan| == |s.sndBuf|
      requires View(s) && sndBuf == s.sndBuf && xmit == s.xmit && dead == s.dead
      requires Sendables(s.sndBuf, cfg.Mss()) && Advertised(wnd) && Buffered(start, cur0)
      modifies this`sndBuf, this`xmit, this`dead, this`output, buffer
      ensures Buffered(ptr, cur) && DoneTo(sndBuf, s.sndBuf, plan, |plan|)
      ensures Counts(xmit, dead, lost, change) == Count(s, plan, |plan|)
      ensures Pending(cfg.mtu, output, cur, []) == Pending(cfg.mtu, old(output), cur0, Rest(plan, 0).pkts)
    {
      lost, change, ptr, cur := false, 0, start, cur0;
      ghost var goal := Pending(cfg.mtu, output, cur, Rest(plan, 0).pkts);
      for i := 0 to |sndBuf|
        invariant Going(s, plan, i, lost, change, ptr, cur, goal)
      {
        lost, change, ptr, cur := FlushNext(s, plan, i, wnd, lost, change, ptr, cur, goal);
      }
      assert At(|plan|);
    }

    /** Writes and clears the acknowledgements. */
    method FlushAcks(h: Pkt, ghost rest: seq<Pkt>) returns (seg: Pkt, ptr: nat, ghost cur: Datagram)
      requires AcksValid() && buffer.Length == (cfg.mtu + OVERHEAD) * 3 && h.data == []
      modifies this`output, this`ack, this`acks, buffer
      ensures AcksValid() && acks == [] && ack.list == old(ack.list)
      ensures Buffered(ptr, cur) && seg == AfterAcks(h, old(acks))
      ensures Pending(cfg.mtu, output, cur, rest) == Pending(cfg.mtu, old(output), [], AckPkts(h, old(acks)) + rest)
    {
      seg, ptr, cur := WriteAcks(h, rest);
      ClearAcks();
    }

    /** Writes and clears the probes, after setting their timer. */
    method FlushProbes(ghost s: Kcb, h: Pkt, start: nat, ghost cur0: Datagram, ghost rest: seq<Pkt>)
      returns (ptr: nat, ghost cur: Datagram)
      requires h.data == [] && Buffered(start, cur0)
      requires s.rmtWnd == rmtWnd && s.clock == clock && s.probe == probe
      modifies this`output, this`probe, buffer
      ensures Buffered(ptr, cur) && probe == ProbeTimer(s).(ask := false, tell := false)
      ensures Pending(cfg.mtu, output, cur, rest) ==
              Pending(cfg.mtu, old(output), cur0, ProbePkts(h, ProbeTimer(s)) + rest)
    {
      SetProbe(s);
      ptr, cur := WriteProbes(h, start, cur0, rest);
      probe := probe.(ask := false, tell := false);
    }

    /** Acknowledgements and probes. */
    method WriteControl(ghost s: Kcb, wnd: u16, ghost pr: Probe, ghost rest: seq<Pkt>)
      returns (ptr: nat, ghost cur: Datagram)
      requires AcksValid() && buffer.Length == (cfg.mtu + OVERHEAD) * 3
      requires s.rmtWnd == rmtWnd && s.clock == clock && s.probe == probe && pr == ProbeTimer(s)
      modifies this`output, this`ack, this`acks, this`probe, buffer
      ensures AcksValid() && ack.list == old(ack.list) && Buffered(ptr, cur)
      ensures acks == [] && probe == pr.(ask := false, tell := false)
      ensures var h := Pkt(cfg.conv, CMD_ACK, 0, wnd, 0, 0, rcvNxt, []);
              Pending(cfg.mtu, output, cur, rest) ==
              Pending(cfg.mtu, old(output), [], AckPkts(h, old(acks)) + (ProbePkts(AfterAcks(h, old(acks)), pr) + rest))
    {
      var h := Pkt(cfg.conv, CMD_ACK, 0, wnd, 0, 0, rcvNxt, []);
      var seg;
      seg, ptr, cur := FlushAcks(h, ProbePkts(AfterAcks(h, acks), pr) + rest);
      ptr, cur := FlushProbes(s, seg, ptr, cur, rest);
    }

    /** The window update at the end of flush. */
    method ShrinkWindow(ghost f: Kcb, ghost c: Counts, ghost eff: u32, win: u32, change: bool, lost: bool)
      requires f.cong == cong && f.cfg == cfg && f.sndNxt == sndNxt && f.sndUna == sndUna
      requires win == eff && change == (c.change > 0) && lost == c.lost
      modifies this`cong
      ensures cong == Reduced(f, c, eff)
    {
      cong := Shrink(cfg, cong, U32(sndNxt - sndUna), win, change, lost);
    }

    /** Sends and resends what is due, and what is left in the buffer. */
    method SendDue(ghost s: Kcb, ghost plan: seq<Outcome>, wnd: u16, start: nat, ghost cur0: Datagram)
      returns (lost: bool, change: nat)
      requires Planned(s, plan)
      requires View(s) && sndBuf == s.sndBuf && xmit == s.xmit && dead == s.dead
      requires Sendables(s.sndBuf, cfg.Mss()) && Advertised(wnd) && Buffered(start, cur0)
      modifies this`sndBuf, this`xmit, this`dead, this`output, buffer
      ensures sndBuf == Rest(plan, 0).buf && |sndBuf| == |plan|
      ensures Counts(xmit, dead, lost, change) == Count(s, plan, |plan|)
      ensures output == Pending(cfg.mtu, old(output), cur0, Rest(plan, 0).pkts)
    {
      var ptr;
      ghost var cur;
      lost, change, ptr, cur := FlushSegments(s, plan, wnd, start, cur0);
      SameBuf(plan, sndBuf);
      PackEnd(cfg.mtu, output, cur);
      Output(ptr);
    }

    /** And the rest of the control block is as it was. */
    method SendData(ghost s: Kcb, ghost plan: seq<Outcome>, wnd: u16, start: nat, ghost cur0: Datagram)
      returns (lost: bool, change: nat)
      requires Planned(s, plan)
      requires View(s) && sndBuf == s.sndBuf && xmit == s.xmit && dead == s.dead
      requires Sendables(s.sndBuf, cfg.Mss()) && Advertised(wnd) && Buffered(start, cur0)
      modifies this`sndBuf, this`xmit, this`dead, this`output, buffer
      ensures Abs() == old(Abs()).(sndBuf := Rest(plan, 0).buf, xmit := xmit, dead := dead)
      ensures |sndBuf| == |old(sndBuf)| && Counts(xmit, dead, lost, change) == Count(s, plan, |plan|)
      ensures output == Pending(cfg.mtu, old(output), cur0, Rest(plan, 0).pkts)
    {
      lost, change := SendDue(s, plan, wnd, start, cur0);
    }

    /** The second half of `ikcp_flush`: number, send and resend data. */
    method WriteData(ghost f: Kcb, ghost plan: seq<Outcome>, ghost eff: u32, wnd: u16, win: u32, start: nat,
                     ghost cur0: Datagram)
      returns (lost: bool, change: nat)
      requires Counted() && Fits() && Advertised(wnd) && Buffered(start, cur0) && win == eff
      requires f == Fill(Wrap32, Abs(), eff) && Planned(f, plan) && Sendables(Rest(plan, 0).buf, cfg.Mss())
      modifies this`output, buffer
      modifies this`sndQueue, this`nsndQue, this`sndBuf, this`nsndBuf, this`sndNxt, this`xmit, this`dead
      ensures Counted() && Fits()
      ensures Abs() == f.(sndBuf := Rest(plan, 0).buf, xmit := xmit, dead := dead)
      ensures Counts(xmit, dead, lost, change) == Count(f, plan, |plan|)
      ensures output == Pending(cfg.mtu, old(output), cur0, Rest(plan, 0).pkts)
    {
      FillWindow(wnd, win);
      assert View(f) && sndBuf == f.sndBuf && xmit == f.xmit && dead == f.dead;
      lost, change := SendData(f, plan, wnd, start, cur0);
      assert Counted() && Fits();
    }

    method EffWnd() returns (win: u32)
      ensures win == Engine.EffWnd(Abs())
    {
      win := Min(cfg.sndWnd, rmtWnd);
      if !cfg.nocwnd { win := Min(cong.cwnd, win); }
    }

    /** And the rest of the control block is as it was. */
    method WriteReplies(ghost s: Kcb, wnd: u16, ghost pr: Probe, ghost rest: seq<Pkt>)
      returns (ptr: nat, ghost cur: Datagram)
      requires AcksValid() && buffer.Length == (cfg.mtu + OVERHEAD) * 3
      requires s.rmtWnd == rmtWnd && s.clock == clock && s.probe == probe && pr == ProbeTimer(s)
      modifies this`output, this`ack, this`acks, this`probe, buffer
      ensures AcksValid() && ack.list == old(ack.list) && Buffered(ptr, cur)
      ensures Abs() == old(Abs()).(acks := [], probe := pr.(ask := false, tell := false))
      ensures var h := Pkt(cfg.conv, CMD_ACK, 0, wnd, 0, 0, rcvNxt, []);
              Pending(cfg.mtu, output, cur, rest) ==
              Pending(cfg.mtu, old(output), [], AckPkts(h, old(acks)) + (ProbePkts(AfterAcks(h, old(acks)), pr) + rest))
    {
      ptr, cur := WriteControl(s, wnd, pr, rest);
    }

    /** The first half of `ikcp_flush`: acknowledgements and probes. */
    method StartFlush(ghost s: Kcb, ghost c: Course) returns (wnd: u16, ptr: nat, ghost cur: Datagram)
      requires Valid() && Abs() == s && Starts(s, c)
      modifies this`output, this`ack, this`acks, this`probe, buffer
      ensures Valid() && ack.list == old(ack.list)
      ensures Advertised(wnd) && Buffered(ptr, cur) && Abs() == c.cleared
      ensures Pending(cfg.mtu, output, cur, Rest(c.plan, 0).pkts) == Pending(cfg.mtu, old(output), [], c.Written(s))
    {
      assert At(0);
      wnd := WndUnused();
      ControlIs(s, c.probe, wnd, Rest(c.plan, 0).pkts);
      ptr, cur := WriteReplies(s, wnd, c.probe, Rest(c.plan, 0).pkts);
    }

    /** The second half, and the window update. */
    method SendAndShrink(ghost c: Course, wnd: u16, start: nat, ghost cur0: Datagram)
      requires Counted() && Fits() && Advertised(wnd) && Buffered(start, cur0) && Abs() == c.cleared && Continues(c)
      modifies this`output, buffer
      modifies this`sndQueue, this`nsndQue, this`sndBuf, this`nsndBuf, this`sndNxt, this`xmit, this`dead, this`cong
      ensures Counted() && Fits() && Abs() == c.End()
      ensures output == Pending(cfg.mtu, old(output), cur0, Rest(c.plan, 0).pkts)
    {
      assert At(0);
      var win := EffWnd();
      var lost, change := WriteData(c.filled, c.plan, c.wnd, wnd, win, start, cur0);
      ShrinkWindow(c.filled, Count(c.filled, c.plan, |c.plan|), c.wnd, win, change > 0, lost);
    }

    /** It leaves the acknowledgement array alone. */
    method FinishFlush(ghost c: Course, wnd: u16, start: nat, ghost cur0: Datagram)
      requires Valid() && Advertised(wnd) && Buffered(start, cur0) && Abs() == c.cleared && Continues(c)
      modifies this`output, buffer
      modifies this`sndQueue, this`nsndQue, this`sndBuf, this`nsndBuf, this`sndNxt, this`xmit, this`dead, this`cong
      ensures Valid() && Abs() == c.End()
      ensures output == Pending(cfg.mtu, old(output), cur0, Rest(c.plan, 0).pkts)
    {
      SendAndShrink(c, wnd, start, cur0);
    }

    /** `ikcp_flush`, once updated. */
    method FlushUpdated(ghost c: Course)
      requires Valid() && Starts(Abs(), c) && Continues(c)
      modifies this`output, this`ack, this`acks, this`probe, buffer
      modifies this`sndQueue, this`nsndQue, this`sndBuf, this`nsndBuf, this`sndNxt, this`xmit, this`dead, this`cong
      ensures Valid() && ack.list == old(ack.list) && Abs() == c.End()
      ensures output == Pending(cfg.mtu, old(output), [], c.Written(old(Abs())))
    {
      var wnd, ptr;
      ghost var cur;
      wnd, ptr, cur := StartFlush(Abs(), c);
      FinishFlush(c, wnd, ptr, cur);
    }

    /** `ikcp_flush`. */
    method Flush()
      requires Valid()
      modifies this`output, this`ack, this`acks, this`probe, buffer
      modifies this`sndQueue, this`nsndQue, this`sndBuf, this`nsndBuf, this`sndNxt, this`xmit, this`dead, this`cong
      ensures Valid() && ack.list == old(ack.list) && Abs() == Engine.Flush(Wrap32, old(Abs())).k
      ensures output == old(output) + Map(Encode, Engine.Flush(Wrap32, old(Abs())).out)
    {
      if clock.updated {
        ghost var c := FlushIs(Abs());
        FlushUpdated(c);
      }
    }

    /** The clock part of `ikcp_update`. */
    method Advance(now: u32) returns (due: bool)
      modifies this`clock
      ensures (clock, due) == Tick(old(clock), cfg.interval, now)
      ensures clock.current == now && clock.updated
      ensures clock.tsFlush ==
              if Timers.InTime(old(clock), cfg.interval, now) then U32(old(clock).tsFlush + cfg.interval)
              else if due then U32(now + cfg.interval) else old(clock).tsFlush
    {
      Timers.NextFlushTime(clock, cfg.interval, now);
      var tsFlush := clock.tsFlush;
      if !clock.updated {
        tsFlush := now;
      }
      var slap := Itimediff(now, tsFlush);
      if slap >= 10000 || slap < -10000 {
        tsFlush := now;
        slap := 0;
      }
      due := slap >= 0;
      if due {
        tsFlush := U32(tsFlush + cfg.interval);
        if Itimediff(now, tsFlush) >= 0 {
          tsFlush := U32(now + cfg.interval);
        }
      }
      clock := Clock(now, tsFlush, true);
    }

    /** `ikcp_update`. */
    method Update(now: u32)
      requires Valid()
      modifies this`clock, this`output, this`ack, this`acks, this`probe, buffer
      modifies this`sndQueue, this`nsndQue, this`sndBuf, this`nsndBuf, this`sndNxt, this`xmit, this`dead, this`cong
      ensures Valid() && ack.list == old(ack.list) && Abs() == Engine.Update(Wrap32, old(Abs()), now).k
      ensures output == old(output) + Map(Encode, Engine.Update(Wrap32, old(Abs()), now).out)
      ensures clock.current == now && clock.updated
      ensures Timers.InTime(old(clock), cfg.interval, now) ==>
                clock.tsFlush == U32(old(clock).tsFlush + cfg.interval)
    {
      var due := Advance(now);
      if due {
        Flush();
      }
    }

    /** `ikcp_check`. */
    method Check(now: u32) returns (at: u32)
      requires Valid()
      ensures at == Engine.Check(Abs(), now)
    {
      var tsFlush := clock.tsFlush;
      if !clock.updated {
        return now;
      }
      if Itimediff(now, tsFlush) >= 10000 || Itimediff(now, tsFlush) < -10000 {
        tsFlush := now;
      }
      if Itimediff(now, tsFlush) >= 0 {
        return now;
      }
      var tmFlush := Itimediff(tsFlush, now);
      var tmPacket := ScanDeadlines(sndBuf, now);
      if tmPacket == 0 {
        return now;
      }
      var minimal := U32(if tmPacket < tmFlush then tmPacket else tmFlush);
      if minimal >= cfg.interval { minimal := cfg.interval; }
      at := U32(now + minimal);
    }
  }
}
