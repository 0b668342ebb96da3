/** The queue scans of the engine on unbounded sequence numbers.  Each one stops early; on
    buffers sorted by sequence number it still computes the full filter, update or insertion
    that it abbreviates. */
module Scans {
  import opened Words
  import opened Engine
  import opened Seqs

  ghost predicate SortedSegs(buf: seq<Seg>) {
    forall i, j :: 0 <= i < j < |buf| ==> buf[i].pkt.sn < buf[j].pkt.sn
  }

  ghost predicate SortedPkts(buf: seq<Pkt>) {
    forall i, j :: 0 <= i < j < |buf| ==> buf[i].sn < buf[j].sn
  }

  function Filter(buf: seq<Seg>, keep: Seg -> bool): seq<Seg> {
    if buf == [] then []
    else (if keep(buf[0]) then [buf[0]] else []) + Filter(buf[1..], keep)
  }

  function AtLeast(sn: int): Seg -> bool { (g: Seg) => g.pkt.sn >= sn }

  function OtherThan(sn: int): Seg -> bool { (g: Seg) => g.pkt.sn != sn }

  lemma {:induction false} FilterAll(buf: seq<Seg>, keep: Seg -> bool)
    requires forall g :: g in buf ==> keep(g)
    ensures Filter(buf, keep) == buf
  {
    if buf != [] {
      FilterAll(buf[1..], keep);
    }
  }

  // ---- snd_buf --------------------------------------------------------------------------

  /** The cumulative acknowledgement removes exactly a prefix. */
  lemma {:induction false} ParseUnaSuffix(buf: seq<Seg>, una: int) returns (k: nat)
    requires SortedSegs(buf)
    ensures k <= |buf| && ParseUna(Ideal, buf, una) == buf[k..]
    ensures forall i :: 0 <= i < k ==> buf[i].pkt.sn < una
    ensures forall i :: k <= i < |buf| ==> una <= buf[i].pkt.sn
  {
    k := 0;
    if buf != [] && buf[0].pkt.sn < una {
      var n := ParseUnaSuffix(buf[1..], una);
      k := n + 1;
      forall i | k <= i < |buf| ensures una <= buf[i].pkt.sn { assert buf[i] == buf[1..][i - 1]; }
    }
  }

  /** A selective acknowledgement removes at most the one segment it names. */
  lemma {:induction false} AckScanOne(buf: seq<Seg>, sn: int) returns (k: nat)
    requires SortedSegs(buf)
    ensures k <= |buf|
    ensures k < |buf| ==> buf[k].pkt.sn == sn && AckScan(Ideal, buf, sn) == buf[..k] + buf[k + 1..]
    ensures k == |buf| ==> AckScan(Ideal, buf, sn) == buf && forall g :: g in buf ==> g.pkt.sn != sn
  {
    if buf == [] {
      k := 0;
    } else if sn == buf[0].pkt.sn {
      k := 0;
    } else if sn < buf[0].pkt.sn {
      k := |buf|;
    } else {
      var n := AckScanOne(buf[1..], sn);
      k := n + 1;
      if k < |buf| {
        ConsSlice(buf, n);
        ConsSlice(buf, k);
        Assoc([buf[0]], buf[1..][..n], buf[k + 1..]);
      } else {
        forall g | g in buf ensures g.pkt.sn != sn { assert g == buf[0] || g in buf[1..]; }
      }
    }
  }

  /** An acknowledgement of number sn, for a sending at time ts, counts against segment i: the segment
      has another number, no segment up to it has a greater one, and it was sent no later. */
  ghost predicate CountsAgainst(ar: Arith, buf: seq<Seg>, sn: int, ts: u32, i: nat)
    requires i < |buf|
  {
    && (forall j :: 0 <= j <= i ==> ar.Diff(sn, buf[j].pkt.sn) >= 0)
    && sn != buf[i].pkt.sn && Itimediff(ts, buf[i].pkt.ts) >= 0
  }

  /** The segment with its counter raised by one when an acknowledgement counts against it. */
  function Raised(g: Seg, counts: bool): Seg { if counts then g.(fastack := U32(g.fastack + 1)) else g }

  /** Exactly those segments have their counters raised by one, and nothing else changes. */
  ghost predicate CountsRaised(ar: Arith, buf: seq<Seg>, sn: int, ts: u32, r: seq<Seg>) {
    && |r| == |buf|
    && forall i :: 0 <= i < |buf| ==> r[i] == Raised(buf[i], CountsAgainst(ar, buf, sn, ts, i))
  }

  lemma {:induction false} FastackScanRaises(ar: Arith, buf: seq<Seg>, sn: int, ts: u32)
    ensures CountsRaised(ar, buf, sn, ts, FastackScan(ar, buf, sn, ts))
  {
    if buf != [] && ar.Diff(sn, buf[0].pkt.sn) >= 0 {
      FastackScanRaises(ar, buf[1..], sn, ts);
      RaisedCons(ar, buf, sn, ts, CountFastack(buf[0], sn, ts), FastackScan(ar, buf[1..], sn, ts));
    }
  }

  lemma {:induction false} RaisedCons(ar: Arith, buf: seq<Seg>, sn: int, ts: u32, g: Seg, rest: seq<Seg>)
    requires buf != [] && ar.Diff(sn, buf[0].pkt.sn) >= 0 && CountsRaised(ar, buf[1..], sn, ts, rest)
    requires g == Raised(buf[0], sn != buf[0].pkt.sn && Itimediff(ts, buf[0].pkt.ts) >= 0)
    ensures CountsRaised(ar, buf, sn, ts, [g] + rest)
  {
    forall i | 0 <= i < |buf| ensures ([g] + rest)[i] == Raised(buf[i], CountsAgainst(ar, buf, sn, ts, i)) {
      if i > 0 {
        CountsLater(ar, buf, sn, ts, i);
        assert ([g] + rest)[i] == rest[i - 1] && buf[1..][i - 1] == buf[i];
      }
    }
  }

  lemma {:induction false} CountsLater(ar: Arith, buf: seq<Seg>, sn: int, ts: u32, i: nat)
    requires 0 < i < |buf| && ar.Diff(sn, buf[0].pkt.sn) >= 0
    ensures CountsAgainst(ar, buf, sn, ts, i) <==> CountsAgainst(ar, buf[1..], sn, ts, i - 1)
  {
    assert forall j :: 0 <= j < i ==> buf[1..][j] == buf[j + 1];
    if CountsAgainst(ar, buf[1..], sn, ts, i - 1) {
      forall j | 0 <= j <= i ensures ar.Diff(sn, buf[j].pkt.sn) >= 0 {
        if j > 0 { assert buf[1..][j - 1] == buf[j]; }
      }
    }
  }

  /** On a sorted snd_buf these are the segments with smaller numbers, sent no later. */
  lemma {:induction false} FastackScanAt(buf: seq<Seg>, sn: int, ts: u32)
    requires SortedSegs(buf)
    ensures var r := FastackScan(Ideal, buf, sn, ts);
            |r| == |buf|
            && forall i :: 0 <= i < |buf| ==>
                 r[i] == Raised(buf[i], buf[i].pkt.sn < sn && Itimediff(ts, buf[i].pkt.ts) >= 0)
  {
    FastackScanRaises(Ideal, buf, sn, ts);
    forall i | 0 <= i < |buf|
      ensures CountsAgainst(Ideal, buf, sn, ts, i) <==> buf[i].pkt.sn < sn && Itimediff(ts, buf[i].pkt.ts) >= 0
    {
    }
  }

  lemma {:induction false} FilterCons(g: Seg, buf: seq<Seg>, keep: Seg -> bool)
    ensures Filter([g] + buf, keep) == (if keep(g) then [g] else []) + Filter(buf, keep)
  {
    assert ([g] + buf)[1..] == buf;
  }

  lemma {:induction false} FilterSplit(buf: seq<Seg>, k: nat, keep: Seg -> bool)
    requires k <= |buf|
    ensures Filter(buf, keep) == Filter(buf[..k], keep) + Filter(buf[k..], keep)
  {
    if k == 0 {
      assert buf[..0] == [] && buf[0..] == buf;
    } else {
      FilterSplit(buf[1..], k - 1, keep);
      ConsSlice(buf, k - 1);
      FilterCons(buf[0], buf[1..][..k - 1], keep);
      Assoc(if keep(buf[0]) then [buf[0]] else [], Filter(buf[1..][..k - 1], keep), Filter(buf[k..], keep));
    }
  }

  lemma {:induction false} FilterNone(buf: seq<Seg>, keep: Seg -> bool)
    requires forall g :: g in buf ==> !keep(g)
    ensures Filter(buf, keep) == []
  {
    if buf != [] {
      FilterNone(buf[1..], keep);
    }
  }

  /** The three early-exit scans are the full-queue operations they abbreviate. */
  lemma {:induction false} ScansAreFull(buf: seq<Seg>, sn: int, ts: u32)
    requires SortedSegs(buf)
    ensures ParseUna(Ideal, buf, sn) == Filter(buf, AtLeast(sn))
    ensures AckScan(Ideal, buf, sn) == Filter(buf, OtherThan(sn))
    ensures FastackScan(Ideal, buf, sn, ts) ==
            seq(|buf|, i requires 0 <= i < |buf| =>
              Raised(buf[i], buf[i].pkt.sn < sn && Itimediff(ts, buf[i].pkt.ts) >= 0))
  {
    ParseUnaIsFilter(buf, sn);
    AckScanIsFilter(buf, sn);
    FastackScanAt(buf, sn, ts);
  }

  lemma {:induction false} ParseUnaIsFilter(buf: seq<Seg>, una: int)
    requires SortedSegs(buf)
    ensures ParseUna(Ideal, buf, una) == Filter(buf, AtLeast(una))
  {
    var k := ParseUnaSuffix(buf, una);
    FilterSplit(buf, k, AtLeast(una));
    FilterNone(buf[..k], AtLeast(una));
    FilterAll(buf[k..], AtLeast(una));
  }

  lemma {:induction false} AckScanIsFilter(buf: seq<Seg>, sn: int)
    requires SortedSegs(buf)
    ensures AckScan(Ideal, buf, sn) == Filter(buf, OtherThan(sn))
  {
    var other := OtherThan(sn);
    var m := AckScanOne(buf, sn);
    if m == |buf| {
      FilterAll(buf, other);
    } else {
      FilterSplit(buf, m, other);
      FilterAll(buf[..m], other);
      assert Filter(buf[m..], other) == Filter(buf[m..][1..], other);
      assert buf[m..][1..] == buf[m + 1..];
      FilterAll(buf[m + 1..], other);
    }
  }

  // ---- rcv_buf --------------------------------------------------------------------------

  /** Insertion keeps the order: either the number is already there, or `p` lands between the
      smaller and the greater ones. */
  lemma {:induction false} InsertAt(buf: seq<Pkt>, p: Pkt) returns (k: nat)
    requires SortedPkts(buf)
    ensures k <= |buf|
    ensures forall i :: 0 <= i < k ==> buf[i].sn < p.sn
    ensures if k < |buf| && buf[k].sn == p.sn then Insert(Ideal, buf, p) == buf
            else Insert(Ideal, buf, p) == buf[..k] + [p] + buf[k..] && forall i :: k <= i < |buf| ==> p.sn < buf[i].sn
  {
    var n := |buf| - 1;
    if buf == [] || p.sn > buf[n].sn {
      k := |buf|;
      assert buf[..k] + [p] + buf[k..] == buf + [p];
    } else if buf[n].sn == p.sn {
      k := n;
    } else {
      k := InsertAt(buf[..n], p);
      SnocSlice(buf, k);
      if k < n && buf[k].sn == p.sn {
        assert buf[..n] + [buf[n]] == buf;
      } else {
        Assoc(buf[..k] + [p], buf[..n][k..], [buf[n]]);
        forall i | k <= i < |buf| ensures p.sn < buf[i].sn {
          if i < n { assert buf[..n][i] == buf[i]; }
        }
      }
    }
  }

  lemma {:induction false} InsertSorted(buf: seq<Pkt>, p: Pkt)
    requires SortedPkts(buf)
    ensures SortedPkts(Insert(Ideal, buf, p))
    ensures forall q :: q in Insert(Ideal, buf, p) ==> q in buf || (q == p && forall r :: r in buf ==> r.sn != p.sn)
    ensures forall q :: q in buf ==> q in Insert(Ideal, buf, p)
    ensures exists q :: q in Insert(Ideal, buf, p) && q.sn == p.sn
  {
    var k := InsertAt(buf, p);
    var r := Insert(Ideal, buf, p);
    if k < |buf| && buf[k].sn == p.sn {
      assert buf[k] in r;
    } else {
      assert r[k] == p;
      assert forall q :: q in buf ==> q in buf[..k] || q in buf[k..];
    }
  }

  /** Moving ready segments takes a run of consecutive numbers from the head of rcv_buf and
      stops only at a gap or at a full queue. */
  lemma {:induction false} MoveReadyRun(s: Kcb) returns (n: nat)
    ensures n <= |s.rcvBuf|
    ensures forall i :: 0 <= i < n ==> s.rcvBuf[i].sn == s.rcvNxt + i
    ensures MoveReady(Ideal, s) ==
            s.(rcvBuf := s.rcvBuf[n..], rcvQueue := s.rcvQueue + s.rcvBuf[..n], rcvNxt := s.rcvNxt + n)
    ensures n > 0 ==> |s.rcvQueue| + n <= s.cfg.rcvWnd
    ensures n < |s.rcvBuf| && s.rcvBuf[n].sn == s.rcvNxt + n ==> |s.rcvQueue| + n >= s.cfg.rcvWnd
    decreases |s.rcvBuf|
  {
    if s.rcvBuf != [] && s.rcvBuf[0].sn == s.rcvNxt && |s.rcvQueue| < s.cfg.rcvWnd {
      var s1 := MoveOne(Ideal, s);
      var m := MoveReadyRun(s1);
      n := m + 1;
      ConsSlice(s.rcvBuf, m);
      Assoc(s.rcvQueue, [s.rcvBuf[0]], s1.rcvBuf[..m]);
      forall i | 0 < i < n ensures s.rcvBuf[i].sn == s.rcvNxt + i {
        assert s.rcvBuf[i] == s1.rcvBuf[i - 1];
      }
    } else {
      n := 0;
      assert s.rcvQueue + s.rcvBuf[..0] == s.rcvQueue;
    }
  }

  // ---- snd_queue ------------------------------------------------------------------------

  /** The segments that n rounds of the filling loop append to snd_buf. */
  function NewSegs(h: Pkt, rto: u32, sn: int, queue: seq<Frag>, n: nat): seq<Seg>
    requires n <= |queue|
    decreases n
  {
    if n == 0 then [] else [NewSeg(h, rto, sn, queue[0])] + NewSegs(h, rto, sn + 1, queue[1..], n - 1)
  }

  lemma {:induction false} NewSegsAt(h: Pkt, rto: u32, sn: int, queue: seq<Frag>, n: nat)
    requires n <= |queue|
    ensures |NewSegs(h, rto, sn, queue, n)| == n
    ensures forall i :: 0 <= i < n ==> NewSegs(h, rto, sn, queue, n)[i] == NewSeg(h, rto, sn + i, queue[i])
    decreases n
  {
    if n > 0 {
      NewSegsAt(h, rto, sn + 1, queue[1..], n - 1);
    }
  }

  /** Filling the window numbers a prefix of snd_queue consecutively and stops only at the end
      of the queue or of the window. */
  lemma {:induction false} FillRun(s: Kcb, wnd: int) returns (n: nat)
    ensures n <= |s.sndQueue|
    ensures Fill(Ideal, s, wnd) ==
            s.(sndQueue := s.sndQueue[n..],
               sndBuf := s.sndBuf + NewSegs(DataHeader(s), s.rtt.rto, s.sndNxt, s.sndQueue, n),
               sndNxt := s.sndNxt + n)
    ensures n > 0 ==> s.sndNxt + n <= s.sndUna + wnd
    ensures n < |s.sndQueue| ==> s.sndNxt + n >= s.sndUna + wnd
    decreases |s.sndQueue|
  {
    if s.sndQueue != [] && s.sndNxt < s.sndUna + wnd {
      var g := NewSeg(DataHeader(s), s.rtt.rto, s.sndNxt, s.sndQueue[0]);
      var s1 := FillOne(Ideal, s);
      var m := FillRun(s1, wnd);
      n := m + 1;
      ConsSlice(s.sndQueue, m);
      assert DataHeader(s1) == DataHeader(s);
      Assoc(s.sndBuf, [g], NewSegs(DataHeader(s), s.rtt.rto, s1.sndNxt, s1.sndQueue, m));
    } else {
      n := 0;
      assert s.sndBuf + [] == s.sndBuf;
    }
  }

  /** The retransmission loop keeps every segment in place, changes only its stamps and timers,
      and sends exactly the segments that are due. */
  lemma {:induction false} FlushDataAt(s: Kcb, buf: seq<Seg>)
    ensures var d := FlushData(s, buf);
            |d.buf| == |buf|
            && (forall i :: 0 <= i < |buf| ==> d.buf[i] == FlushSeg(s, buf[i]))
            && (forall i :: 0 <= i < |buf| && !DueOf(s, buf[i]).Quiet? ==> d.buf[i].pkt in d.pkts)
            && (forall p :: p in d.pkts ==> exists i :: 0 <= i < |buf| && p == d.buf[i].pkt && !DueOf(s, buf[i]).Quiet?)
  {
    if buf != [] {
      var d := FlushData(s, buf);
      var rest := FlushData(s, buf[1..]);
      FlushDataAt(s, buf[1..]);
      forall p | p in d.pkts
        ensures exists i :: 0 <= i < |buf| && p == d.buf[i].pkt && !DueOf(s, buf[i]).Quiet?
      {
        if p in rest.pkts {
          var i :| 0 <= i < |buf[1..]| && p == rest.buf[i].pkt && !DueOf(s, buf[1..][i]).Quiet?;
          assert p == d.buf[i + 1].pkt && !DueOf(s, buf[i + 1]).Quiet?;
        } else {
          assert p == d.buf[0].pkt && !DueOf(s, buf[0]).Quiet?;
        }
      }
      forall i | 0 <= i < |buf|
        ensures d.buf[i] == FlushSeg(s, buf[i])
        ensures !DueOf(s, buf[i]).Quiet? ==> d.buf[i].pkt in d.pkts
      {
        if i > 0 {
          assert buf[i] == buf[1..][i - 1];
          assert d.buf[i] == rest.buf[i - 1];
        }
      }
    }
  }
}
