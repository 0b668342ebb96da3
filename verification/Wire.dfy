/** The byte format of segments, and `ikcp_input` on raw bytes. */
module Wire {
  import opened Words
  import opened Seqs
  import opened Engine

  // ---- Little-endian fields -------------------------------------------------------------

  function Encode16(w: u16): seq<byte> { [w % 0x100, w / 0x100] }

  function Encode32(l: u32): seq<byte> {
    [l % 0x100, l / 0x100 % 0x100, l / 0x1_0000 % 0x100, l / 0x100_0000]
  }

  function Decode16(b: seq<byte>, i: nat): u16
    requires i + 2 <= |b|
  {
    b[i] as int + 0x100 * (b[i + 1] as int)
  }

  function Decode32(b: seq<byte>, i: nat): u32
    requires i + 4 <= |b|
  {
    b[i] as int + 0x100 * (b[i + 1] as int) + 0x1_0000 * (b[i + 2] as int) + 0x100_0000 * (b[i + 3] as int)
  }

  /** A number is made of its four base-256 digits. */
  lemma {:induction false} Digits(l: u32)
    ensures l == l % 0x100 + 0x100 * (l / 0x100 % 0x100)
                 + 0x1_0000 * (l / 0x1_0000 % 0x100) + 0x100_0000 * (l / 0x100_0000)
  {
    DropDigit(l, 0x100, l / 0x100, l / 0x1_0000);
    DropDigit(l, 0x1_0000, l / 0x1_0000, l / 0x100_0000);
  }

  /** Dividing by 256 once more drops one digit. */
  lemma {:induction false} DropDigit(l: u32, m: int, q: int, r: int)
    requires (m == 0x100 && q == l / 0x100 && r == l / 0x1_0000)
             || (m == 0x1_0000 && q == l / 0x1_0000 && r == l / 0x100_0000)
    ensures q == 0x100 * r + q % 0x100
  {
    if m == 0x100 {
      assert 0 <= l - 0x100 * q < 0x100 && 0 <= l - 0x1_0000 * r < 0x1_0000;
    } else {
      assert 0 <= l - 0x1_0000 * q < 0x1_0000 && 0 <= l - 0x100_0000 * r < 0x100_0000;
    }
    assert 0 <= q - 0x100 * r < 0x100;
  }

  lemma {:induction false} Field32(l: u32, b: seq<byte>, i: nat)
    requires i + 4 <= |b| && b[i..i + 4] == Encode32(l)
    ensures Decode32(b, i) == l
  {
    assert b[i] == b[i..i + 4][0] && b[i + 1] == b[i..i + 4][1];
    assert b[i + 2] == b[i..i + 4][2] && b[i + 3] == b[i..i + 4][3];
    Digits(l);
  }

  lemma {:induction false} Field16(w: u16, b: seq<byte>, i: nat)
    requires i + 2 <= |b| && b[i..i + 2] == Encode16(w)
    ensures Decode16(b, i) == w
  {
    assert b[i] == b[i..i + 2][0] && b[i + 1] == b[i..i + 2][1];
  }

  // ---- Segments -------------------------------------------------------------------------

  /** What the 24-byte header can carry. */
  predicate Encodable(p: Pkt) {
    0 <= p.sn < M32 && 0 <= p.una < M32 && |p.data| < H32
  }

  predicate AllEncodable(d: Datagram) {
    forall p :: p in d ==> Encodable(p)
  }

  /** The header fields as byte strings. */
  datatype Fields = Fields(conv: seq<byte>, cmdFrg: seq<byte>, wnd: seq<byte>, ts: seq<byte>, sn: seq<byte>,
                           una: seq<byte>, len: seq<byte>)
  {
    function Bytes(): seq<byte> { conv + cmdFrg + wnd + ts + sn + una + len }

    ghost predicate At(b: seq<byte>) {
      |b| >= 24 && b[0..4] == conv && b[4..6] == cmdFrg && b[6..8] == wnd && b[8..12] == ts && b[12..16] == sn
      && b[16..20] == una && b[20..24] == len
    }
  }

  function FieldsOf(p: Pkt): Fields {
    Fields(Encode32(p.conv), [p.cmd, p.frg], Encode16(p.wnd), Encode32(p.ts), Encode32(U32(p.sn)),
           Encode32(U32(p.una)), Encode32(U32(|p.data|)))
  }

  function EncodeHeader(p: Pkt): (b: seq<byte>)
    ensures |b| == OVERHEAD
  {
    FieldsOf(p).Bytes()
  }

  function Encode(d: Datagram): seq<byte> {
    if d == [] then [] else EncodeHeader(d[0]) + d[0].data + Encode(d[1..])
  }

  /** The segment whose header starts the buffer. */
  function DecodePkt(b: seq<byte>): Pkt
    requires |b| >= OVERHEAD && |b| - OVERHEAD >= Decode32(b, 20)
  {
    Pkt(Decode32(b, 0), b[4], b[5], Decode16(b, 6), Decode32(b, 8), Decode32(b, 12), Decode32(b, 16),
        b[OVERHEAD..OVERHEAD + Decode32(b, 20)])
  }

  lemma {:induction false} Slices(a: seq<byte>, b: seq<byte>, c: seq<byte>, d: seq<byte>, e: seq<byte>, f: seq<byte>,
                                  g: seq<byte>, rest: seq<byte>)
    requires |a| == |d| == |e| == |f| == |g| == 4 && |b| == |c| == 2
    ensures var s := a + b + c + d + e + f + g + rest;
            && s[0..4] == a && s[4..6] == b && s[6..8] == c && s[8..12] == d && s[12..16] == e
            && s[16..20] == f && s[20..24] == g && s[24..] == rest
  {
  }

  lemma {:induction false} FieldsAt(f: Fields, rest: seq<byte>)
    requires |f.conv| == |f.ts| == |f.sn| == |f.una| == |f.len| == 4 && |f.cmdFrg| == |f.wnd| == 2
    ensures f.At(f.Bytes() + rest) && (f.Bytes() + rest)[24..] == rest
  {
    Slices(f.conv, f.cmdFrg, f.wnd, f.ts, f.sn, f.una, f.len, rest);
  }

  lemma {:induction false} FieldsPlain(p: Pkt)
    requires Encodable(p)
    ensures var f := FieldsOf(p);
            f.sn == Encode32(p.sn) && f.una == Encode32(p.una) && f.len == Encode32(|p.data|)
  {
    U32Small(p.sn);
    U32Small(p.una);
    U32Small(|p.data|);
  }

  lemma {:induction false} DecodeFields(f: Fields, p: Pkt, b: seq<byte>)
    requires f.At(b) && f.conv == Encode32(p.conv) && f.cmdFrg == [p.cmd, p.frg] && f.wnd == Encode16(p.wnd)
    requires 0 <= p.sn < M32 && 0 <= p.una < M32 && |p.data| < M32
    requires f.ts == Encode32(p.ts) && f.sn == Encode32(p.sn) && f.una == Encode32(p.una) && f.len == Encode32(|p.data|)
    ensures Decode32(b, 0) == p.conv && b[4] == p.cmd && b[5] == p.frg
    ensures Decode16(b, 6) == p.wnd && Decode32(b, 8) == p.ts
    ensures Decode32(b, 12) == p.sn && Decode32(b, 16) == p.una && Decode32(b, 20) == |p.data|
  {
    assert b[4] == b[4..6][0] && b[5] == b[4..6][1];
    Field32(p.conv, b, 0);
    Field16(p.wnd, b, 6);
    Field32(p.ts, b, 8);
    Field32(p.sn, b, 12);
    Field32(p.una, b, 16);
    Field32(|p.data|, b, 20);
  }

  lemma {:induction false} Payload(b: seq<byte>, data: seq<byte>, rest: seq<byte>)
    requires |b| >= 24 && b[24..] == data + rest
    ensures |b| == 24 + |data| + |rest| && b[24..24 + |data|] == data && b[24 + |data|..] == rest
  {
    assert b[24..24 + |data|] == b[24..][..|data|];
    assert b[24 + |data|..] == b[24..][|data|..];
  }

  /** Decoding what was encoded gives back the segment and leaves the rest. */
  lemma {:induction false} DecodeEncode(p: Pkt, rest: seq<byte>)
    requires Encodable(p)
    ensures var b := EncodeHeader(p) + p.data + rest;
            && |b| == OVERHEAD + |p.data| + |rest| && Decode32(b, 0) == p.conv && b[4] == p.cmd
            && Decode32(b, 20) == |p.data| && DecodePkt(b) == p && b[OVERHEAD + |p.data|..] == rest
  {
    var b := EncodeHeader(p) + (p.data + rest);
    Assoc(EncodeHeader(p), p.data, rest);
    FieldsAt(FieldsOf(p), p.data + rest);
    FieldsPlain(p);
    DecodeFields(FieldsOf(p), p, b);
    Payload(b, p.data, rest);
  }

  // ---- ikcp_input -----------------------------------------------------------------------

  datatype InputOut = InputOut(k: Kcb, sc: Scan, ret: int)

  /** The loop of `ikcp_input`: each segment is processed before the next header is looked at. */
  function InputLoop(k: Kcb, sc: Scan, b: seq<byte>): InputOut
    decreases |b|
  {
    if |b| < OVERHEAD then InputOut(k, sc, 0)
    else if Decode32(b, 0) != k.cfg.conv then InputOut(k, sc, -1)
    else if |b| - OVERHEAD < Decode32(b, 20) || I32(Decode32(b, 20)) < 0 then InputOut(k, sc, -2)
    else if !KnownCmd(b[4]) then InputOut(k, sc, -3)
    else
      var p := DecodePkt(b);
      InputLoop(InputPkt(Wrap32, k, p), ScanPkt(Wrap32, sc, p), b[OVERHEAD + |p.data|..])
  }

  datatype Returned = Returned(k: Kcb, ret: int)

  function InputRaw(k: Kcb, b: seq<byte>): Returned {
    if |b| < OVERHEAD then Returned(k, -1)
    else
      var r := InputLoop(k, NoAck, b);
      if r.ret != 0 then Returned(r.k, r.ret)
      else Returned(InputFinish(Wrap32, k.sndUna, r.k, r.sc), 0)
  }

  predicate Sendable(conv: u32, p: Pkt) {
    p.conv == conv && KnownCmd(p.cmd)
  }

  predicate AllSendable(conv: u32, d: Datagram) {
    forall p :: p in d ==> Sendable(conv, p)
  }

  lemma {:induction false} LoopEncoded(k: Kcb, sc: Scan, d: Datagram)
    requires AllEncodable(d) && AllSendable(k.cfg.conv, d)
    ensures InputLoop(k, sc, Encode(d)) == InputOut(InputAll(Wrap32, k, d), ScanAll(Wrap32, sc, d), 0)
    decreases |d|
  {
    if d != [] {
      var p := d[0];
      assert p in d;
      DecodeEncode(p, Encode(d[1..]));
      InputPktCfg(Wrap32, k, p);
      LoopEncoded(InputPkt(Wrap32, k, p), ScanPkt(Wrap32, sc, p), d[1..]);
    }
  }

  /** Framing round trip: the bytes of a datagram are accepted, and processed exactly as its list
      of segments. */
  lemma {:induction false} InputEncoded(k: Kcb, d: Datagram)
    requires d != [] && AllEncodable(d) && AllSendable(k.cfg.conv, d)
    ensures InputRaw(k, Encode(d)) == Returned(Input(Wrap32, k, d), 0)
  {
    LoopEncoded(k, NoAck, d);
    assert d[0] in d;
    assert |Encode(d)| >= OVERHEAD;
  }

  // ---- ikcp_input on any bytes --------------------------------------------------------------

  lemma {:induction false} Rebuild32(b: seq<byte>, i: nat)
    requires i + 4 <= |b|
    ensures b[i..i + 4] == Encode32(Decode32(b, i))
  {
    var l: int, b0: int, b1: int, b2: int, b3: int := Decode32(b, i), b[i], b[i + 1], b[i + 2], b[i + 3];
    assert l % 0x100 == b0 && l / 0x100 == b1 + 0x100 * (b2 + 0x100 * b3);
    assert l / 0x1_0000 == b2 + 0x100 * b3 && l / 0x100_0000 == b3;
  }

  lemma {:induction false} Rebuild16(b: seq<byte>, i: nat)
    requires i + 2 <= |b|
    ensures b[i..i + 2] == Encode16(Decode16(b, i))
  {
  }

  /** Cutting a byte string at some places. */
  lemma {:induction false} Cuts(b: seq<byte>)
    requires |b| >= OVERHEAD
    ensures b[0..4] + b[4..6] + b[6..8] + b[8..12] + b[12..16] + b[16..20] + b[20..24] + b[24..] == b
  {
  }

  /** Encoding what was decoded gives back the bytes. */
  lemma {:induction false} EncodeDecode(b: seq<byte>)
    requires |b| >= OVERHEAD && |b| - OVERHEAD >= Decode32(b, 20)
    ensures var p := DecodePkt(b);
            && EncodeHeader(p) + p.data + b[OVERHEAD + |p.data|..] == b && |p.data| == Decode32(b, 20)
            && 0 <= p.sn < M32 && 0 <= p.una < M32
  {
    var p := DecodePkt(b);
    Rebuild32(b, 0);
    Rebuild16(b, 6);
    Rebuild32(b, 8);
    Rebuild32(b, 12);
    Rebuild32(b, 16);
    Rebuild32(b, 20);
    U32Small(p.sn);
    U32Small(p.una);
    U32Small(|p.data|);
    assert b[4..6] == [b[4], b[5]];
    Cuts(b);
    assert p.data + b[OVERHEAD + |p.data|..] == b[24..];
    Assoc(EncodeHeader(p), p.data, b[OVERHEAD + |p.data|..]);
  }

  /** Why processing stops at these bytes, and the code for it: not enough for a header, another
      conversation, a length that does not fit or has its top bit set, an unknown command. */
  ghost predicate StopsWith(conv: u32, b: seq<byte>, code: int) {
    if |b| < 24 then code == 0
    else if Decode32(b, 0) != conv then code == -1
    else if Decode32(b, 20) > |b| - 24 || Decode32(b, 20) >= 0x8000_0000 then code == -2
    else code == -3 && !(81 <= b[4] <= 84)
  }

  /** A segment of this conversation with a known command and all its data starts the bytes. */
  predicate WellFormed(conv: u32, b: seq<byte>) {
    && |b| >= OVERHEAD && Decode32(b, 0) == conv && Decode32(b, 20) <= |b| - OVERHEAD && Decode32(b, 20) < H32
    && KnownCmd(b[4])
  }

  lemma {:induction false} LoopStops(k: Kcb, sc: Scan, b: seq<byte>)
    requires !WellFormed(k.cfg.conv, b)
    ensures InputLoop(k, sc, b) == InputOut(k, sc, InputLoop(k, sc, b).ret)
    ensures StopsWith(k.cfg.conv, b, InputLoop(k, sc, b).ret)
  {
  }

  lemma {:induction false} LoopGoesOn(k: Kcb, sc: Scan, b: seq<byte>, p: Pkt)
    requires WellFormed(k.cfg.conv, b) && p == DecodePkt(b)
    ensures InputLoop(k, sc, b) ==
            InputLoop(InputPkt(Wrap32, k, p), ScanPkt(Wrap32, sc, p), b[OVERHEAD + Decode32(b, 20)..])
  {
    EncodeDecode(b);
  }

  /** p, then d, then what is left. */
  lemma {:induction false} EncodeCons(p: Pkt, d: Datagram, rest: seq<byte>, b: seq<byte>)
    requires b == EncodeHeader(p) + p.data + (Encode(d) + rest)
    ensures b == Encode([p] + d) + rest
  {
    assert ([p] + d)[1..] == d;
    Assoc(EncodeHeader(p) + p.data, Encode(d), rest);
  }

  lemma {:induction false} InputCons(k: Kcb, sc: Scan, p: Pkt, d: Datagram)
    ensures InputAll(Wrap32, k, [p] + d) == InputAll(Wrap32, InputPkt(Wrap32, k, p), d)
    ensures ScanAll(Wrap32, sc, [p] + d) == ScanAll(Wrap32, ScanPkt(Wrap32, sc, p), d)
  {
    assert ([p] + d)[1..] == d;
  }

  lemma {:induction false} LoopAnyBytes(k: Kcb, sc: Scan, b: seq<byte>)
    returns (d: Datagram, rest: seq<byte>, code: int)
    ensures b == Encode(d) + rest && AllEncodable(d) && AllSendable(k.cfg.conv, d) && StopsWith(k.cfg.conv, rest, code)
    ensures InputLoop(k, sc, b) == InputOut(InputAll(Wrap32, k, d), ScanAll(Wrap32, sc, d), code)
    decreases |b|
  {
    if !WellFormed(k.cfg.conv, b) {
      d, rest, code := [], b, InputLoop(k, sc, b).ret;
      LoopStops(k, sc, b);
      assert [] + b == b;
    } else {
      var p := DecodePkt(b);
      EncodeDecode(b);
      LoopGoesOn(k, sc, b, p);
      InputPktCfg(Wrap32, k, p);
      var more;
      more, rest, code := LoopAnyBytes(InputPkt(Wrap32, k, p), ScanPkt(Wrap32, sc, p), b[OVERHEAD + Decode32(b, 20)..]);
      d := [p] + more;
      EncodeCons(p, more, rest, b);
      InputCons(k, sc, p, more);
    }
  }

  /** Any bytes at all are the encoding of a list of well-formed segments of this conversation, and a rest
      at which processing stops.  The segments are processed; the fast acknowledgement and the growth of
      the window at the end happen only when nothing was wrong with the rest. */
  lemma {:induction false} InputAnyBytes(k: Kcb, b: seq<byte>) returns (d: Datagram, rest: seq<byte>, code: int)
    ensures b == Encode(d) + rest && AllEncodable(d) && AllSendable(k.cfg.conv, d) && StopsWith(k.cfg.conv, rest, code)
    ensures InputRaw(k, b) == if |b| < 24 then Returned(k, -1)
                              else if code == 0 then Returned(Input(Wrap32, k, d), 0)
                              else Returned(InputAll(Wrap32, k, d), code)
  {
    d, rest, code := LoopAnyBytes(k, NoAck, b);
  }

  lemma {:induction false} EncodeSize(d: Datagram)
    ensures |Encode(d)| == Size(d)
  {
    if d != [] {
      EncodeSize(d[1..]);
    }
  }

  lemma {:induction false} EncodeAppend(d: Datagram, e: Datagram)
    ensures Encode(d + e) == Encode(d) + Encode(e)
  {
    if d == [] {
      assert d + e == e;
    } else {
      assert (d + e)[1..] == d[1..] + e;
      EncodeAppend(d[1..], e);
      Assoc(EncodeHeader(d[0]) + d[0].data, Encode(d[1..]), Encode(e));
    }
  }

  // ---- Packing --------------------------------------------------------------------------

  function Flatten(ds: seq<Datagram>): seq<Pkt> {
    if ds == [] then [] else ds[0] + Flatten(ds[1..])
  }

  lemma {:induction false} FlattenAppend(a: seq<Datagram>, b: seq<Datagram>)
    ensures Flatten(a + b) == Flatten(a) + Flatten(b)
  {
    if a == [] {
      assert a + b == b;
    } else {
      assert (a + b)[1..] == a[1..] + b;
      FlattenAppend(a[1..], b);
      Assoc(a[0], Flatten(a[1..]), Flatten(b));
    }
  }

  lemma {:induction false} SizeSnoc(d: Datagram, p: Pkt)
    ensures Size(d + [p]) == Size(d) + PktSize(p)
  {
    if d == [] {
      assert d + [p] == [p];
    } else {
      SizeSnoc(d[1..], p);
      assert (d + [p])[1..] == d[1..] + [p];
    }
  }

  /** Packing keeps every packet in order and fills no datagram beyond the MTU. */
  lemma {:induction false} PackFits(mtu: nat, cur: Datagram, pkts: seq<Pkt>)
    requires Size(cur) <= mtu && forall p :: p in pkts ==> PktSize(p) <= mtu
    ensures forall d :: d in Pack(mtu, cur, pkts) ==> Size(d) <= mtu
    ensures Flatten(Pack(mtu, cur, pkts)) == cur + pkts
    decreases |pkts|
  {
    if pkts == [] {
      assert Flatten([cur]) == cur + Flatten([]);
    } else {
      var p := pkts[0];
      assert p in pkts && pkts == [p] + pkts[1..];
      assert Size([p]) == PktSize(p) by { assert [p][1..] == []; }
      if Size(cur) + PktSize(p) > mtu {
        PackFits(mtu, [p], pkts[1..]);
        var done := if cur == [] then [] else [cur];
        FlattenAppend(done, Pack(mtu, [p], pkts[1..]));
        assert Flatten([cur]) == cur + Flatten([]);
      } else {
        SizeSnoc(cur, p);
        PackFits(mtu, cur + [p], pkts[1..]);
        Assoc(cur, [p], pkts[1..]);
      }
    }
  }

  /** No datagram had room for the packet that starts the next one. */
  predicate Tight(mtu: nat, ds: seq<Datagram>) {
    |ds| >= 2 ==> ds[1] != [] && Size(ds[0]) + PktSize(ds[1][0]) > mtu && Tight(mtu, ds[1..])
  }

  /** Packing sends no datagram early. */
  lemma {:induction false} PackTight(mtu: nat, cur: Datagram, pkts: seq<Pkt>)
    ensures var ds := Pack(mtu, cur, pkts); Tight(mtu, ds) && (cur != [] ==> ds != [] && cur <= ds[0])
    decreases |pkts|
  {
    if pkts != [] {
      if Size(cur) + PktSize(pkts[0]) > mtu {
        var rest := Pack(mtu, [pkts[0]], pkts[1..]);
        PackTight(mtu, [pkts[0]], pkts[1..]);
        if cur == [] {
          assert [] + rest == rest;
        } else {
          TightCons(mtu, cur, rest, pkts[0]);
        }
      } else {
        PackTight(mtu, cur + [pkts[0]], pkts[1..]);
      }
    }
  }

  lemma {:induction false} TightCons(mtu: nat, d: Datagram, rest: seq<Datagram>, p: Pkt)
    requires rest != [] && [p] <= rest[0] && Tight(mtu, rest) && Size(d) + PktSize(p) > mtu
    ensures Tight(mtu, [d] + rest)
  {
    assert ([d] + rest)[1..] == rest;
    assert rest[0][0] == [p][0];
  }
}
