/** The round-trip estimator: it stays within the range of its samples without 32-bit overflow,
    and settles under a constant round-trip time. */
module Rto {
  import opened Words
  import opened Engine

  /** The estimator on unbounded integers. */
  function PlainSrtt(r: Rtt, rtt: int): int {
    if r.srtt == 0 then rtt else Max(1, (7 * r.srtt + rtt) / 8)
  }

  function PlainRttval(r: Rtt, rtt: int): int {
    if r.srtt == 0 then rtt / 2
    else (3 * r.rttval + (if rtt < r.srtt then r.srtt - rtt else rtt - r.srtt)) / 4
  }

  function PlainUpdate(cfg: Config, r: Rtt, rtt: int): Rtt {
    var srtt := PlainSrtt(r, rtt);
    var rttval := PlainRttval(r, rtt);
    Rtt(srtt, rttval, Bound(if cfg.nodelay == 0 then 100 else 30, srtt + Max(cfg.interval, 4 * rttval), 60000))
  }

  ghost predicate InRange(r: Rtt, top: int) {
    0 <= r.srtt <= Max(top, 1) && 0 <= r.rttval <= Max(top, 1)
  }

  const MAX_SAMPLE: int := 0x1000_0000

  lemma {:induction false} SrttOk(r: Rtt, rtt: int, top: int)
    requires InRange(r, top) && 0 <= rtt <= top < MAX_SAMPLE
    ensures NextSrtt(r, rtt) == PlainSrtt(r, rtt) && 0 <= PlainSrtt(r, rtt) <= Max(top, 1)
  {
    I32Small(7 * r.srtt + rtt);
  }

  lemma {:induction false} RttvalOk(r: Rtt, rtt: int, top: int)
    requires InRange(r, top) && 0 <= rtt <= top < MAX_SAMPLE
    ensures NextRttval(r, rtt) == PlainRttval(r, rtt) && 0 <= PlainRttval(r, rtt) <= Max(top, 1)
  {
    I32Small(rtt - r.srtt);
    I32Small(3 * r.rttval);
    I32Small(PlainRttval(r, rtt));
  }

  lemma {:induction false} RtoOk(cfg: Config, srtt: int, rttval: int)
    requires 0 <= srtt <= MAX_SAMPLE && 0 <= rttval <= MAX_SAMPLE
    ensures RtoOf(cfg, srtt, rttval) == Bound(cfg.MinRto(), srtt + Max(cfg.interval, 4 * rttval), RTO_MAX)
  {
    U32Small(4 * rttval);
    U32Small(srtt + Max(cfg.interval, 4 * rttval));
  }

  /** One sample: no 32-bit operation overflows and the estimates stay within the samples. */
  lemma {:induction false} SampleOk(cfg: Config, r: Rtt, rtt: int, top: int)
    requires InRange(r, top) && 0 <= rtt <= top < MAX_SAMPLE
    ensures UpdateAck(cfg, r, rtt) == PlainUpdate(cfg, r, rtt)
    ensures InRange(UpdateAck(cfg, r, rtt), top)
  {
    SrttOk(r, rtt, top);
    RttvalOk(r, rtt, top);
    RtoOk(cfg, PlainSrtt(r, rtt), PlainRttval(r, rtt));
  }

  lemma {:induction false} RtoRange(cfg: Config, r: Rtt, rtt: int)
    ensures cfg.MinRto() <= UpdateAck(cfg, r, rtt).rto <= RTO_MAX
  {
  }

  function Estimate(cfg: Config, samples: seq<int>): Rtt {
    if samples == [] then Rtt(0, 0, RTO_DEF)
    else UpdateAck(cfg, Estimate(cfg, samples[..|samples| - 1]), samples[|samples| - 1])
  }

  function PlainEstimate(cfg: Config, samples: seq<int>): Rtt {
    if samples == [] then Rtt(0, 0, RTO_DEF)
    else PlainUpdate(cfg, PlainEstimate(cfg, samples[..|samples| - 1]), samples[|samples| - 1])
  }

  /** Any number of samples up to `top`: the 32-bit estimator is the exact one, and bounded. */
  lemma {:induction false} EstimateOk(cfg: Config, samples: seq<int>, top: int)
    requires 0 <= top < MAX_SAMPLE && forall s :: s in samples ==> 0 <= s <= top
    ensures Estimate(cfg, samples) == PlainEstimate(cfg, samples)
    ensures InRange(Estimate(cfg, samples), top)
    ensures samples != [] ==> cfg.MinRto() <= Estimate(cfg, samples).rto <= RTO_MAX
  {
    if samples != [] {
      var n := |samples| - 1;
      assert samples[n] in samples;
      assert forall s :: s in samples[..n] ==> s in samples;
      EstimateOk(cfg, samples[..n], top);
      SampleOk(cfg, Estimate(cfg, samples[..n]), samples[n], top);
      RtoRange(cfg, Estimate(cfg, samples[..n]), samples[n]);
    }
  }

  // ---- Constant round-trip time ---------------------------------------------------------

  /** n further samples, all equal to rtt. */
  function Constant(cfg: Config, r: Rtt, rtt: int, n: nat): Rtt {
    if n == 0 then r else UpdateAck(cfg, Constant(cfg, r, rtt, n - 1), rtt)
  }

  /** How far srtt is from the band [rtt - 7, rtt]. */
  function Distance(r: Rtt, rtt: int): int {
    if r.srtt > rtt then r.srtt - rtt else if r.srtt < rtt - 7 then rtt - 7 - r.srtt else 0
  }

  /** Outside the band srtt moves strictly toward it, inside it stays. */
  lemma {:induction false} Approach(cfg: Config, r: Rtt, rtt: int, top: int)
    requires InRange(r, top) && 1 <= rtt <= top < MAX_SAMPLE
    ensures var r' := UpdateAck(cfg, r, rtt);
            && InRange(r', top)
            && (Distance(r, rtt) > 0 ==> Distance(r', rtt) < Distance(r, rtt))
            && (Distance(r, rtt) == 0 ==> Distance(r', rtt) == 0)
            && (Distance(r, rtt) == 0 && r.rttval > 7 ==> r'.rttval < r.rttval)
            && (Distance(r, rtt) == 0 && r.rttval <= 7 ==> r'.rttval <= 7)
  {
    SampleOk(cfg, r, rtt, top);
  }

  lemma {:induction false} ConstantInRange(cfg: Config, r: Rtt, rtt: int, top: int, n: nat)
    requires InRange(r, top) && 1 <= rtt <= top < MAX_SAMPLE
    ensures InRange(Constant(cfg, r, rtt, n), top)
  {
    if n > 0 {
      ConstantInRange(cfg, r, rtt, top, n - 1);
      Approach(cfg, Constant(cfg, r, rtt, n - 1), rtt, top);
    }
  }

  /** After as many samples as srtt was away from the band, it is in the band. */
  lemma {:induction false} EntersBand(cfg: Config, r: Rtt, rtt: int, top: int, n: nat)
    requires InRange(r, top) && 1 <= rtt <= top < MAX_SAMPLE
    ensures Distance(Constant(cfg, r, rtt, n), rtt) <= Max(0, Distance(r, rtt) - n)
  {
    if n > 0 {
      EntersBand(cfg, r, rtt, top, n - 1);
      ConstantInRange(cfg, r, rtt, top, n - 1);
      Approach(cfg, Constant(cfg, r, rtt, n - 1), rtt, top);
    }
  }

  lemma {:induction false} DeviationFalls(cfg: Config, r: Rtt, rtt: int, top: int, n: nat)
    requires InRange(r, top) && 1 <= rtt <= top < MAX_SAMPLE && Distance(r, rtt) == 0
    ensures var r' := Constant(cfg, r, rtt, n); Distance(r', rtt) == 0 && r'.rttval <= Max(7, r.rttval - n)
  {
    if n > 0 {
      DeviationFalls(cfg, r, rtt, top, n - 1);
      ConstantInRange(cfg, r, rtt, top, n - 1);
      Approach(cfg, Constant(cfg, r, rtt, n - 1), rtt, top);
    }
  }

  lemma {:induction false} ConstantAdd(cfg: Config, r: Rtt, rtt: int, m: nat, n: nat)
    ensures Constant(cfg, r, rtt, m + n) == Constant(cfg, Constant(cfg, r, rtt, m), rtt, n)
  {
    if n > 0 {
      ConstantAdd(cfg, r, rtt, m, n - 1);
    }
  }

  /** After as many samples as the largest estimate srtt is in the band. */
  lemma {:induction false} InBand(cfg: Config, r: Rtt, rtt: int, top: int) returns (r1: Rtt)
    requires InRange(r, top) && 1 <= rtt <= top < MAX_SAMPLE
    ensures r1 == Constant(cfg, r, rtt, top) && InRange(r1, top) && Distance(r1, rtt) == 0
  {
    r1 := Constant(cfg, r, rtt, top);
    EntersBand(cfg, r, rtt, top, top);
    ConstantInRange(cfg, r, rtt, top, top);
  }

  /** Under a constant round-trip time srtt ends in [rtt - 7, rtt] and rttval at 7 or less, for
      good, after at most twice the largest estimate seen. */
  lemma {:induction false} Settles(cfg: Config, r: Rtt, rtt: int, top: int, n: nat)
    requires InRange(r, top) && 1 <= rtt <= top < MAX_SAMPLE && n >= 2 * top
    ensures var r' := Constant(cfg, r, rtt, n); rtt - 7 <= r'.srtt <= rtt && r'.rttval <= 7
  {
    var r1 := InBand(cfg, r, rtt, top);
    ConstantAdd(cfg, r, rtt, top, n - top);
    DeviationFalls(cfg, r1, rtt, top, n - top);
  }
}
