/**
 * The retransmission timeout (pkg/utp/reliability.go; compare section 2 of RFC 6298), in nanoseconds. Samples are
 * below 2^50 ns, where the source's float64 steps are exact: multiples of 1/8 below 2^53 / 8.
 */
module Rto {

  const MILLISECOND: nat := 1_000_000
  const MIN_RTO: nat := 200 * MILLISECOND
  const MAX_RTO: nat := 60_000 * MILLISECOND
  const INITIAL_RTO: nat := 500 * MILLISECOND
  const SAMPLE_LIMIT: nat := 0x4_0000_0000_0000

  datatype Estimate = Estimate(srtt: nat, rttvar: nat)

  function Distance(a: nat, b: nat): nat { if a < b then b - a else a - b }

  function First(r: nat): Estimate { Estimate(r, r / 2) }

  /** One smoothing step; the conversion to a duration cuts off the fraction. */
  function Smooth(e: Estimate, r: nat): Estimate {
    Estimate((7 * e.srtt + r) / 8, (3 * e.rttvar + Distance(e.srtt, r)) / 4)
  }

  function Clamp(x: nat): nat {
    if x < MIN_RTO then MIN_RTO else if x > MAX_RTO then MAX_RTO else x
  }

  function Timeout(e: Estimate): nat { Clamp(e.srtt + 4 * e.rttvar) }

  /** The estimate after a run of samples. */
  function Estimated(rs: seq<nat>): Estimate
    requires rs != []
  {
    if |rs| == 1 then First(rs[0]) else Smooth(Estimated(rs[..|rs| - 1]), rs[|rs| - 1])
  }

  lemma EstimatedSnoc(rs: seq<nat>, r: nat)
    ensures Estimated(rs + [r]) == if rs == [] then First(r) else Smooth(Estimated(rs), r)
  {
    assert (rs + [r])[..|rs|] == rs;
  }

  predicate Small(rs: seq<nat>) { forall i | 0 <= i < |rs| :: rs[i] < SAMPLE_LIMIT }

  lemma SmallSamples(rs: seq<nat>, r: nat)
    requires Small(rs) && r < SAMPLE_LIMIT
    ensures Small(rs + [r])
  {
  }

  /** The fractions cut off by one sample: less than 1 ns of each field. */
  lemma SmoothCuts(e: Estimate, r: nat)
    ensures var e', d := Smooth(e, r), if e.srtt < r then r - e.srtt else e.srtt - r;
      && 8 * e'.srtt <= 7 * e.srtt + r < 8 * e'.srtt + 8
      && 4 * e'.rttvar <= 3 * e.rttvar + d < 4 * e'.rttvar + 4
  {
  }

  lemma SmoothIs(e: Estimate, r: nat)
    ensures Smooth(e, r) == Estimate((7 * e.srtt + r) / 8, (3 * e.rttvar + Distance(e.srtt, r)) / 4)
  {
  }

  class RTOCalculator {
    var srtt: nat
    var rttvar: nat
    var rto: nat
    var initialized: bool
    /** Every sample so far. */
    ghost var samples: seq<nat>

    ghost predicate Valid()
      reads this
    {
      && (initialized <==> samples != [])
      && Small(samples)
      && (if samples == [] then rto == INITIAL_RTO
          else Estimate(srtt, rttvar) == Estimated(samples) && rto == Timeout(Estimated(samples)))
    }

    constructor ()
      ensures Valid() && samples == []
    {
      srtt, rttvar, rto, initialized := 0, 0, INITIAL_RTO, false;
      samples := [];
    }

    method SetTimeout()
      modifies this`rto
      ensures rto == Timeout(Estimate(srtt, rttvar))
      ensures var t := srtt + 4 * rttvar;
        rto == if t < 200_000_000 then 200_000_000 else if t > 60_000_000_000 then 60_000_000_000 else t
    {
      rto := srtt + 4 * rttvar;
      if rto < MIN_RTO {
        rto := MIN_RTO;
      }
      if rto > MAX_RTO {
        rto := MAX_RTO;
      }
    }

    method Update(rtt: nat)
      requires Valid() && rtt < SAMPLE_LIMIT
      modifies this
      ensures Valid() && samples == old(samples) + [rtt]
      ensures old(samples) == [] ==> srtt == rtt && rttvar == rtt / 2
      ensures old(samples) != [] ==>
        && 8 * srtt <= 7 * old(srtt) + rtt < 8 * srtt + 8
        && var diff := if old(srtt) < rtt then rtt - old(srtt) else old(srtt) - rtt;
           4 * rttvar <= 3 * old(rttvar) + diff < 4 * rttvar + 4
      ensures var t := srtt + 4 * rttvar;
        rto == if t < 200_000_000 then 200_000_000 else if t > 60_000_000_000 then 60_000_000_000 else t
    {
      hide Estimated, Small, Smooth;
      EstimatedSnoc(samples, rtt);
      SmallSamples(samples, rtt);
      if !initialized {
        srtt := rtt;
        rttvar := rtt / 2;
        initialized := true;
      } else {
        ghost var before := Estimate(srtt, rttvar);
        var diff: int := srtt - rtt;
        if diff < 0 {
          diff := -diff;
        }
        rttvar := (3 * rttvar + diff) / 4;
        srtt := (7 * srtt + rtt) / 8;
        SmoothIs(before, rtt);
        SmoothCuts(before, rtt);
      }
      samples := samples + [rtt];
      SetTimeout();
    }

    method GetRTO() returns (r: nat)
      requires Valid()
      ensures MIN_RTO <= r <= MAX_RTO
      ensures samples == [] ==> r == 500_000_000
      ensures |samples| == 1 ==>
        var t := samples[0] + 4 * (samples[0] / 2);
        r == if t < 200_000_000 then 200_000_000 else if t > 60_000_000_000 then 60_000_000_000 else t
      ensures samples != [] ==> r == Timeout(Estimated(samples))
    {
      r := rto;
    }
  }

  // ----- The same estimate without rounding: section 2 of RFC 6298

  datatype Exact = Exact(srtt: real, rttvar: real)

  function Abs(x: real): real { if x < 0.0 then -x else x }

  /** SRTT and RTTVAR after a run of samples, with alpha = 1/8 and beta = 1/4. */
  function Unrounded(rs: seq<nat>): Exact
    requires rs != []
  {
    var r := rs[|rs| - 1] as real;
    if |rs| == 1 then Exact(r, r / 2.0)
    else
      var e := Unrounded(rs[..|rs| - 1]);
      Exact(0.875 * e.srtt + 0.125 * r, 0.75 * e.rttvar + 0.25 * Abs(e.srtt - r))
  }

  /** However many samples there are, the fractions cut off never add up to more than a few nanoseconds. */
  lemma {:induction false} StaysNearUnrounded(rs: seq<nat>)
    requires rs != []
    ensures 0.0 <= Unrounded(rs).srtt - Estimated(rs).srtt as real <= 7.0
    ensures -7.0 <= Unrounded(rs).rttvar - Estimated(rs).rttvar as real <= 10.0
    decreases |rs|
  {
    var last := |rs| - 1;
    if last > 0 {
      var e, r := Estimated(rs[..last]), rs[last];
      StaysNearUnrounded(rs[..last]);
      SmoothCuts(e, r);
      CutsAddUp(e, Smooth(e, r), Unrounded(rs[..last]), r);
    }
  }

  lemma CutsAddUp(e: Estimate, e': Estimate, x: Exact, r: nat)
    requires 0.0 <= x.srtt - e.srtt as real <= 7.0 && -7.0 <= x.rttvar - e.rttvar as real <= 10.0
    requires 8 * e'.srtt <= 7 * e.srtt + r < 8 * e'.srtt + 8
    requires var d := if e.srtt < r then r - e.srtt else e.srtt - r;
      4 * e'.rttvar <= 3 * e.rttvar + d < 4 * e'.rttvar + 4
    ensures 0.0 <= 0.875 * x.srtt + 0.125 * r as real - e'.srtt as real <= 7.0
    ensures -7.0 <= 0.75 * x.rttvar + 0.25 * Abs(x.srtt - r as real) - e'.rttvar as real <= 10.0
  {
    var d := if e.srtt < r then r - e.srtt else e.srtt - r;
    assert 7 * e.srtt + r <= 8 * e'.srtt + 7 && 3 * e.rttvar + d <= 4 * e'.rttvar + 3;
    assert -7.0 <= Abs(x.srtt - r as real) - d as real <= 7.0;
  }

  function Pow(b: nat, k: nat): nat { if k == 0 then 1 else b * Pow(b, k - 1) }

  /** The deviation of the first sample, half of it, is forgotten by at most a quarter a sample, but for 3 ns. */
  lemma {:induction false} DeviationIsKept(rs: seq<nat>)
    requires rs != []
    ensures var k := |rs| - 1; Pow(4, k) * (Estimated(rs).rttvar + 3) >= Pow(3, k) * (rs[0] / 2 + 3)
    decreases |rs|
  {
    var last := |rs| - 1;
    if last > 0 {
      var e := Estimated(rs[..last]);
      DeviationIsKept(rs[..last]);
      SmoothCuts(e, rs[last]);
      KeepThreeQuarters(Pow(4, last - 1), Pow(3, last - 1), e.rttvar + 3, Estimated(rs).rttvar + 3, rs[0] / 2 + 3);
    }
  }

  lemma KeepThreeQuarters(p: nat, q: nat, v: nat, v': nat, first: nat)
    requires p * v >= q * first && 4 * v' >= 3 * v
    ensures 4 * p * v' >= 3 * q * first
  {
    assert p * (4 * v') >= p * (3 * v);
    assert 3 * (p * v) >= 3 * (q * first);
  }

  // ----- All runs of samples

  predicate AllWithin(rs: seq<nat>, lo: nat, hi: nat) { forall i | 0 <= i < |rs| :: lo <= rs[i] <= hi }

  function Max(a: nat, b: nat): nat { if a < b then b else a }

  lemma SmoothBounds(e: Estimate, r: nat, lo: nat, hi: nat, dev: nat)
    requires lo <= e.srtt <= hi && lo <= r <= hi && e.rttvar <= dev && hi - lo <= dev
    ensures lo <= Smooth(e, r).srtt <= hi && Smooth(e, r).rttvar <= dev
  {
  }

  /** The smoothed time stays among the samples, and the deviation within half the first one or their spread. */
  lemma {:induction false} EstimateStaysWithinSamples(rs: seq<nat>, lo: nat, hi: nat)
    requires rs != [] && AllWithin(rs, lo, hi)
    ensures lo <= Estimated(rs).srtt <= hi
    ensures Estimated(rs).rttvar <= Max(rs[0] / 2, hi - lo)
    decreases |rs|
  {
    var last := |rs| - 1;
    if last > 0 {
      EstimateStaysWithinSamples(rs[..last], lo, hi);
      SmoothBounds(Estimated(rs[..last]), rs[last], lo, hi, Max(rs[0] / 2, hi - lo));
    }
  }

  /** Samples of at most 12 s never reach the upper clamp; the timeout is never below the smoothed time or 200 ms. */
  lemma TimeoutCoversEstimate(rs: seq<nat>, hi: nat)
    requires rs != [] && AllWithin(rs, 0, hi) && 5 * hi <= MAX_RTO
    ensures Timeout(Estimated(rs)) == Max(MIN_RTO, Estimated(rs).srtt + 4 * Estimated(rs).rttvar)
    ensures Timeout(Estimated(rs)) >= Estimated(rs).srtt
  {
    EstimateStaysWithinSamples(rs, 0, hi);
    assert rs[0] <= hi;
  }

  // ----- A constant round-trip time

  /** `k` further samples of the same value. */
  function Repeat(e: Estimate, r: nat, k: nat): Estimate {
    if k == 0 then e else Smooth(Repeat(e, r, k - 1), r)
  }

  /** Where smoothing stops: within 7 ns below `r`, because fractions are cut off. */
  predicate Settled(e: Estimate, r: nat) { r - 7 <= e.srtt <= r }

  /** The smoothed time is left unchanged by a sample exactly when it is settled. */
  lemma SettledIsFixed(e: Estimate, r: nat)
    ensures Smooth(e, r).srtt == e.srtt <==> Settled(e, r)
  {
  }

  lemma SmoothApproaches(e: Estimate, r: nat, dev: nat)
    requires e.rttvar <= dev && Distance(e.srtt, r) <= dev
    ensures var e' := Smooth(e, r);
      && e'.rttvar <= dev
      && (!Settled(e, r) ==> Distance(e'.srtt, r) < Distance(e.srtt, r))
      && (Settled(e, r) ==> e'.srtt == e.srtt)
      && (e.srtt >= r ==> e'.srtt >= r) && (e.srtt <= r ==> e'.srtt <= r)
  {
  }

  lemma {:induction false} Approach(e: Estimate, r: nat, dev: nat, k: nat)
    requires e.rttvar <= dev && Distance(e.srtt, r) <= dev
    ensures var e' := Repeat(e, r, k);
      && e'.rttvar <= dev
      && (Settled(e', r) || Distance(e'.srtt, r) + k <= Distance(e.srtt, r))
      && (e.srtt >= r ==> e'.srtt >= r) && (e.srtt <= r ==> e'.srtt <= r) && Distance(e'.srtt, r) <= dev
  {
    if k > 0 {
      Approach(e, r, dev, k - 1);
      SmoothApproaches(Repeat(e, r, k - 1), r, dev);
    }
  }

  /** Once the smoothed time is settled the deviation shrinks to at most what is missing. */
  lemma {:induction false} DeviationSettles(e: Estimate, r: nat, k: nat)
    requires Settled(e, r)
    ensures Repeat(e, r, k).srtt == e.srtt
    ensures Repeat(e, r, k).rttvar <= r - e.srtt || Repeat(e, r, k).rttvar + k <= e.rttvar
  {
    if k > 0 {
      DeviationSettles(e, r, k - 1);
      SettledIsFixed(Repeat(e, r, k - 1), r);
    }
  }

  lemma {:induction false} RepeatTwice(e: Estimate, r: nat, j: nat, k: nat)
    ensures Repeat(Repeat(e, r, j), r, k) == Repeat(e, r, j + k)
  {
    if k > 0 {
      RepeatTwice(e, r, j, k - 1);
    }
  }

  /**
   * Under a constant round-trip time `r` the estimate settles after finitely many samples and then stays: from
   * above at exactly `r` with no deviation, so that the timeout is `r` clamped; from below within 7 ns of `r`, with
   * a timeout between `r - 7` and `r + 21`, clamped.
   */
  lemma ConstantSampleSettles(e: Estimate, r: nat, k: nat)
    requires k >= Distance(e.srtt, r) + Max(e.rttvar, Distance(e.srtt, r))
    ensures var e' := Repeat(e, r, k);
      && Settled(e', r) && e'.rttvar <= r - e'.srtt
      && (e.srtt >= r ==> e' == Estimate(r, 0) && Timeout(e') == Clamp(r))
      && Clamp(if r < 7 then 0 else r - 7) <= Timeout(e') <= Clamp(r + 21)
  {
    hide Repeat, Timeout, Clamp;
    var d := Distance(e.srtt, r);
    var e1 := Reached(e, r);
    DeviationSettles(e1, r, k - d);
    RepeatTwice(e, r, d, k - d);
    assert d + (k - d) == k;
    SettledTimeout(Repeat(e, r, k), r);
  }

  lemma Reached(e: Estimate, r: nat) returns (e': Estimate)
    ensures e' == Repeat(e, r, Distance(e.srtt, r)) && Settled(e', r)
    ensures e'.rttvar <= Max(e.rttvar, Distance(e.srtt, r)) && (e.srtt >= r ==> e'.srtt == r)
  {
    hide Repeat;
    var d := Distance(e.srtt, r);
    e' := Repeat(e, r, d);
    Approach(e, r, Max(e.rttvar, d), d);
  }

  lemma SettledTimeout(e: Estimate, r: nat)
    requires Settled(e, r) && e.rttvar <= r - e.srtt
    ensures e.srtt == r ==> e == Estimate(r, 0) && Timeout(e) == Clamp(r)
    ensures Clamp(if r < 7 then 0 else r - 7) <= Timeout(e) <= Clamp(r + 21)
  {
  }
}
