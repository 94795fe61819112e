/** Where the adaptive rate goes: the band it stays in, the exact formula for clean and for
    all-loss runs, and what the RFC 6298 filter converges to. */
module Convergence {
  import opened RateControl

  function Pow(b: real, n: nat): real {
    if n == 0 then 1.0 else b * Pow(b, n - 1)
  }

  lemma {:induction false} PowPositive(b: real, n: nat)
    requires b > 0.0
    ensures Pow(b, n) > 0.0
  {
    if n > 0 {
      PowPositive(b, n - 1);
    }
  }

  /** Every state an uninterrupted run can be in. */
  predicate InBand(s: Stats, maxRate: real) {
    && 1.0 <= s.rate <= maxRate
    && s.samples < 1000
    && s.losses <= s.samples
  }

  lemma {:induction false} BandIsKept(s: Stats, rs: seq<Response>, maxRate: real)
    requires InBand(s, maxRate)
    ensures InBand(Reports(s, rs, maxRate), maxRate)
    decreases |rs|
  {
    if rs != [] {
      BandIsKept(s, rs[..|rs| - 1], maxRate);
    }
  }

  /** Inside the band an adjustment lowers the rate exactly when more than one in twenty samples was
      lost and the floor is not reached, and raises it exactly when fewer than one in a hundred was
      lost and the cap is not reached. */
  lemma {:induction false} AdjustMovesIff(cur: real, losses: nat, samples: pos, maxRate: real)
    requires 1.0 <= cur <= maxRate
    ensures var next := Adjust(cur, losses as real / samples as real, maxRate);
      && (next < cur <==> 20 * losses > samples && cur > 1.0)
      && (next > cur <==> 100 * losses < samples && cur < maxRate)
  {
    RatioThresholds(losses, samples);
    AdjustMoves(cur, losses as real / samples as real, maxRate);
    hide Adjust;
  }

  lemma {:induction false} AdjustMoves(cur: real, ratio: real, maxRate: real)
    requires 1.0 <= cur <= maxRate
    ensures Adjust(cur, ratio, maxRate) < cur <==> ratio > 0.05 && cur > 1.0
    ensures Adjust(cur, ratio, maxRate) > cur <==> ratio < 0.01 && cur < maxRate
  {
  }

  /** Whatever the constructor is given, the rate respects the cap in every uninterrupted run of responses
      exactly when the cap is at least 1. Below 1 the fixed floor of the slow-down branch overshoots it,
      and below 0.1 the limiter already starts above it. */
  lemma {:induction false} CapRespectedIff(tokensPerSecond: real, maxRate: real)
    ensures var cap := CapOf(tokensPerSecond, maxRate);
      (forall rs: seq<Response> :: Reports(Fresh(tokensPerSecond), rs, cap).rate <= cap) <==> cap >= 1.0
  {
    var cap := CapOf(tokensPerSecond, maxRate);
    if cap >= 1.0 {
      forall rs: seq<Response> ensures Reports(Fresh(tokensPerSecond), rs, cap).rate <= cap {
        CapKept(Fresh(tokensPerSecond), rs, cap);
      }
    } else {
      var rs := Overshoots(tokensPerSecond, maxRate);
    }
  }

  /** A run that takes the rate above a cap below 1. */
  lemma {:induction false} Overshoots(tokensPerSecond: real, maxRate: real) returns (rs: seq<Response>)
    requires CapOf(tokensPerSecond, maxRate) < 1.0
    ensures var cap := CapOf(tokensPerSecond, maxRate); Reports(Fresh(tokensPerSecond), rs, cap).rate > cap
  {
    var cap := CapOf(tokensPerSecond, maxRate);
    if cap < 0.1 {
      rs := [];
    } else {
      rs := seq(100, _ => Response(0, true));
      UniformRun(Fresh(tokensPerSecond), rs, true, cap);
    }
  }

  lemma {:induction false} CapKept(s: Stats, rs: seq<Response>, maxRate: real)
    requires maxRate >= 1.0 && 0.0 < s.rate <= maxRate
    ensures 0.0 < Reports(s, rs, maxRate).rate <= maxRate
    decreases |rs|
  {
    if rs != [] {
      CapKept(s, rs[..|rs| - 1], maxRate);
    }
  }

  predicate AllLoss(rs: seq<Response>) {
    forall i | 0 <= i < |rs| :: rs[i].wasLoss
  }

  predicate AllClean(rs: seq<Response>) {
    forall i | 0 <= i < |rs| :: !rs[i].wasLoss
  }

  /** The rate after `m` adjustments in one direction, in closed form. */
  function UniformRate(rate: real, loss: bool, m: nat, maxRate: real): real {
    if m == 0 then rate
    else if loss then Max(1.0, Pow(0.7, m) * rate)
    else Min(maxRate, Pow(1.05, m) * rate)
  }

  lemma {:induction false} UniformRateStep(rate: real, loss: bool, m: nat, maxRate: real)
    requires 0.0 < rate <= maxRate
    ensures UniformRate(rate, loss, m + 1, maxRate)
         == Adjust(UniformRate(rate, loss, m, maxRate), if loss then 1.0 else 0.0, maxRate)
  {
    var b := if loss then 0.7 else 1.05;
    assert Pow(b, m + 1) * rate == b * (Pow(b, m) * rate);
    PowPositive(b, m);
  }

  /** From the start of a window, a run of only clean or only lost responses multiplies the rate by
      1.05 or 0.7 once per hundred responses, clamped. The formula is exact. */
  lemma {:induction false} UniformRun(s: Stats, rs: seq<Response>, loss: bool, maxRate: real)
    requires s.samples == 0 && s.losses == 0 && 0.0 < s.rate <= maxRate
    requires if loss then AllLoss(rs) else AllClean(rs)
    ensures var e := Reports(s, rs, maxRate);
      && e.samples == |rs| % 1000
      && e.losses == (if loss then e.samples else 0)
      && e.rate == UniformRate(s.rate, loss, |rs| / 100, maxRate)
    decreases |rs|
  {
    if rs != [] {
      var n := |rs|;
      UniformRun(s, rs[..n - 1], loss, maxRate);
      UniformStep(s.rate, Reports(s, rs[..n - 1], maxRate), rs[n - 1], n, maxRate);
    }
  }

  lemma {:induction false} UniformStep(rate: real, before: Stats, r: Response, n: nat, maxRate: real)
    requires n > 0 && 0.0 < rate <= maxRate
    requires before.samples == (n - 1) % 1000
    requires before.losses == if r.wasLoss then before.samples else 0
    requires before.rate == UniformRate(rate, r.wasLoss, (n - 1) / 100, maxRate)
    ensures var e := Report(before, r, maxRate);
      && e.samples == n % 1000
      && e.losses == (if r.wasLoss then e.samples else 0)
      && e.rate == UniformRate(rate, r.wasLoss, n / 100, maxRate)
  {
    hide Report, UniformRate, Adjust;
    var length := n - WindowStart(n);
    var losses := before.losses + if r.wasLoss then 1 else 0;
    ReportStep(before, r, n, losses, maxRate);
    WindowArithmetic(n);
    UniformRateStep(rate, r.wasLoss, (n - 1) / 100, maxRate);
    UniformRatio(length, r.wasLoss);
    assert losses == if r.wasLoss then length else 0;
    hide WindowStart;
  }

  lemma {:induction false} UniformRatio(length: pos, loss: bool)
    ensures (if loss then length else 0) as real / length as real == if loss then 1.0 else 0.0
  {
  }

  // ----- Convergence from any state -----

  /** Filling up the window always brings the counters back to zero. */
  lemma {:induction false} WindowEnds(s: Stats, rs: seq<Response>, maxRate: real)
    requires s.samples < 1000 && s.samples + |rs| <= 1000
    ensures var e := Reports(s, rs, maxRate);
      && e.samples == (s.samples + |rs|) % 1000
      && (s.samples + |rs| == 1000 ==> e.losses == 0)
    decreases |rs|
  {
    if rs != [] {
      WindowEnds(s, rs[..|rs| - 1], maxRate);
      var before, r := Reports(s, rs[..|rs| - 1], maxRate), rs[|rs| - 1];
      hide Adjust;
      ReportStep(before, r, s.samples + |rs|, before.losses + if r.wasLoss then 1 else 0, maxRate);
    }
  }

  /** Whatever the state, one window later the run continues from zeroed counters. */
  lemma {:induction false} UniformFromAnywhere(s: Stats, rs: seq<Response>, loss: bool, maxRate: real)
    returns (rate: real, k: nat)
    requires InBand(s, maxRate)
    requires |rs| >= 1000 && if loss then AllLoss(rs) else AllClean(rs)
    ensures 1.0 <= rate <= maxRate && k >= (|rs| - 1000) / 100
    ensures Reports(s, rs, maxRate).rate == UniformRate(rate, loss, k, maxRate)
  {
    var cut := 1000 - s.samples;
    var a, b := rs[..cut], rs[cut..];
    assert rs == a + b;
    ReportsConcat(s, a, b, maxRate);
    BandIsKept(s, a, maxRate);
    WindowEnds(s, a, maxRate);
    var mid := Reports(s, a, maxRate);
    UniformRun(mid, b, loss, maxRate);
    rate, k := mid.rate, |b| / 100;
  }

  lemma {:induction false} PowMonotone(b: real, m: nat, k: nat)
    requires b > 0.0 && m <= k
    ensures b >= 1.0 ==> Pow(b, m) <= Pow(b, k)
    ensures b <= 1.0 ==> Pow(b, k) <= Pow(b, m)
    decreases k
  {
    if m < k {
      PowMonotone(b, m, k - 1);
      PowPositive(b, k - 1);
    }
  }

  lemma {:induction false} Bernoulli(m: nat)
    ensures Pow(1.05, m) >= 1.0 + 0.05 * m as real
  {
    if m > 0 {
      Bernoulli(m - 1);
    }
  }

  lemma {:induction false} ProductLe(a: real, b: real, x: real, y: real)
    requires 0.0 <= a <= b && 0.0 <= x <= y
    ensures a * x <= b * y
  {
    assert a * x <= a * y <= b * y;
  }

  /** 1000 + 100m clean responses reach the cap from every state of the band, and stay there, once
      1.05^m covers the cap. */
  lemma {:induction false} CleanRunReachesCap(s: Stats, rs: seq<Response>, m: nat, maxRate: real)
    requires InBand(s, maxRate) && AllClean(rs)
    requires |rs| >= 1000 + m * 100 && Pow(1.05, m) >= maxRate
    ensures Reports(s, rs, maxRate).rate == maxRate
  {
    var rate, k := UniformFromAnywhere(s, rs, false, maxRate);
    PowMonotone(1.05, m, k);
    ProductLe(1.0, rate, maxRate, Pow(1.05, k));
  }

  /** The same with the explicit count of adjustments 20 * (cap - 1), rounded up. */
  lemma {:induction false} CleanRunReachesCapLinear(s: Stats, rs: seq<Response>, m: nat, maxRate: real)
    requires InBand(s, maxRate) && AllClean(rs)
    requires m as real >= 20.0 * (maxRate - 1.0)
    requires |rs| >= 1000 + m * 100
    ensures Reports(s, rs, maxRate).rate == maxRate
  {
    Bernoulli(m);
    CleanRunReachesCap(s, rs, m, maxRate);
  }

  /** An all-loss run of the same shape ends at exactly 1 and stays there. */
  lemma {:induction false} LossRunReachesFloor(s: Stats, rs: seq<Response>, m: nat, maxRate: real)
    requires InBand(s, maxRate) && AllLoss(rs)
    requires |rs| >= 1000 + m * 100 && Pow(0.7, m) * maxRate <= 1.0
    ensures Reports(s, rs, maxRate).rate == 1.0
  {
    var rate, k := UniformFromAnywhere(s, rs, true, maxRate);
    PowMonotone(0.7, m, k);
    PowPositive(0.7, k);
    ProductLe(Pow(0.7, k), Pow(0.7, m), rate, maxRate);
  }

  // ----- The filter -----

  predicate AllEqual(rs: seq<Response>, rtt: nat) {
    forall i | 0 <= i < |rs| :: rs[i].rtt == rtt && !rs[i].wasLoss
  }

  /** The closed form of the filter after `n` samples equal to `rtt`: SRTT has closed all but
      (7/8)^n of its distance, and RTTVAR has been fed the distance from before each update. */
  predicate OnCurve(start: Stats, rtt: real, n: nat, e: Stats) {
    var error, p, q := start.srtt - rtt, Pow(0.875, n), Pow(0.75, n);
    && e.srtt - rtt == p * error
    && e.rttvar == q * start.rttvar + 2.0 * Abs(error) * (p - q)
    && e.srtt >= 0.0
  }

  lemma {:induction false} EqualSamples(s: Stats, rs: seq<Response>, rtt: nat, maxRate: real)
    requires s.srtt >= 0.0 && AllEqual(rs, rtt)
    ensures OnCurve(s, rtt as real, |rs|, Reports(s, rs, maxRate))
    decreases |rs|
  {
    if rs == [] {
      CurveStart(s, rtt as real);
    } else {
      hide Report, OnCurve;
      EqualSamples(s, rs[..|rs| - 1], rtt, maxRate);
      var before := Reports(s, rs[..|rs| - 1], maxRate);
      CurveStep(s, before, rs[|rs| - 1], |rs|, maxRate);
    }
  }

  lemma {:induction false} CurveStart(s: Stats, rtt: real)
    requires s.srtt >= 0.0
    ensures OnCurve(s, rtt, 0, s)
  {
  }

  lemma {:induction false} CurveStep(start: Stats, before: Stats, r: Response, n: nat, maxRate: real)
    requires n > 0 && r.rtt >= 0 && !r.wasLoss
    requires OnCurve(start, r.rtt as real, n - 1, before)
    ensures OnCurve(start, r.rtt as real, n, Report(before, r, maxRate))
  {
    hide Report, Pow, Abs, NextSrtt, NextRttvar;
    ReportFilters(before, r, maxRate);
    CurveAlgebra(before.srtt, before.rttvar, r.rtt as real, start.srtt - r.rtt as real, start.rttvar, n);
  }

  lemma {:induction false} CurveAlgebra(srtt: real, rttvar: real, rtt: real, error: real, rttvar0: real, n: nat)
    requires n > 0 && rtt >= 0.0 && srtt >= 0.0
    requires var p, q := Pow(0.875, n - 1), Pow(0.75, n - 1);
      srtt - rtt == p * error && rttvar == q * rttvar0 + 2.0 * Abs(error) * (p - q)
    ensures var p, q := Pow(0.875, n), Pow(0.75, n);
      && NextSrtt(srtt, rtt) - rtt == p * error
      && NextRttvar(srtt, rttvar, rtt) == q * rttvar0 + 2.0 * Abs(error) * (p - q)
      && NextSrtt(srtt, rtt) >= 0.0
  {
    var p, q, a := Pow(0.875, n - 1), Pow(0.75, n - 1), Abs(error);
    PowPositive(0.875, n - 1);
    AbsScale(p, error);
    assert (0.875 * p) * error == 0.875 * (p * error);
    assert (0.75 * q) * rttvar0 == 0.75 * (q * rttvar0);
    assert 2.0 * a * (0.875 * p - 0.75 * q) == 0.75 * (2.0 * a * (p - q)) + 0.25 * (p * a);
  }

  lemma {:induction false} AbsScale(p: real, x: real)
    requires p > 0.0
    ensures Abs(p * x) == p * Abs(x)
  {
    assert p * -x == -(p * x);
    assert x < 0.0 ==> p * x < 0.0;
    assert x >= 0.0 ==> p * x >= 0.0;
  }

  lemma {:induction false} ReportFilters(s: Stats, r: Response, maxRate: real)
    ensures var e := Report(s, r, maxRate); var f := Filtered(s, r);
      e.srtt == f.srtt && e.rttvar == f.rttvar
  {
  }
}
