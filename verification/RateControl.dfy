/** The adaptive part of the rate limiter as functions on values: the RFC 6298 filter, the
    loss-driven rate step and the 1000-sample window of `on_response`. Doubles are reals. */
module RateControl {

  const ALPHA := 0.125
  const BETA := 0.25
  const LOSS_HIGH := 0.05
  const LOSS_LOW := 0.01
  const STEP_DOWN := 0.7
  const STEP_UP := 1.05
  const ADJUST_EVERY: nat := 100
  const WINDOW_RESET: nat := 1000
  const RATE_FLOOR := 0.1

  type pos = n: nat | n > 0 witness 1

  /** What one finished connection attempt reports. */
  datatype Response = Response(rtt: int, wasLoss: bool)

  /** The atomics of the limiter that `on_response` reads and writes. */
  datatype Stats = Stats(rate: real, srtt: real, rttvar: real, samples: nat, losses: nat)

  function Min(a: real, b: real): real { if b < a then b else a }

  function Max(a: real, b: real): real { if a < b then b else a }

  function Abs(a: real): real { if a < 0.0 then -a else a }

  /** The state right after construction. */
  function Fresh(tokensPerSecond: real): Stats {
    Stats(Max(RATE_FLOOR, tokensPerSecond), -1.0, 0.0, 0, 0)
  }

  function CapOf(tokensPerSecond: real, maxRate: real): real {
    Max(tokensPerSecond, maxRate)
  }

  predicate Accepted(r: Response) {
    !r.wasLoss && r.rtt >= 0
  }

  function NextSrtt(srtt: real, r: real): real {
    if srtt < 0.0 then r else (1.0 - ALPHA) * srtt + ALPHA * r
  }

  /** RTTVAR is fed the SRTT from before the sample. */
  function NextRttvar(srtt: real, rttvar: real, r: real): real {
    if srtt < 0.0 then r * 0.5 else (1.0 - BETA) * rttvar + BETA * Abs(srtt - r)
  }

  function Filtered(s: Stats, r: Response): Stats {
    if Accepted(r)
    then s.(srtt := NextSrtt(s.srtt, r.rtt as real),
            rttvar := NextRttvar(s.srtt, s.rttvar, r.rtt as real))
    else s
  }

  function Adjust(cur: real, ratio: real, maxRate: real): real {
    if ratio > LOSS_HIGH then Max(1.0, cur * STEP_DOWN)
    else if ratio < LOSS_LOW then Min(maxRate, cur * STEP_UP)
    else cur
  }

  function Counted(s: Stats, r: Response): Stats {
    s.(samples := s.samples + 1, losses := s.losses + if r.wasLoss then 1 else 0)
  }

  /** Every hundredth sample adjusts the rate, every thousandth also empties the window. */
  function Settled(c: Stats, maxRate: real): Stats
    requires c.samples > 0
  {
    if c.samples % ADJUST_EVERY != 0 then c
    else
      var a := c.(rate := Adjust(c.rate, c.losses as real / c.samples as real, maxRate));
      if c.samples >= WINDOW_RESET then a.(samples := 0, losses := 0) else a
  }

  /** One uninterrupted call of `on_response` in adaptive mode. */
  function Report(s: Stats, r: Response, maxRate: real): Stats {
    Settled(Counted(Filtered(s, r), r), maxRate)
  }

  /** One call in full, in plain arithmetic. The 100th, 200th, ... sample of a window judges it: more than
      one loss in twenty multiplies the rate by 0.7 but not below 1, fewer than one in a hundred by 1.05 but
      not above the cap. The 1000th also empties the window. A response without a loss feeds the filter of
      section 2 of RFC 6298. */
  lemma {:induction false} ReportInFull(s: Stats, r: Response, cap: real)
    ensures var e, n := Report(s, r, cap), s.samples + 1; var lost := s.losses + if r.wasLoss then 1 else 0;
      && (n % 100 != 0 ==> e.rate == s.rate)
      && (n % 100 == 0 && 20 * lost > n ==> e.rate == if 0.7 * s.rate > 1.0 then 0.7 * s.rate else 1.0)
      && (n % 100 == 0 && 100 * lost < n ==> e.rate == if 1.05 * s.rate < cap then 1.05 * s.rate else cap)
      && (n % 100 == 0 && 20 * lost <= n <= 100 * lost ==> e.rate == s.rate)
      && (n % 100 == 0 && n >= 1000 ==> e.samples == 0 && e.losses == 0)
      && (n % 100 != 0 || n < 1000 ==> e.samples == n && e.losses == lost)
    ensures var e, x := Report(s, r, cap), r.rtt as real;
      && (r.wasLoss || r.rtt < 0 ==> e.srtt == s.srtt && e.rttvar == s.rttvar)
      && (!r.wasLoss && r.rtt >= 0 && s.srtt < 0.0 ==> e.srtt == x && e.rttvar == x / 2.0)
      && (!r.wasLoss && r.rtt >= 0 && s.srtt >= 0.0 ==>
            && e.srtt == (7.0 * s.srtt + x) / 8.0
            && e.rttvar == (3.0 * s.rttvar + if s.srtt > x then s.srtt - x else x - s.srtt) / 4.0)
  {
    RatioThresholds(s.losses + if r.wasLoss then 1 else 0, s.samples + 1);
  }

  /** The new rate, by whole numbers of losses and samples. */
  function Judged(rate: real, losses: nat, samples: nat, cap: real): real {
    if 20 * losses > samples then (if 0.7 * rate > 1.0 then 0.7 * rate else 1.0)
    else if 100 * losses < samples then (if 1.05 * rate < cap then 1.05 * rate else cap)
    else rate
  }

  lemma {:induction false} AdjustIsJudged(rate: real, losses: nat, samples: pos, cap: real)
    ensures Adjust(rate, losses as real / samples as real, cap) == Judged(rate, losses, samples, cap)
  {
    RatioThresholds(losses, samples);
  }

  lemma {:induction false} RatioThresholds(losses: nat, samples: pos)
    ensures losses as real / samples as real > 0.05 <==> 20 * losses > samples
    ensures losses as real / samples as real < 0.01 <==> 100 * losses < samples
  {
    Threshold(losses as real, samples as real, 20.0);
    Threshold(losses as real, samples as real, 100.0);
    assert (20 * losses) as real == 20.0 * losses as real && (100 * losses) as real == 100.0 * losses as real;
  }

  lemma {:induction false} Threshold(l: real, n: real, k: real)
    requires n > 0.0 && k > 0.0
    ensures l / n > 1.0 / k <==> k * l > n
    ensures l / n < 1.0 / k <==> k * l < n
  {
    var ratio, limit := l / n, 1.0 / k;
    assert k * l - n == (k * n) * (ratio - limit);
    SameSign(k * n, ratio - limit);
  }

  lemma {:induction false} SameSign(m: real, x: real)
    requires m > 0.0
    ensures (m * x > 0.0 <==> x > 0.0) && (m * x < 0.0 <==> x < 0.0)
  {
  }

  /** A run of uninterrupted calls, oldest first. */
  function Reports(s: Stats, rs: seq<Response>, maxRate: real): Stats {
    if rs == [] then s
    else Report(Reports(s, rs[..|rs| - 1], maxRate), rs[|rs| - 1], maxRate)
  }

  lemma {:induction false} ReportsConcat(s: Stats, a: seq<Response>, b: seq<Response>, maxRate: real)
    ensures Reports(s, a + b, maxRate) == Reports(Reports(s, a, maxRate), b, maxRate)
    decreases |b|
  {
    if b == [] {
      assert a + b == a;
    } else {
      var front := b[..|b| - 1];
      assert (a + b)[..|a + b| - 1] == a + front;
      ReportsConcat(s, a, front, maxRate);
    }
  }

  // ----- What the counters mean -----

  function CountLosses(rs: seq<Response>): nat {
    if rs == [] then 0
    else CountLosses(rs[..|rs| - 1]) + if rs[|rs| - 1].wasLoss then 1 else 0
  }

  /** First sample of the window that sample number `n` (counted from 1) falls into. */
  function WindowStart(n: nat): nat
    requires n > 0
  {
    (n - 1) / 1000 * 1000
  }

  /** The loss ratio of the part of the history that the n-th response is judged by. */
  function HistoryRatio(rs: seq<Response>, n: nat): real
    requires 0 < n <= |rs|
  {
    CountLosses(rs[WindowStart(n)..n]) as real / (n - WindowStart(n)) as real
  }

  /** Reference definition of the rate, straight from the response history: one adjustment per
      hundred responses, each judged by the tumbling window it closes. */
  function HistoryRate(rate0: real, rs: seq<Response>, k: nat, maxRate: real): real
    requires k * 100 <= |rs|
  {
    if k == 0 then rate0
    else
      var n := k * 100;
      Judged(HistoryRate(rate0, rs, k - 1, maxRate), CountLosses(rs[WindowStart(n)..n]), n - WindowStart(n), maxRate)
  }

  lemma {:induction false} HistoryRatePrefix(rate0: real, rs: seq<Response>, n: nat, k: nat, maxRate: real)
    requires n <= |rs| && k * 100 <= n
    ensures HistoryRate(rate0, rs[..n], k, maxRate) == HistoryRate(rate0, rs, k, maxRate)
  {
    if k > 0 {
      HistoryRatePrefix(rate0, rs, n, k - 1, maxRate);
      var m := k * 100;
      assert rs[..n][WindowStart(m)..m] == rs[WindowStart(m)..m];
    }
  }

  lemma {:induction false} WindowArithmetic(n: nat)
    requires n > 0
    ensures WindowStart(n) == (n - 1) - (n - 1) % 1000
    ensures (n - 1) % 1000 + 1 == n - WindowStart(n)
    ensures if n % 1000 == 0 then n - WindowStart(n) == 1000 else n % 1000 == n - WindowStart(n)
    ensures (n - WindowStart(n)) % 100 == n % 100
    ensures n / 100 == (n - 1) / 100 + if n % 100 == 0 then 1 else 0
  {
    var q, r := (n - 1) / 1000, (n - 1) % 1000;
    assert WindowStart(n) == q * 1000;
    hide WindowStart;
    Thousands(q, r);
    Hundreds(n);
  }

  lemma {:induction false} Thousands(q: nat, r: nat)
    requires r < 1000
    ensures (1000 * q + r + 1) % 1000 == if r == 999 then 0 else r + 1
    ensures (1000 * q + r + 1) % 100 == (r + 1) % 100
  {
    var c := (r + 1) / 100;
    assert r + 1 == 100 * c + (r + 1) % 100;
    Remainders(if r == 999 then q + 1 else q, if r == 999 then 0 else r + 1);
    var h, d := 10 * q + c, (r + 1) % 100;
    assert 1000 * q + r + 1 == 100 * h + d;
    Remainders100(h, d);
  }

  lemma {:induction false} Remainders(q: nat, r: nat)
    requires r < 1000
    ensures (1000 * q + r) % 1000 == r
  {
  }

  lemma {:induction false} Remainders100(q: nat, r: nat)
    requires r < 100
    ensures (100 * q + r) % 100 == r
  {
  }

  lemma {:induction false} Hundreds(n: nat)
    requires n > 0
    ensures n / 100 == (n - 1) / 100 + if n % 100 == 0 then 1 else 0
  {
  }

  lemma {:induction false} CountLossesStep(rs: seq<Response>, w: nat, n: nat)
    requires w < n <= |rs|
    ensures CountLosses(rs[w..n]) == CountLosses(rs[w..n - 1]) + if rs[n - 1].wasLoss then 1 else 0
  {
    assert rs[w..n][..n - w - 1] == rs[w..n - 1];
  }

  lemma {:induction false} HistoryRateStep(rate0: real, rs: seq<Response>, n: nat, maxRate: real)
    requires 0 < n <= |rs|
    ensures n / 100 * 100 <= n
    ensures (n - 1) / 100 * 100 <= n - 1
    ensures HistoryRate(rate0, rs, n / 100, maxRate)
         == var before := HistoryRate(rate0, rs[..n - 1], (n - 1) / 100, maxRate);
            if n % 100 == 0 then Judged(before, CountLosses(rs[WindowStart(n)..n]), n - WindowStart(n), maxRate)
            else before
  {
    hide Judged, CountLosses;
    WindowArithmetic(n);
    HistoryRatePrefix(rate0, rs, n - 1, (n - 1) / 100, maxRate);
  }

  /** The counters hold exactly the current tumbling window of the history, and the rate is the one
      the whole history determines. */
  predicate MatchesHistory(rate0: real, rs: seq<Response>, e: Stats, maxRate: real) {
    var n := |rs|;
    && e.samples == n % 1000
    && e.losses == CountLosses(rs[n - n % 1000..])
    && e.rate == HistoryRate(rate0, rs, n / 100, maxRate)
  }

  lemma {:induction false} ReportsMatchHistory(s: Stats, rs: seq<Response>, maxRate: real)
    requires s.samples == 0 && s.losses == 0
    ensures MatchesHistory(s.rate, rs, Reports(s, rs, maxRate), maxRate)
    decreases |rs|
  {
    if rs == [] {
      assert rs[0..] == [];
    } else {
      hide MatchesHistory, Report;
      ReportsMatchHistory(s, rs[..|rs| - 1], maxRate);
      HistoryAfterOneMore(s, rs, Reports(s, rs[..|rs| - 1], maxRate), maxRate);
    }
  }

  lemma {:induction false} HistoryAfterOneMore(s: Stats, rs: seq<Response>, before: Stats, maxRate: real)
    requires rs != [] && MatchesHistory(s.rate, rs[..|rs| - 1], before, maxRate)
    ensures MatchesHistory(s.rate, rs, Report(before, rs[|rs| - 1], maxRate), maxRate)
  {
    hide Report, Adjust, Judged, HistoryRate, CountLosses;
    var n, w := |rs|, WindowStart(|rs|);
    WindowArithmetic(n);
    assert rs[..n - 1][w..] == rs[w..n - 1];
    CountLossesStep(rs, w, n);
    AdjustIsJudged(before.rate, CountLosses(rs[w..n]), n - w, maxRate);
    ReportStep(before, rs[n - 1], n, CountLosses(rs[w..n]), maxRate);
    HistoryRateStep(s.rate, rs, n, maxRate);
    assert rs[w..] == rs[w..n];
    NoLosses(rs);
  }

  lemma {:induction false} NoLosses(rs: seq<Response>)
    ensures CountLosses(rs[|rs|..]) == 0
  {
  }

  /** One call, told where its window starts. */
  lemma {:induction false} ReportStep(s: Stats, r: Response, n: nat, losses: nat, maxRate: real)
    requires n > 0 && s.samples == (n - 1) % WINDOW_RESET
    requires losses == s.losses + if r.wasLoss then 1 else 0
    ensures var e := Report(s, r, maxRate);
      && e.samples == n % WINDOW_RESET
      && e.losses == (if n % WINDOW_RESET == 0 then 0 else losses)
      && e.rate == if n % ADJUST_EVERY == 0
                   then Adjust(s.rate, losses as real / (n - WindowStart(n)) as real, maxRate)
                   else s.rate
  {
    WindowArithmetic(n);
  }
}
