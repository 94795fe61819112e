/** Where the rate limiter's header comments promise something else than the code does, and exactly
    when the two agree. */
module HeaderComments {
  import opened RateControl
  import opened Convergence

  // ----- "A negative round-trip time is a loss" -----

  /** The response as the header comment reads it. */
  function AsCommented(r: Response): Response {
    Response(r.rtt, r.wasLoss || r.rtt < 0)
  }

  /** The two readings agree in every state exactly for responses that are losses anyway or carry a
      proper round-trip time. */
  lemma {:induction false} NegativeRttIff(r: Response, maxRate: real)
    ensures (forall s: Stats :: Report(s, r, maxRate) == Report(s, AsCommented(r), maxRate))
       <==> r.wasLoss || r.rtt >= 0
  {
    if !r.wasLoss && r.rtt < 0 {
      var s := Stats(1.0, -1.0, 0.0, 0, 0);
      assert Report(s, r, maxRate).losses == 0 && Report(s, AsCommented(r), maxRate).losses == 1;
    }
  }

  /** A hundred unflagged responses with negative times speed the limiter up, where the comment's
      reading slows it down. */
  lemma {:induction false} NegativeRttSpeedsUp(s: Stats, rs: seq<Response>, maxRate: real)
    requires s.samples == 0 && s.losses == 0 && 1.0 < s.rate < maxRate
    requires |rs| == 100 && forall i | 0 <= i < |rs| :: !rs[i].wasLoss && rs[i].rtt < 0
    ensures Reports(s, rs, maxRate).rate > s.rate
    ensures Reports(s, seq(|rs|, i requires 0 <= i < |rs| => AsCommented(rs[i])), maxRate).rate < s.rate
  {
    UniformRun(s, rs, false, maxRate);
    UniformRun(s, seq(|rs|, i requires 0 <= i < |rs| => AsCommented(rs[i])), true, maxRate);
    assert Pow(1.05, 1) == 1.05 && Pow(0.7, 1) == 0.7;
  }

  // ----- "A sliding window of losses" -----

  function SlidingStart(n: nat): nat {
    if n < 1000 then 0 else n - 1000
  }

  /** The loss ratio of the last thousand responses before and including the n-th. */
  function SlidingRatio(rs: seq<Response>, n: nat): real
    requires 0 < n <= |rs|
  {
    CountLosses(rs[SlidingStart(n)..n]) as real / (n - SlidingStart(n)) as real
  }

  lemma {:induction false} CountConcat(a: seq<Response>, b: seq<Response>)
    ensures CountLosses(a + b) == CountLosses(a) + CountLosses(b)
    decreases |b|
  {
    if b == [] {
      assert a + b == a;
    } else {
      assert (a + b)[..|a + b| - 1] == a + b[..|b| - 1];
      CountConcat(a, b[..|b| - 1]);
    }
  }

  lemma {:induction false} CountUniform(rs: seq<Response>)
    ensures AllLoss(rs) ==> CountLosses(rs) == |rs|
    ensures AllClean(rs) ==> CountLosses(rs) == 0
    decreases |rs|
  {
    if rs != [] {
      CountUniform(rs[..|rs| - 1]);
    }
  }

  /** Losses up to the last reset and none since: the code sees none of them, a sliding window the
      part that lies within the last thousand responses. */
  lemma {:induction false} LossesBeforeReset(n: nat) returns (rs: seq<Response>)
    requires n > 1000
    ensures |rs| == n && HistoryRatio(rs, n) == 0.0
    ensures SlidingRatio(rs, n) == (WindowStart(n) - SlidingStart(n)) as real / 1000 as real
  {
    var start, reset := SlidingStart(n), WindowStart(n);
    ResetIsLater(n);
    hide WindowStart, SlidingStart, CountLosses;
    rs := LostUpTo(reset, n);
    CountUniform(rs[reset..n]);
    CountSuffix(rs, start, reset, n);
  }

  lemma {:induction false} ResetIsLater(n: nat)
    requires n > 1000
    ensures SlidingStart(n) == n - 1000 <= WindowStart(n) < n
  {
    WindowArithmetic(n);
  }

  lemma {:induction false} LostUpTo(reset: nat, n: nat) returns (rs: seq<Response>)
    requires reset < n
    ensures |rs| == n
    ensures forall start | 0 <= start <= reset :: AllLoss(rs[start..reset])
    ensures AllClean(rs[reset..n])
  {
    rs := seq(n, i => Response(0, i < reset));
  }

  lemma {:induction false} CountSuffix(rs: seq<Response>, start: nat, reset: nat, n: nat)
    requires start <= reset <= n <= |rs|
    requires AllLoss(rs[start..reset]) && AllClean(rs[reset..n])
    ensures CountLosses(rs[start..n]) == reset - start
  {
    hide CountLosses;
    CountUniform(rs[start..reset]);
    CountUniform(rs[reset..n]);
    CountConcat(rs[start..reset], rs[reset..n]);
    assert rs[start..n] == rs[start..reset] + rs[reset..n];
  }

  /** Whatever the history, the loss ratio of the code's window at response n is that of a sliding window
      exactly up to the first reset and at every later one. */
  lemma {:induction false} SlidingIff(n: nat)
    requires n > 0
    ensures (forall rs: seq<Response> | |rs| == n :: HistoryRatio(rs, n) == SlidingRatio(rs, n))
       <==> n <= 1000 || n % 1000 == 0
  {
    WindowArithmetic(n);
    hide HistoryRatio, SlidingRatio;
    if n <= 1000 || n % 1000 == 0 {
      forall rs: seq<Response> | |rs| == n ensures HistoryRatio(rs, n) == SlidingRatio(rs, n) {
        SameWindow(rs, n);
      }
    } else {
      var rs := LossesBeforeReset(n);
      assert HistoryRatio(rs, n) != SlidingRatio(rs, n);
    }
  }

  lemma {:induction false} SameWindow(rs: seq<Response>, n: nat)
    requires 0 < n <= |rs| && WindowStart(n) == SlidingStart(n)
    ensures HistoryRatio(rs, n) == SlidingRatio(rs, n)
  {
  }

  /** The difference reverses the decision: after a thousand losses and a hundred clean responses the
      code speeds up, where a sliding window would slow down. */
  lemma {:induction false} SlidingReversesDecision() returns (rs: seq<Response>)
    ensures |rs| == 1100
    ensures HistoryRatio(rs, |rs|) < 0.01 && SlidingRatio(rs, |rs|) > 0.05
  {
    rs := LossesBeforeReset(1100);
  }
}
