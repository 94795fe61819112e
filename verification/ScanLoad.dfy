/** What the limiter's bound on tokens means for the load on the network: connection attempts of many
    scans at once, each somewhere in its call of `scan_one`. */
module ScanLoad {
  import opened RateControl
  import opened TokenBucket
  import opened LimiterSystem
  import ScanPipeline

  /** A call of `scan_one` that has done the first `done` actions of its log, or has returned. */
  datatype Call = Call(env: ScanPipeline.Environment, done: nat)

  function Log(c: Call): seq<ScanPipeline.Action> {
    ScanPipeline.Scan(c.env).log
  }

  function Taken(c: Call): seq<ScanPipeline.Action> {
    if c.done < |Log(c)| then Log(c)[..c.done] else Log(c)
  }

  function HintedProbes(c: Call): nat {
    |ScanPipeline.TriedFrom(c.env, 0)|
  }

  predicate Under(c: Call, probes: nat) {
    HintedProbes(c) <= probes
  }

  /** Connection attempts made so far. */
  function AttemptsSoFar(calls: seq<Call>): nat
  {
    if calls == [] then 0
    else
      var c := calls[|calls| - 1];
      AttemptsSoFar(calls[..|calls| - 1]) + ScanPipeline.Attempts(Taken(c))
  }

  /** Calls whose first action, the wait for a token, is behind them. */
  function Admitted(calls: seq<Call>): nat {
    if calls == [] then 0
    else Admitted(calls[..|calls| - 1]) + if calls[|calls| - 1].done > 0 then 1 else 0
  }

  lemma {:induction false} PrefixAttempts(c: Call, probes: nat)
    requires Under(c, probes)
    ensures ScanPipeline.Attempts(Taken(c)) <= if c.done == 0 then 0 else 2 + probes
  {
    if c.done > 0 {
      ScanPipeline.AttemptsAreBounded(c.env);
      var rest := Log(c)[|Taken(c)|..];
      ScanPipeline.AttemptsAdd(Taken(c), rest);
      assert Taken(c) + rest == Log(c);
    }
  }

  /** However the calls interleave, every token pays for at most two connection attempts plus one per
      hinted probe. */
  lemma {:induction false} AttemptsPerToken(calls: seq<Call>, probes: nat)
    requires forall i | 0 <= i < |calls| :: Under(calls[i], probes)
    ensures AttemptsSoFar(calls) <= (2 + probes) * Admitted(calls)
    decreases |calls|
  {
    hide Taken, Under;
    if calls != [] {
      var front, c := calls[..|calls| - 1], calls[|calls| - 1];
      assert forall i | 0 <= i < |front| :: front[i] == calls[i];
      AttemptsPerToken(front, probes);
      PrefixAttempts(c, probes);
      OneMoreToken(2 + probes, Admitted(front));
    }
  }

  lemma {:induction false} OneMoreToken(each: nat, tokens: nat)
    ensures each * (tokens + 1) == each * tokens + each
  {
  }

  // ----- Over time -----

  lemma {:induction false} GrantsSinceStart(s: System, events: seq<Event>, c: Config)
    requires Full(s.bucket)
    ensures var b := History(s, events, c).bucket;
      b.now >= s.bucket.now && forall i | 0 <= i < |b.grants| :: s.bucket.now <= b.grants[i] <= b.now
    decreases |events|
  {
    if events != [] {
      var before := History(s, events[..|events| - 1], c);
      GrantsSinceStart(s, events[..|events| - 1], c);
      hide Refilled;
      if events[|events| - 1].OnBucket? {
        MoveKeepsTimes(before.bucket, events[|events| - 1].m, before.shared.stats.rate, s.bucket.now);
      }
    }
  }

  lemma {:induction false} MoveKeepsTimes(b: Bucket, m: Move, rate: real, start: real)
    requires b.now >= start && forall i | 0 <= i < |b.grants| :: start <= b.grants[i] <= b.now
    ensures var e := Moved(b, m, rate);
      e.now >= start && forall i | 0 <= i < |e.grants| :: start <= e.grants[i] <= e.now
  {
    hide Refilled;
  }

  /** With every admitted call holding a grant of the limiter, the connection attempts made since the
      start of the limiter are at most (2 + probes) times the capacity plus the top rate times the time
      passed. */
  lemma {:induction false} AttemptsOverTime(s: System, events: seq<Event>, c: Config, top: real, calls: seq<Call>,
                                            probes: nat)
    requires Full(s.bucket) && RatesWithin(s, events, c, top)
    requires forall i | 0 <= i < |calls| :: Under(calls[i], probes)
    requires Admitted(calls) <= |History(s, events, c).bucket.grants|
    ensures var now := History(s, events, c).bucket.now;
      AttemptsSoFar(calls) as real <= (2 + probes) as real * (s.bucket.capacity + top * (now - s.bucket.now))
  {
    var b := History(s, events, c).bucket;
    hide History, RatesWithin, AttemptsSoFar, Admitted;
    GrantsSinceStart(s, events, c);
    AllWithin(b.grants, s.bucket.now, b.now);
    WindowGrants(s, events, c, top, s.bucket.now, b.now);
    AttemptsPerToken(calls, probes);
    Scale(AttemptsSoFar(calls), 2 + probes, Admitted(calls), s.bucket.capacity + top * (b.now - s.bucket.now));
  }

  lemma {:induction false} Scale(attempts: nat, each: nat, tokens: nat, bound: real)
    requires attempts <= each * tokens && tokens as real <= bound
    ensures attempts as real <= each as real * bound
  {
    assert attempts as real <= (each * tokens) as real == each as real * tokens as real;
    assert each as real * tokens as real <= each as real * bound;
  }
}
