/** The drift bound of `Reporting` is reached by every number of threads, so the counters are
    consistent exactly when at most one thread reports. */
module LossDrift {
  import opened RateControl
  import opened Convergence
  import opened Reporting

  const CLEAN := Response(0, false)
  const LOST := Response(0, true)

  /** Parked after counting the first sample of a window, before counting the loss. */
  const PARKED := CountLoss(1)

  /** A thread reports a loss into an empty window and stops right after counting its sample. */
  lemma {:induction false} Park(s: Shared, t: nat, maxRate: real)
    requires t in s.threads && s.threads[t].Idle? && s.stats.samples == 0
    ensures Execute(s, [Call(t, LOST), Step(t)], maxRate)
         == s.(stats := s.stats.(samples := 1), threads := s.threads[t := PARKED])
  {
    var called := Apply(s, Call(t, LOST), maxRate);
    assert [Call(t, LOST), Step(t)] == [Call(t, LOST)] + [Step(t)];
    ExecuteFirst(s, Call(t, LOST), [Step(t)], maxRate);
    ExecuteOne(called, Step(t), maxRate);
  }

  /** Later it counts the loss and returns, whatever became of its sample. */
  lemma {:induction false} Release(s: Shared, t: nat, maxRate: real)
    requires t in s.threads && s.threads[t] == PARKED
    ensures Execute(s, [Step(t)], maxRate)
         == s.(stats := s.stats.(losses := s.stats.losses + 1), threads := s.threads[t := Idle])
  {
    ExecuteOne(s, Step(t), maxRate);
  }

  const CLEANING: seq<Response> := seq(999, _ => CLEAN)

  /** 999 clean calls close a window of one sample. */
  lemma {:induction false} CloseWindow(s: Shared, c: nat, maxRate: real)
    requires c in s.threads && s.threads[c].Idle? && s.stats.samples == 1
    ensures var e := Execute(s, Calls(c, CLEANING), maxRate);
      e.threads == s.threads && e.stats.samples == 0 && e.stats.losses == 0
  {
    hide Execute, Reports;
    UndisturbedCalls(s, c, CLEANING, maxRate);
    WindowEnds(s.stats, CLEANING, maxRate);
  }

  /** Each of the threads `parked` counts a lost sample before thread `c` closes the window, and its
      loss only after all windows are closed: the losses survive resets that their samples do not. */
  lemma {:induction false} Drift(s: Shared, c: nat, parked: set<nat>, maxRate: real) returns (acts: seq<Action>)
    requires c in s.threads && s.threads[c].Idle? && c !in parked
    requires forall t | t in parked :: t in s.threads && s.threads[t].Idle?
    requires s.stats.samples == 0 && s.stats.losses == 0
    ensures var e := Execute(s, acts, maxRate);
      e.threads == s.threads && e.stats.samples == 0 && e.stats.losses == |parked|
    decreases |parked|
  {
    if parked == {} {
      acts := [];
    } else {
      hide Execute, Apply, Calls;
      var t :| t in parked;
      var park, close := [Call(t, LOST), Step(t)], Calls(c, CLEANING);
      Park(s, t, maxRate);
      var s1 := Execute(s, park, maxRate);
      CloseWindow(s1, c, maxRate);
      var s2 := Execute(s1, close, maxRate);
      var rest := Drift(s2, c, parked - {t}, maxRate);
      Release(Execute(s2, rest, maxRate), t, maxRate);
      assert s.threads[t := PARKED][t := Idle] == s.threads;

      acts := park + close + rest + [Step(t)];
      ExecuteConcat(s, park, close, maxRate);
      ExecuteConcat(s, park + close, rest, maxRate);
      ExecuteConcat(s, park + close + rest, [Step(t)], maxRate);
    }
  }

  /** However many threads report, some run ends with nobody inside `on_response`, no sample on record,
      and one loss for every thread but one: the bound of `CountersNeverDrift` is reached. */
  lemma {:induction false} LossesCanExceedSamples(s: Shared, maxRate: real) returns (acts: seq<Action>)
    requires Initial(s) && s.threads != map[]
    ensures var e := Execute(s, acts, maxRate);
      e.threads == s.threads && e.stats.samples == 0 && e.stats.losses == |s.threads| - 1
  {
    var c :| c in s.threads;
    assert |s.threads| == |s.threads.Keys|;
    acts := Drift(s, c, s.threads.Keys - {c}, maxRate);
  }

  /** In every run, whenever no thread is between the two reset stores, no more losses than samples
      are on record. */
  ghost predicate CountersConsistent(s: Shared, maxRate: real) {
    forall acts: seq<Action> :: var e := Execute(s, acts, maxRate);
      Between(e.threads) == {} ==> e.stats.losses <= e.stats.samples
  }

  /** That is so exactly when at most one thread reports. */
  lemma {:induction false} ConsistentIffOneReporter(s: Shared, maxRate: real)
    requires Initial(s)
    ensures CountersConsistent(s, maxRate) <==> |s.threads| <= 1
  {
    hide Execute, Initial;
    if |s.threads| > 1 {
      var acts := LossesCanExceedSamples(s, maxRate);
      NobodyBetween(s);
      assert !CountersConsistent(s, maxRate);
    } else {
      forall acts: seq<Action>
        ensures var e := Execute(s, acts, maxRate); Between(e.threads) == {} ==> e.stats.losses <= e.stats.samples
      {
        OneReporter(s, acts, maxRate);
      }
    }
  }

  lemma {:induction false} NobodyBetween(s: Shared)
    requires Initial(s)
    ensures Between(s.threads) == {}
  {
  }

  lemma {:induction false} OneReporter(s: Shared, acts: seq<Action>, maxRate: real)
    requires Initial(s) && |s.threads| <= 1
    ensures var e := Execute(s, acts, maxRate); Between(e.threads) == {} ==> e.stats.losses <= e.stats.samples
    decreases |acts|
  {
    if |s.threads| == 1 {
      CountersNeverDrift(s, acts, maxRate);
    } else {
      NobodyReports(s, acts, maxRate);
    }
  }

  lemma {:induction false} NobodyReports(s: Shared, acts: seq<Action>, maxRate: real)
    requires Initial(s) && s.threads == map[]
    ensures var e := Execute(s, acts, maxRate);
      e.threads == map[] && e.stats.losses == 0 && e.stats.samples == 0
    decreases |acts|
  {
    if acts != [] {
      NobodyReports(s, acts[..|acts| - 1], maxRate);
    }
  }

  // ----- What `loss_ratio` returns -----

  /** `loss_ratio` loads the samples in one state and the losses in a later one. */
  function LossRatio(atSamples: Stats, atLosses: Stats): real {
    if atSamples.samples == 0 then 0.0 else atLosses.losses as real / atSamples.samples as real
  }

  /** Whatever happens before and between the two loads, the result is at most 1. */
  ghost predicate RatioAtMostOne(s: Shared, maxRate: real) {
    forall before: seq<Action>, between: seq<Action> ::
      var a := Execute(s, before, maxRate); LossRatio(a.stats, Execute(a, between, maxRate).stats) <= 1.0
  }

  /** The same for reads during which no reporter moves. */
  ghost predicate QuietRatioAtMostOne(s: Shared, maxRate: real) {
    forall acts: seq<Action> :: var e := Execute(s, acts, maxRate); LossRatio(e.stats, e.stats) <= 1.0
  }

  /** The same for reads after all calls have returned, as the command-line program reads it. */
  ghost predicate FinalRatioAtMostOne(s: Shared, maxRate: real) {
    forall acts: seq<Action> :: var e := Execute(s, acts, maxRate);
      e.threads == s.threads ==> LossRatio(e.stats, e.stats) <= 1.0
  }

  /** A read that a reporter may move into is sure to return at most 1 only if nobody reports at all; a
      quiet one, even after all calls have returned, exactly when at most one thread reports. */
  lemma {:induction false} RatioIff(s: Shared, maxRate: real)
    requires Initial(s)
    ensures RatioAtMostOne(s, maxRate) <==> s.threads == map[]
    ensures QuietRatioAtMostOne(s, maxRate) <==> |s.threads| <= 1
    ensures FinalRatioAtMostOne(s, maxRate) <==> |s.threads| <= 1
  {
    hide Execute, Initial, LossRatio;
    assert RatioAtMostOne(s, maxRate) <==> s.threads == map[] by {
      if s.threads == map[] {
        forall before: seq<Action>, between: seq<Action>
          ensures var a := Execute(s, before, maxRate); LossRatio(a.stats, Execute(a, between, maxRate).stats) <= 1.0
        {
          NobodyReports(s, before, maxRate);
          RatioWithin(Execute(s, before, maxRate).stats, Execute(Execute(s, before, maxRate), between, maxRate).stats);
        }
      } else {
        LossBetweenLoads(s, maxRate);
      }
    }
    assert |s.threads| <= 1 ==> QuietRatioAtMostOne(s, maxRate) by {
      if |s.threads| <= 1 {
        forall acts: seq<Action>
          ensures var e := Execute(s, acts, maxRate); LossRatio(e.stats, e.stats) <= 1.0
        {
          OneReporterRatio(s, acts, maxRate);
        }
      }
    }
    if |s.threads| > 1 {
      var acts := LossesCanExceedSamples(s, maxRate);
      OneMoreLoss(s, acts, maxRate);
    }
  }

  lemma {:induction false} RatioWithin(a: Stats, b: Stats)
    ensures a.samples == 0 ==> LossRatio(a, b) == 0.0
    ensures b.losses <= a.samples ==> LossRatio(a, b) <= 1.0
    ensures 0 < a.samples < b.losses ==> LossRatio(a, b) > 1.0
  {
    if a.samples > 0 {
      var l, n := b.losses as real, a.samples as real;
      assert l / n * n == l;
    }
  }

  /** One lost call before the first load and one between the loads: two losses for one sample. */
  lemma {:induction false} LossBetweenLoads(s: Shared, maxRate: real)
    requires Initial(s) && s.threads != map[]
    ensures !RatioAtMostOne(s, maxRate)
  {
    hide Execute, LossRatio;
    var t :| t in s.threads;
    var call := [Call(t, LOST)] + Steps(t, 11);
    var a := Execute(s, call, maxRate);
    UndisturbedCall(s, t, LOST, maxRate);
    UndisturbedCall(a, t, LOST, maxRate);
    RatioWithin(a.stats, Execute(a, call, maxRate).stats);
  }

  /** After the drift, one more loss makes it visible: two losses or more for one sample. */
  lemma {:induction false} OneMoreLoss(s: Shared, acts: seq<Action>, maxRate: real)
    requires Initial(s) && |s.threads| > 1
    requires var e := Execute(s, acts, maxRate);
      e.threads == s.threads && e.stats.samples == 0 && e.stats.losses == |s.threads| - 1
    ensures !FinalRatioAtMostOne(s, maxRate) && !QuietRatioAtMostOne(s, maxRate)
  {
    hide Execute, LossRatio;
    assert s.threads != map[];
    var t :| t in s.threads;
    var e, call := Execute(s, acts, maxRate), [Call(t, LOST)] + Steps(t, 11);
    UndisturbedCall(e, t, LOST, maxRate);
    ExecuteConcat(s, acts, call, maxRate);
    var f := Execute(s, acts + call, maxRate);
    assert f.threads == s.threads;
    RatioWithin(f.stats, f.stats);
  }

  lemma {:induction false} OneReporterRatio(s: Shared, acts: seq<Action>, maxRate: real)
    requires Initial(s) && |s.threads| <= 1
    ensures var e := Execute(s, acts, maxRate); LossRatio(e.stats, e.stats) <= 1.0
  {
    hide Execute, LossRatio;
    var e := Execute(s, acts, maxRate);
    OneReporter(s, acts, maxRate);
    LoneReset(s, acts, maxRate);
    RatioWithin(e.stats, e.stats);
  }

  /** A lone thread between its reset stores has left no samples. */
  lemma {:induction false} LoneReset(s: Shared, acts: seq<Action>, maxRate: real)
    requires Initial(s) && |s.threads| <= 1
    ensures var e := Execute(s, acts, maxRate);
      e.threads.Keys == s.threads.Keys && (Between(e.threads) != {} ==> e.stats.samples == 0)
    decreases |acts|
  {
    if acts == [] {
      NobodyBetween(s);
    } else {
      LoneReset(s, acts[..|acts| - 1], maxRate);
      LoneResetStep(Execute(s, acts[..|acts| - 1], maxRate), acts[|acts| - 1], maxRate);
    }
  }

  lemma {:induction false} LoneResetStep(s: Shared, a: Action, maxRate: real)
    requires |s.threads.Keys| <= 1 && (Between(s.threads) != {} ==> s.stats.samples == 0)
    ensures var e := Apply(s, a, maxRate);
      e.threads.Keys == s.threads.Keys && (Between(e.threads) != {} ==> e.stats.samples == 0)
  {
    hide Adjust, NextSrtt, NextRttvar;
    var e := Apply(s, a, maxRate);
    if !a.SetRate? && a.t in s.threads {
      assert s.threads.Keys == {a.t} by {
        SubsetSize({a.t}, s.threads.Keys);
        if v :| v in s.threads.Keys && v != a.t {
          SubsetSize({a.t, v}, s.threads.Keys);
        }
      }
      assert e.threads.Keys == s.threads.Keys;
      assert s.threads[a.t].ResetLosses? ==> a.t in Between(s.threads);
    }
  }
}
