/** `on_response` as its sequence of separate atomic loads, stores and fetch-adds, called by many
    threads at once. One action is one atomic access; the interleaving is sequentially consistent. */
module Reporting {
  import opened RateControl
  import Convergence

  /** Where a thread stands inside `on_response`: the next atomic access and the locals it needs. */
  datatype Pc =
    | Idle
    | LoadSrtt(r: Response)
    | FirstSrtt(r: Response)
    | FirstRttvar(r: Response)
    | LoadRttvar(r: Response, srtt: real)
    | StoreSrtt(r: Response, srtt: real, rttvar: real)
    | StoreRttvar(r: Response, rttvar: real)
    | CountSample(r: Response)
    | CountLoss(samples: pos)
    | LoadLosses(samples: pos)
    | LoadRate(samples: pos, losses: nat)
    | StoreRate(samples: pos, next: real)
    | ResetSamples
    | ResetLosses

  /** The atomics, the threads, and the accepted round-trip times so far, oldest first. */
  datatype Shared = Shared(stats: Stats, threads: map<nat, Pc>, accepted: seq<int>)

  datatype Action =
    | Call(t: nat, r: Response)
    | Step(t: nat)
    | SetRate(tokensPerSecond: real)

  function Enter(r: Response): Pc {
    if Accepted(r) then LoadSrtt(r) else CountSample(r)
  }

  function Judge(samples: pos): Pc {
    if samples % ADJUST_EVERY != 0 then Idle else LoadLosses(samples)
  }

  function AfterRate(samples: pos): Pc {
    if samples >= WINDOW_RESET then ResetSamples else Idle
  }

  /** The atomics after the access that `pc` is about to make. */
  function StatsAfter(s: Stats, pc: Pc): Stats {
    match pc
    case FirstSrtt(r) => s.(srtt := r.rtt as real)
    case FirstRttvar(r) => s.(rttvar := r.rtt as real * 0.5)
    case StoreSrtt(_, srtt, _) => s.(srtt := srtt)
    case StoreRttvar(_, rttvar) => s.(rttvar := rttvar)
    case CountSample(_) => s.(samples := s.samples + 1)
    case CountLoss(_) => s.(losses := s.losses + 1)
    case StoreRate(_, next) => s.(rate := next)
    case ResetSamples => s.(samples := 0)
    case ResetLosses => s.(losses := 0)
    case _ => s
  }

  /** Where the thread goes next, given what it reads. */
  function PcAfter(s: Stats, pc: Pc, maxRate: real): Pc {
    match pc
    case Idle => Idle
    case LoadSrtt(r) => if s.srtt < 0.0 then FirstSrtt(r) else LoadRttvar(r, s.srtt)
    case FirstSrtt(r) => FirstRttvar(r)
    case FirstRttvar(r) => CountSample(r)
    case LoadRttvar(r, srtt) =>
      StoreSrtt(r, NextSrtt(srtt, r.rtt as real), NextRttvar(srtt, s.rttvar, r.rtt as real))
    case StoreSrtt(r, _, rttvar) => StoreRttvar(r, rttvar)
    case StoreRttvar(r, _) => CountSample(r)
    case CountSample(r) => if r.wasLoss then CountLoss(s.samples + 1) else Judge(s.samples + 1)
    case CountLoss(n) => Judge(n)
    case LoadLosses(n) => LoadRate(n, s.losses)
    case LoadRate(n, losses) =>
      var next := Adjust(s.rate, losses as real / n as real, maxRate);
      if next != s.rate then StoreRate(n, next) else AfterRate(n)
    case StoreRate(n, _) => AfterRate(n)
    case ResetSamples => ResetLosses
    case ResetLosses => Idle
  }

  /** The effect of one action; one that is not enabled changes nothing. */
  function Apply(s: Shared, a: Action, maxRate: real): Shared {
    match a
    case Call(t, r) =>
      if t in s.threads && s.threads[t].Idle?
      then s.(threads := s.threads[t := Enter(r)],
              accepted := if Accepted(r) then s.accepted + [r.rtt] else s.accepted)
      else s
    case Step(t) =>
      if t in s.threads
      then s.(stats := StatsAfter(s.stats, s.threads[t]),
              threads := s.threads[t := PcAfter(s.stats, s.threads[t], maxRate)])
      else s
    case SetRate(x) => s.(stats := s.stats.(rate := Max(RATE_FLOOR, x)))
  }

  /** A run: any sequence of actions, by any threads in any order. */
  function Execute(s: Shared, acts: seq<Action>, maxRate: real): Shared {
    if acts == [] then s
    else Apply(Execute(s, acts[..|acts| - 1], maxRate), acts[|acts| - 1], maxRate)
  }

  predicate Initial(s: Shared) {
    && s.stats.srtt == -1.0 && s.stats.rttvar == 0.0
    && s.stats.samples == 0 && s.stats.losses == 0
    && s.accepted == []
    && forall t | t in s.threads :: s.threads[t].Idle?
  }

  // ----- An undisturbed call is `Report` -----

  function Rank(pc: Pc): nat {
    match pc
    case Idle => 0
    case ResetLosses => 1
    case ResetSamples => 2
    case StoreRate(_, _) => 3
    case LoadRate(_, _) => 4
    case LoadLosses(_) => 5
    case CountLoss(_) => 6
    case CountSample(_) => 7
    case FirstRttvar(_) => 8
    case StoreRttvar(_, _) => 8
    case FirstSrtt(_) => 9
    case StoreSrtt(_, _, _) => 9
    case LoadRttvar(_, _) => 10
    case LoadSrtt(_) => 11
  }

  /** Runs one thread alone until its call returns. */
  function Alone(s: Stats, pc: Pc, maxRate: real): Stats
    decreases Rank(pc)
  {
    if pc.Idle? then s else Alone(StatsAfter(s, pc), PcAfter(s, pc, maxRate), maxRate)
  }

  lemma {:induction false} AloneIsReport(s: Stats, r: Response, maxRate: real)
    ensures Alone(s, Enter(r), maxRate) == Report(s, r, maxRate)
  {
    AloneFilters(s, r, maxRate);
    AloneCounts(Filtered(s, r), r, maxRate);
  }

  lemma {:induction false} AloneFilters(s: Stats, r: Response, maxRate: real)
    ensures Alone(s, Enter(r), maxRate) == Alone(Filtered(s, r), CountSample(r), maxRate)
  {
    hide Adjust;
    if Accepted(r) {
      var pc1 := PcAfter(s, LoadSrtt(r), maxRate);
      assert Alone(s, Enter(r), maxRate) == Alone(s, pc1, maxRate);
      var s1, pc2 := StatsAfter(s, pc1), PcAfter(s, pc1, maxRate);
      var s2, pc3 := StatsAfter(s1, pc2), PcAfter(s1, pc2, maxRate);
      assert Alone(s, pc1, maxRate) == Alone(s2, pc3, maxRate);
    }
  }

  lemma {:induction false} AloneCounts(s: Stats, r: Response, maxRate: real)
    ensures Alone(s, CountSample(r), maxRate)
         == Settled(Counted(s, r), maxRate)
  {
    hide Adjust;
    var c, n := Counted(s, r), s.samples + 1;
    assert Alone(s, CountSample(r), maxRate) == Alone(c, Judge(n), maxRate);
    if n % ADJUST_EVERY == 0 {
      var next := Adjust(c.rate, c.losses as real / n as real, maxRate);
      var a := c.(rate := next);
      assert Alone(c, LoadLosses(n), maxRate) == Alone(c, LoadRate(n, c.losses), maxRate)
          == Alone(a, AfterRate(n), maxRate);
    }
  }

  function Steps(t: nat, n: nat): seq<Action> {
    seq(n, _ => Step(t))
  }

  lemma {:induction false} ExecuteFirst(s: Shared, a: Action, acts: seq<Action>, maxRate: real)
    ensures Execute(s, [a] + acts, maxRate) == Execute(Apply(s, a, maxRate), acts, maxRate)
    decreases |acts|
  {
    if acts != [] {
      var front := acts[..|acts| - 1];
      assert ([a] + acts)[..|acts|] == [a] + front;
      ExecuteFirst(s, a, front, maxRate);
    } else {
      assert [a] + acts == [a] && [a][..0] == [];
    }
  }

  lemma {:induction false} StepsAlone(s: Shared, t: nat, n: nat, maxRate: real)
    requires t in s.threads && Rank(s.threads[t]) <= n
    ensures Execute(s, Steps(t, n), maxRate)
         == s.(stats := Alone(s.stats, s.threads[t], maxRate), threads := s.threads[t := Idle])
    decreases n
  {
    var pc := s.threads[t];
    if n == 0 {
      assert s.threads[t := Idle] == s.threads;
    } else {
      var next := Apply(s, Step(t), maxRate);
      RankDrops(s.stats, pc, maxRate);
      StepsAlone(next, t, n - 1, maxRate);
      assert Steps(t, n) == [Step(t)] + Steps(t, n - 1);
      ExecuteFirst(s, Step(t), Steps(t, n - 1), maxRate);
      assert next.threads[t := Idle] == s.threads[t := Idle];
    }
  }

  lemma {:induction false} RankDrops(s: Stats, pc: Pc, maxRate: real)
    ensures pc.Idle? ==> PcAfter(s, pc, maxRate) == Idle && StatsAfter(s, pc) == s
    ensures !pc.Idle? ==> Rank(PcAfter(s, pc, maxRate)) < Rank(pc)
  {
    hide Adjust;
  }

  /** A call that no other thread disturbs has exactly the effect of `Report`. */
  lemma {:induction false} UndisturbedCall(s: Shared, t: nat, r: Response, maxRate: real)
    requires t in s.threads && s.threads[t].Idle?
    ensures var e := Execute(s, [Call(t, r)] + Steps(t, 11), maxRate);
      e.stats == Report(s.stats, r, maxRate) && e.threads == s.threads
  {
    var called := Apply(s, Call(t, r), maxRate);
    ExecuteFirst(s, Call(t, r), Steps(t, 11), maxRate);
    StepsAlone(called, t, 11, maxRate);
    AloneIsReport(s.stats, r, maxRate);
  }

  /** Undisturbed calls by thread `t`, one after the other. */
  function Calls(t: nat, rs: seq<Response>): seq<Action> {
    if rs == [] then []
    else Calls(t, rs[..|rs| - 1]) + ([Call(t, rs[|rs| - 1])] + Steps(t, 11))
  }

  lemma {:induction false} ExecuteConcat(s: Shared, a: seq<Action>, b: seq<Action>, maxRate: real)
    ensures Execute(s, a + b, maxRate) == Execute(Execute(s, a, maxRate), b, maxRate)
    decreases |b|
  {
    if b == [] {
      assert a + b == a;
    } else {
      var front := b[..|b| - 1];
      assert (a + b)[..|a + b| - 1] == a + front;
      ExecuteConcat(s, a, front, maxRate);
    }
  }

  /** Calls that no other thread disturbs are a sequential run. */
  lemma {:induction false} UndisturbedCalls(s: Shared, t: nat, rs: seq<Response>, maxRate: real)
    requires t in s.threads && s.threads[t].Idle?
    ensures var e := Execute(s, Calls(t, rs), maxRate);
      e.threads == s.threads && e.stats == Reports(s.stats, rs, maxRate)
    decreases |rs|
  {
    hide Execute, Apply, Report;
    if rs == [] {
      ExecuteNothing(s, maxRate);
    } else {
      var front, r := rs[..|rs| - 1], rs[|rs| - 1];
      var one := [Call(t, r)] + Steps(t, 11);
      UndisturbedCalls(s, t, front, maxRate);
      ExecuteConcat(s, Calls(t, front), one, maxRate);
      UndisturbedCall(Execute(s, Calls(t, front), maxRate), t, r, maxRate);
    }
  }

  lemma {:induction false} ExecuteNothing(s: Shared, maxRate: real)
    ensures Execute(s, [], maxRate) == s
  {
  }

  predicate NoSetRate(acts: seq<Action>) {
    forall i | 0 <= i < |acts| :: !acts[i].SetRate?
  }

  lemma {:induction false} CallsSetNoRate(t: nat, rs: seq<Response>)
    ensures NoSetRate(Calls(t, rs))
    decreases |rs|
  {
    if rs != [] {
      CallsSetNoRate(t, rs[..|rs| - 1]);
    }
  }

  // ----- What a thread stores -----

  /** The other threads' actions, and rates set from outside. */
  predicate WithoutThread(acts: seq<Action>, t: nat) {
    forall i | 0 <= i < |acts| :: acts[i].SetRate? || acts[i].t != t
  }

  lemma {:induction false} LocalsSurvive(s: Shared, acts: seq<Action>, t: nat, maxRate: real)
    requires t in s.threads && WithoutThread(acts, t)
    ensures var e := Execute(s, acts, maxRate); t in e.threads && e.threads[t] == s.threads[t]
    decreases |acts|
  {
    hide StatsAfter, PcAfter;
    if acts != [] {
      LocalsSurvive(s, acts[..|acts| - 1], t, maxRate);
    }
  }

  lemma {:induction false} ExecuteOne(s: Shared, a: Action, maxRate: real)
    ensures Execute(s, [a], maxRate) == Apply(s, a, maxRate)
  {
    assert [a] == [a] + [];
    ExecuteFirst(s, a, [], maxRate);
  }

  function After(s: Shared, t: nat, others: seq<Action>, maxRate: real): Shared {
    Execute(Execute(s, [Step(t)], maxRate), others, maxRate)
  }

  lemma {:induction false} AfterStep(s: Shared, t: nat, others: seq<Action>, maxRate: real)
    requires t in s.threads && WithoutThread(others, t)
    ensures var e := After(s, t, others, maxRate);
      t in e.threads && e.threads[t] == PcAfter(s.stats, s.threads[t], maxRate)
    ensures Execute(s, [Step(t)], maxRate).stats == StatsAfter(s.stats, s.threads[t])
  {
    ExecuteOne(s, Step(t), maxRate);
    LocalsSurvive(Execute(s, [Step(t)], maxRate), others, t, maxRate);
    hide PcAfter, StatsAfter, Execute;
  }

  /** The rate a thread stores is judged from the losses and the rate as it loaded them, whatever others
      do between its accesses; what they stored meanwhile is overwritten. If the judgement keeps the rate
      it loaded, it stores nothing. */
  lemma {:induction false} RateFromLoads(s: Shared, t: nat, n: pos, between: seq<Action>, later: seq<Action>, cap: real)
    requires t in s.threads && s.threads[t] == LoadLosses(n)
    requires WithoutThread(between, t) && WithoutThread(later, t)
    ensures var atRate := After(s, t, between, cap); var atStore := After(atRate, t, later, cap);
      var cur := atRate.stats.rate; var next := Judged(cur, s.stats.losses, n, cap);
      && t in atStore.threads
      && (next != cur ==> Execute(atStore, [Step(t)], cap).stats == atStore.stats.(rate := next))
      && (next == cur ==> atStore.threads[t] == if n >= 1000 then ResetSamples else Idle)
  {
    var atRate := After(s, t, between, cap);
    AfterStep(s, t, between, cap);
    AfterStep(atRate, t, later, cap);
    AdjustIsJudged(atRate.stats.rate, s.stats.losses, n, cap);
    var atStore := After(atRate, t, later, cap);
    AfterStep(atStore, t, [], cap);
    hide Execute, Adjust, Judged, After;
  }

  /** In the same way the filter: SRTT and RTTVAR are each updated from the values loaded, RTTVAR from the
      SRTT before the update. */
  lemma {:induction false} FilterFromLoads(s: Shared, t: nat, r: Response, others: seq<seq<Action>>, cap: real)
    requires t in s.threads && s.threads[t] == LoadSrtt(r) && s.stats.srtt >= 0.0
    requires |others| == 3 && forall i | 0 <= i < 3 :: WithoutThread(others[i], t)
    ensures var atVar := After(s, t, others[0], cap); var atStore := After(atVar, t, others[1], cap);
      var atSecond := After(atStore, t, others[2], cap); var x, before := r.rtt as real, s.stats.srtt;
      && Execute(atStore, [Step(t)], cap).stats == atStore.stats.(srtt := (7.0 * before + x) / 8.0)
      && Execute(atSecond, [Step(t)], cap).stats
         == atSecond.stats.(rttvar := (3.0 * atVar.stats.rttvar + if before > x then before - x else x - before) / 4.0)
  {
    var atVar := After(s, t, others[0], cap);
    AfterStep(s, t, others[0], cap);
    AfterStep(atVar, t, others[1], cap);
    var atStore := After(atVar, t, others[1], cap);
    AfterStep(atStore, t, others[2], cap);
    var atSecond := After(atStore, t, others[2], cap);
    AfterStep(atSecond, t, [], cap);
    hide Execute, After;
  }

  // ----- The rate stays below its cap -----

  /** The rate, and every rate about to be stored, is between 0 and `top`. */
  predicate RatesUpTo(s: Shared, top: real) {
    && 0.0 <= s.stats.rate <= top
    && forall t | t in s.threads && s.threads[t].StoreRate? :: 0.0 <= s.threads[t].next <= top
  }

  lemma {:induction false} UpToStep(s: Shared, a: Action, maxRate: real, top: real)
    requires RatesUpTo(s, top) && !a.SetRate? && 0.0 <= maxRate <= top && top >= 1.0
    ensures RatesUpTo(Apply(s, a, maxRate), top)
  {
  }

  lemma {:induction false} StaysUpTo(s: Shared, acts: seq<Action>, maxRate: real, top: real)
    requires RatesUpTo(s, top) && NoSetRate(acts) && 0.0 <= maxRate <= top && top >= 1.0
    ensures RatesUpTo(Execute(s, acts, maxRate), top)
    decreases |acts|
  {
    if acts != [] {
      StaysUpTo(s, acts[..|acts| - 1], maxRate, top);
      UpToStep(Execute(s, acts[..|acts| - 1], maxRate), acts[|acts| - 1], maxRate, top);
    }
  }

  /** Whatever the constructor is given: in every interleaving without rate changes from outside the rate
      respects the cap, exactly when the cap is at least 1 (or nobody reports and the limiter does not
      already start above it). */
  lemma {:induction false} CapHoldsIff(s: Shared, tokensPerSecond: real, maxRate: real)
    requires Initial(s) && s.stats == Fresh(tokensPerSecond)
    ensures var cap := CapOf(tokensPerSecond, maxRate);
      (forall acts | NoSetRate(acts) :: Execute(s, acts, cap).stats.rate <= cap)
      <==> cap >= 1.0 || (s.threads == map[] && cap >= 0.1)
  {
    var cap := CapOf(tokensPerSecond, maxRate);
    ExecuteNothing(s, cap);
    hide Execute, Reports;
    if cap >= 1.0 {
      forall acts | NoSetRate(acts) ensures Execute(s, acts, cap).stats.rate <= cap {
        StaysUpTo(s, acts, cap, cap);
      }
    } else if s.threads == map[] {
      forall acts | NoSetRate(acts) ensures Execute(s, acts, cap).stats.rate == s.stats.rate {
        RateAtRest(s, acts, cap);
      }
      assert NoSetRate([]);
    } else {
      var t :| t in s.threads;
      var rs := Convergence.Overshoots(tokensPerSecond, maxRate);
      UndisturbedCalls(s, t, rs, cap);
      CallsSetNoRate(t, rs);
      assert Execute(s, Calls(t, rs), cap).stats.rate > cap;
    }
  }

  lemma {:induction false} RateAtRest(s: Shared, acts: seq<Action>, maxRate: real)
    requires s.threads == map[] && NoSetRate(acts)
    ensures var e := Execute(s, acts, maxRate); e.threads == map[] && e.stats.rate == s.stats.rate
    decreases |acts|
  {
    if acts != [] {
      RateAtRest(s, acts[..|acts| - 1], maxRate);
    }
  }

  /** A rate set from outside is limited by the floor, not by the cap. */
  lemma {:induction false} SetRateIgnoresCap(s: Shared, tokensPerSecond: real, maxRate: real)
    ensures Execute(s, [SetRate(tokensPerSecond)], maxRate).stats.rate
         == if tokensPerSecond < 0.1 then 0.1 else tokensPerSecond
  {
    assert [SetRate(tokensPerSecond)][..0] == [];
  }

  // ----- The rate stays in its band -----

  predicate RatesInBand(s: Shared, maxRate: real) {
    && 1.0 <= s.stats.rate <= maxRate
    && forall t | t in s.threads && s.threads[t].StoreRate? :: 1.0 <= s.threads[t].next <= maxRate
  }

  /** `set_rate` is not called, or only with rates from the band. */
  predicate BandedSetRates(acts: seq<Action>, maxRate: real) {
    forall i | 0 <= i < |acts| && acts[i].SetRate? :: 1.0 <= acts[i].tokensPerSecond <= maxRate
  }

  /** The read-compute-store of the rate is not atomic, updates may be lost, yet no interleaving
      takes the rate out of [1, maxRate]. */
  lemma {:induction false} RateNeverLeavesBand(s: Shared, acts: seq<Action>, maxRate: real)
    requires Initial(s) && 1.0 <= s.stats.rate <= maxRate && BandedSetRates(acts, maxRate)
    ensures RatesInBand(Execute(s, acts, maxRate), maxRate)
    decreases |acts|
  {
    if acts != [] {
      var n := |acts|;
      RateNeverLeavesBand(s, acts[..n - 1], maxRate);
      assert acts[n - 1].SetRate? ==> 1.0 <= acts[n - 1].tokensPerSecond <= maxRate;
      BandStep(Execute(s, acts[..n - 1], maxRate), acts[n - 1], maxRate);
    }
  }

  lemma {:induction false} BandStep(s: Shared, a: Action, maxRate: real)
    requires RatesInBand(s, maxRate)
    requires a.SetRate? ==> 1.0 <= a.tokensPerSecond <= maxRate
    ensures RatesInBand(Apply(s, a, maxRate), maxRate)
  {
  }

  // ----- The filter stays within the accepted samples -----

  predicate Within(x: real, accepted: seq<int>) {
    exists i, j | 0 <= i < |accepted| && 0 <= j < |accepted| ::
      accepted[i] as real <= x <= accepted[j] as real
  }

  predicate VarianceWithin(x: real, accepted: seq<int>) {
    x == 0.0 || (x > 0.0 && exists j | 0 <= j < |accepted| :: x <= accepted[j] as real)
  }

  predicate PcWithin(pc: Pc, accepted: seq<int>) {
    match pc
    case LoadSrtt(r) => r.rtt in accepted
    case FirstSrtt(r) => r.rtt in accepted
    case FirstRttvar(r) => r.rtt in accepted
    case LoadRttvar(r, srtt) => r.rtt in accepted && Within(srtt, accepted)
    case StoreSrtt(_, srtt, rttvar) => Within(srtt, accepted) && VarianceWithin(rttvar, accepted)
    case StoreRttvar(_, rttvar) => VarianceWithin(rttvar, accepted)
    case _ => true
  }

  predicate FilterWithin(s: Shared) {
    && (forall i | 0 <= i < |s.accepted| :: s.accepted[i] >= 0)
    && (s.stats.srtt == -1.0 || Within(s.stats.srtt, s.accepted))
    && VarianceWithin(s.stats.rttvar, s.accepted)
    && forall t | t in s.threads :: PcWithin(s.threads[t], s.accepted)
  }

  lemma {:induction false} WithinGrows(x: real, accepted: seq<int>, r: int)
    ensures Within(x, accepted) ==> Within(x, accepted + [r])
    ensures VarianceWithin(x, accepted) ==> VarianceWithin(x, accepted + [r])
  {
    var more := accepted + [r];
    forall i | 0 <= i < |accepted| ensures more[i] == accepted[i] {}
  }

  lemma {:induction false} PcWithinGrows(pc: Pc, accepted: seq<int>, r: int)
    requires PcWithin(pc, accepted)
    ensures PcWithin(pc, accepted + [r])
  {
    match pc
    case LoadRttvar(_, srtt) => WithinGrows(srtt, accepted, r);
    case StoreSrtt(_, srtt, rttvar) => WithinGrows(srtt, accepted, r); WithinGrows(rttvar, accepted, r);
    case StoreRttvar(_, rttvar) => WithinGrows(rttvar, accepted, r);
    case _ =>
  }

  /** A mean of two values between accepted samples is between accepted samples. */
  lemma {:induction false} FilterValuesWithin(r: int, srtt: real, rttvar: real, accepted: seq<int>)
    requires forall i | 0 <= i < |accepted| :: accepted[i] >= 0
    requires r in accepted && Within(srtt, accepted) && VarianceWithin(rttvar, accepted)
    ensures Within(NextSrtt(srtt, r as real), accepted)
    ensures VarianceWithin(NextRttvar(srtt, rttvar, r as real), accepted)
  {
    var i, j :| 0 <= i < |accepted| && 0 <= j < |accepted| && accepted[i] as real <= srtt <= accepted[j] as real;
    var k :| 0 <= k < |accepted| && accepted[k] == r;
    var lo := if r < accepted[i] then k else i;
    var hi := if r > accepted[j] then k else j;
    assert accepted[lo] as real <= NextSrtt(srtt, r as real) <= accepted[hi] as real;
    var next := NextRttvar(srtt, rttvar, r as real);
    if rttvar > 0.0 {
      var m :| 0 <= m < |accepted| && rttvar <= accepted[m] as real;
      var top := if accepted[m] > accepted[hi] then m else hi;
      assert 0.0 < next <= accepted[top] as real;
    } else {
      assert next <= accepted[hi] as real;
    }
  }

  lemma {:induction false} FilterNeverLeavesSamples(s: Shared, acts: seq<Action>, maxRate: real)
    requires Initial(s)
    ensures FilterWithin(Execute(s, acts, maxRate))
    decreases |acts|
  {
    if acts != [] {
      var n := |acts|;
      FilterNeverLeavesSamples(s, acts[..n - 1], maxRate);
      FilterStep(Execute(s, acts[..n - 1], maxRate), acts[n - 1], maxRate);
    }
  }

  lemma {:induction false} FilterStep(s: Shared, a: Action, maxRate: real)
    requires FilterWithin(s)
    ensures FilterWithin(Apply(s, a, maxRate))
  {
    match a
    case Call(t, r) =>
      if t in s.threads && s.threads[t].Idle? && Accepted(r) {
        var e := Apply(s, a, maxRate);
        WithinGrows(s.stats.srtt, s.accepted, r.rtt);
        WithinGrows(s.stats.rttvar, s.accepted, r.rtt);
        forall u | u in e.threads ensures PcWithin(e.threads[u], e.accepted) {
          if u == t {
            assert e.accepted[|s.accepted|] == r.rtt;
          } else {
            PcWithinGrows(s.threads[u], s.accepted, r.rtt);
          }
        }
      }
    case Step(t) =>
      if t in s.threads {
        FilterPcStep(s, t, maxRate);
      }
    case SetRate(_) =>
  }

  lemma {:induction false} FilterPcStep(s: Shared, t: nat, maxRate: real)
    requires FilterWithin(s) && t in s.threads
    ensures FilterWithin(Apply(s, Step(t), maxRate))
  {
    hide Adjust, NextSrtt, NextRttvar;
    var pc := s.threads[t];
    match pc
    case LoadRttvar(r, srtt) =>
      FilterValuesWithin(r.rtt, srtt, s.stats.rttvar, s.accepted);
    case FirstSrtt(r) =>
      var i :| 0 <= i < |s.accepted| && s.accepted[i] == r.rtt;
    case FirstRttvar(r) =>
      var i :| 0 <= i < |s.accepted| && s.accepted[i] == r.rtt;
    case LoadSrtt(r) =>
    case _ =>
  }

  // ----- How far the counters can drift -----

  /** The threads that stand at a point of the given kind. */
  function ThreadsAt(threads: map<nat, Pc>, at: Pc -> bool): set<nat> {
    set t | t in threads && at(threads[t])
  }

  /** Threads that have counted a lost sample but not yet the loss. */
  function Owing(threads: map<nat, Pc>): set<nat> {
    ThreadsAt(threads, (pc: Pc) => pc.CountLoss?)
  }

  /** Threads between the two reset stores. */
  function Between(threads: map<nat, Pc>): set<nat> {
    ThreadsAt(threads, (pc: Pc) => pc.ResetLosses?)
  }

  /** A thread bound to reset the sample counter. */
  predicate WillReset(pc: Pc) {
    match pc
    case CountLoss(n) => n % ADJUST_EVERY == 0 && n >= WINDOW_RESET
    case LoadLosses(n) => n >= WINDOW_RESET
    case LoadRate(n, _) => n >= WINDOW_RESET
    case StoreRate(n, _) => n >= WINDOW_RESET
    case ResetSamples => true
    case _ => false
  }

  function Resetters(threads: map<nat, Pc>): set<nat> {
    ThreadsAt(threads, WillReset)
  }

  lemma {:induction false} ThreadsAfterMove(threads: map<nat, Pc>, t: nat, pc: Pc, at: Pc -> bool)
    requires t in threads
    ensures ThreadsAt(threads[t := pc], at)
         == if at(pc) then ThreadsAt(threads, at) + {t} else ThreadsAt(threads, at) - {t}
    ensures |ThreadsAt(threads[t := pc], at)| == |ThreadsAt(threads, at)| + Bit(at(pc)) - Bit(at(threads[t]))
  {
    assert t in ThreadsAt(threads, at) <==> at(threads[t]);
  }

  lemma {:induction false} SetsAfterMove(threads: map<nat, Pc>, t: nat, pc: Pc)
    requires t in threads
    ensures Between(threads[t := pc]) == if pc.ResetLosses? then Between(threads) + {t} else Between(threads) - {t}
    ensures |Owing(threads[t := pc])| == |Owing(threads)| + Bit(pc.CountLoss?) - Bit(threads[t].CountLoss?)
    ensures |Resetters(threads[t := pc])|
         == |Resetters(threads)| + Bit(WillReset(pc)) - Bit(WillReset(threads[t]))
  {
    ThreadsAfterMove(threads, t, pc, (pc: Pc) => pc.ResetLosses?);
    ThreadsAfterMove(threads, t, pc, (pc: Pc) => pc.CountLoss?);
    ThreadsAfterMove(threads, t, pc, WillReset);
  }

  lemma {:induction false} SetSizes(threads: map<nat, Pc>, t: nat)
    requires t in threads
    ensures Bit(threads[t].CountLoss?) <= |Owing(threads)|
    ensures |Owing(threads)| + Bit(!threads[t].CountLoss?) <= |threads|
    ensures Bit(WillReset(threads[t])) <= |Resetters(threads)| <= |threads|
    ensures threads[t].ResetLosses? <==> t in Between(threads)
  {
    assert |threads| == |threads.Keys|;
    SubsetSize(Resetters(threads), threads.Keys);
    SubsetSize(Owing(threads), threads.Keys);
    if threads[t].CountLoss? {
      SubsetSize({t}, Owing(threads));
    } else {
      SubsetSize(Owing(threads), threads.Keys - {t});
    }
    if WillReset(threads[t]) {
      SubsetSize({t}, Resetters(threads));
    }
  }

  lemma {:induction false} SubsetSize(a: set<nat>, b: set<nat>)
    requires a <= b
    ensures |a| <= |b|
    decreases |a|
  {
    if a != {} {
      var x :| x in a;
      SubsetSize(a - {x}, b - {x});
    }
  }

  function Bit(b: bool): nat { if b then 1 else 0 }

  predicate LossesClose(s: Stats, owing: nat, between: bool, threads: nat) {
    between || s.losses + owing + 1 <= s.samples + threads
  }

  predicate SamplesClose(s: Stats, resetters: nat) {
    s.samples < WINDOW_RESET + ADJUST_EVERY * resetters
  }

  predicate CountersClose(s: Shared) {
    && LossesClose(s.stats, |Owing(s.threads)|, Between(s.threads) != {}, |s.threads|)
    && SamplesClose(s.stats, |Resetters(s.threads)|)
  }

  lemma {:induction false} LossStep(s: Stats, pc: Pc, owing: nat, othersBetween: bool, threads: nat, maxRate: real)
    requires Bit(pc.CountLoss?) <= owing && owing + Bit(!pc.CountLoss?) <= threads
    requires LossesClose(s, owing, othersBetween || pc.ResetLosses?, threads)
    ensures var pc' := PcAfter(s, pc, maxRate);
      LossesClose(StatsAfter(s, pc), owing + Bit(pc'.CountLoss?) - Bit(pc.CountLoss?),
                  othersBetween || pc'.ResetLosses?, threads)
  {
    hide Adjust, NextSrtt, NextRttvar;
  }

  lemma {:induction false} SampleStep(s: Stats, pc: Pc, resetters: nat, maxRate: real)
    requires Bit(WillReset(pc)) <= resetters
    requires SamplesClose(s, resetters)
    ensures SamplesClose(StatsAfter(s, pc), resetters + Bit(WillReset(PcAfter(s, pc, maxRate))) - Bit(WillReset(pc)))
  {
    hide Adjust, NextSrtt, NextRttvar;
  }

  /** With T threads, whenever none is between the two reset stores the loss count exceeds the
      sample count by at most T - 1, and the sample count never reaches 1000 + 100 T. */
  lemma {:induction false} CountersNeverDrift(s: Shared, acts: seq<Action>, maxRate: real)
    requires Initial(s) && |s.threads| > 0
    ensures var e := Execute(s, acts, maxRate);
      && |e.threads| == |s.threads|
      && (Between(e.threads) == {} ==> e.stats.losses <= e.stats.samples + |s.threads| - 1)
      && e.stats.samples < 1000 + 100 * |s.threads|
  {
    CountersStayClose(s, acts, maxRate);
    var e := Execute(s, acts, maxRate);
    var t :| t in e.threads;
    SetSizes(e.threads, t);
  }

  lemma {:induction false} CountersStayClose(s: Shared, acts: seq<Action>, maxRate: real)
    requires Initial(s) && |s.threads| > 0
    ensures var e := Execute(s, acts, maxRate); CountersClose(e) && e.threads.Keys == s.threads.Keys
    decreases |acts|
  {
    if acts == [] {
      assert Owing(s.threads) == {};
    } else {
      var n := |acts|;
      CountersStayClose(s, acts[..n - 1], maxRate);
      CountersStep(Execute(s, acts[..n - 1], maxRate), acts[n - 1], maxRate);
    }
  }

  lemma {:induction false} CountersStep(s: Shared, a: Action, maxRate: real)
    requires CountersClose(s)
    ensures var e := Apply(s, a, maxRate); CountersClose(e) && e.threads.Keys == s.threads.Keys
  {
    match a
    case Call(t, r) =>
      if t in s.threads && s.threads[t].Idle? {
        SetsAfterMove(s.threads, t, Enter(r));
        assert s.threads[t := Enter(r)].Keys == s.threads.Keys;
      }
    case Step(t) =>
      if t in s.threads {
        CountersPcStep(s, t, maxRate);
      }
    case SetRate(_) =>
  }

  lemma {:induction false} CountersPcStep(s: Shared, t: nat, maxRate: real)
    requires CountersClose(s) && t in s.threads
    ensures var e := Apply(s, Step(t), maxRate); CountersClose(e) && e.threads.Keys == s.threads.Keys
  {
    hide StatsAfter, PcAfter, Owing, Resetters, Between, WillReset;
    var pc, pc' := s.threads[t], PcAfter(s.stats, s.threads[t], maxRate);
    SetsAfterMove(s.threads, t, pc');
    SetSizes(s.threads, t);
    assert s.threads[t := pc'].Keys == s.threads.Keys;
    assert |s.threads[t := pc']| == |s.threads|;
    LossStep(s.stats, pc, |Owing(s.threads)|, Between(s.threads) - {t} != {}, |s.threads|, maxRate);
    SampleStep(s.stats, pc, |Resetters(s.threads)|, maxRate);
  }
}
