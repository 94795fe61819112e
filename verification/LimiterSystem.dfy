/** The whole limiter: bucket, waiters and clock together with the threads inside `on_response`,
    every step interleaved freely, and the limits the command line puts on it. */
module LimiterSystem {
  import opened Prelude
  import opened RateControl
  import opened TokenBucket
  import opened Convergence
  import opened Reporting
  import opened RateLimiter

  datatype System = System(bucket: Bucket, shared: Shared)

  datatype Event = OnBucket(m: Move) | OnReport(a: Action)

  datatype Config = Config(adaptive: bool, maxRate: real)

  /** In fixed mode `on_response` returns before its first access. */
  function Happen(s: System, e: Event, c: Config): System {
    match e
    case OnBucket(m) => s.(bucket := Moved(s.bucket, m, s.shared.stats.rate))
    case OnReport(a) =>
      if a.Call? && !c.adaptive then s else s.(shared := Apply(s.shared, a, c.maxRate))
  }

  function History(s: System, events: seq<Event>, c: Config): System {
    if events == [] then s
    else Happen(History(s, events[..|events| - 1], c), events[|events| - 1], c)
  }

  /** The rate in force before each event is between 0 and `top`. */
  predicate RatesWithin(s: System, events: seq<Event>, c: Config, top: real) {
    forall n | 0 <= n <= |events| :: 0.0 <= History(s, events[..n], c).shared.stats.rate <= top
  }

  lemma {:induction false} StaysBounded(s: System, events: seq<Event>, c: Config, top: real)
    requires Full(s.bucket) && RatesWithin(s, events, c, top)
    ensures Bounded(History(s, events, c).bucket, top)
    ensures History(s, events, c).bucket.capacity == s.bucket.capacity
    decreases |events|
  {
    if events != [] {
      var n := |events| - 1;
      var front := events[..n];
      forall k | 0 <= k <= |front| ensures 0.0 <= History(s, front[..k], c).shared.stats.rate <= top {
        assert front[..k] == events[..k];
      }
      StaysBounded(s, front, c, top);
      var before := History(s, front, c);
      match events[n]
      case OnBucket(m) => BoundedMove(before.bucket, m, before.shared.stats.rate, top);
      case OnReport(_) =>
    } else {
      assert events[..0] == [];
    }
  }

  /** In every run of acquirers, reporters, rate changes and clock ticks, the tokens granted in any
      closed window are at most the capacity plus the largest rate in force times its length. */
  lemma {:induction false} WindowGrants(s: System, events: seq<Event>, c: Config, top: real, from: real, to: real)
    requires Full(s.bucket) && RatesWithin(s, events, c, top) && from <= to
    ensures GrantsWithin(History(s, events, c).bucket.grants, from, to) as real
         <= s.bucket.capacity + top * (to - from)
  {
    StaysBounded(s, events, c, top);
    WindowBound(History(s, events, c).bucket, top, from, to);
  }

  // ----- Limits from the command line -----

  /** Range checks and correction of `--rate` and `--max-rate`; no value stands for a rejected line. */
  function CliRates(rate: real, maxRate: real): Option<(real, real)> {
    if !(1.0 <= rate <= 100000.0) || !(1.0 <= maxRate <= 100000.0) then None
    else Some((rate, if maxRate < rate then rate else maxRate))
  }

  /** The limiter as the command-line program builds it: capacity equal to the rate. */
  predicate BuiltFromCli(s: System, c: Config, rate: real, maxRate: real) {
    && c.maxRate == CapOf(rate, maxRate)
    && Full(s.bucket) && s.bucket.capacity == Max(1.0, rate)
    && Initial(s.shared) && s.shared.stats == Fresh(rate)
  }

  predicate NoRateEvents(events: seq<Event>) {
    forall i | 0 <= i < |events| :: !(events[i].OnReport? && events[i].a.SetRate?)
  }

  predicate Behaved(s: System, c: Config, rate: real) {
    && RatesInBand(s.shared, c.maxRate)
    && (!c.adaptive ==> s.shared.stats.rate == rate && forall t | t in s.shared.threads :: s.shared.threads[t].Idle?)
  }

  lemma {:induction false} BehavedStep(s: System, e: Event, c: Config, rate: real)
    requires Behaved(s, c, rate) && !(e.OnReport? && e.a.SetRate?)
    ensures Behaved(Happen(s, e, c), c, rate)
  {
    if e.OnReport? {
      BandStep(s.shared, e.a, c.maxRate);
    }
  }

  lemma {:induction false} StaysBehaved(s: System, events: seq<Event>, c: Config, rate: real)
    requires Behaved(s, c, rate) && NoRateEvents(events)
    ensures Behaved(History(s, events, c), c, rate)
    decreases |events|
  {
    if events != [] {
      StaysBehaved(s, events[..|events| - 1], c, rate);
      BehavedStep(History(s, events[..|events| - 1], c), events[|events| - 1], c, rate);
    }
  }

  /** The command line accepts exactly rates from 1 to 100000. A scan started from it then never sends more
      than `rate` plus the window length times its cap (`--max-rate` in adaptive mode, but at least `--rate`;
      `--rate` otherwise) in any window. */
  lemma {:induction false} CliWindowGrants(s: System, events: seq<Event>, c: Config, rate: real, maxRate: real,
                          from: real, to: real)
    requires NoRateEvents(events) && from <= to
    ensures CliRates(rate, maxRate).Some? <==> 1.0 <= rate <= 100000.0 && 1.0 <= maxRate <= 100000.0
    ensures CliRates(rate, maxRate).Some? && BuiltFromCli(s, c, rate, CliRates(rate, maxRate).value.1) ==>
      var top := if c.adaptive && maxRate > rate then maxRate else rate;
      GrantsWithin(History(s, events, c).bucket.grants, from, to) as real <= rate + top * (to - from)
  {
    if CliRates(rate, maxRate).Some? && BuiltFromCli(s, c, rate, CliRates(rate, maxRate).value.1) {
      var top := if c.adaptive then CliRates(rate, maxRate).value.1 else rate;
      forall n | 0 <= n <= |events| ensures 0.0 <= History(s, events[..n], c).shared.stats.rate <= top {
        StaysBehaved(s, events[..n], c, rate);
      }
      hide History;
      WindowGrants(s, events, c, top, from, to);
    }
  }

  // ----- Limits of the graphical program -----

  /** The limiter as the graphical program builds it for one scan: adaptive, with a cap of ten times
      the rate. */
  predicate BuiltFromGui(s: System, c: Config, rate: real) {
    && c.adaptive && c.maxRate == CapOf(rate, rate * 10.0)
    && Full(s.bucket) && s.bucket.capacity == Max(1.0, rate)
    && Initial(s.shared) && s.shared.stats == Fresh(rate)
  }

  lemma {:induction false} SystemStaysUpTo(s: System, events: seq<Event>, c: Config, top: real)
    requires RatesUpTo(s.shared, top) && NoRateEvents(events) && 0.0 <= c.maxRate <= top && top >= 1.0
    ensures RatesUpTo(History(s, events, c).shared, top)
    decreases |events|
  {
    if events != [] {
      SystemStaysUpTo(s, events[..|events| - 1], c, top);
      if events[|events| - 1].OnReport? {
        UpToStep(History(s, events[..|events| - 1], c).shared, events[|events| - 1].a, c.maxRate, top);
      }
    }
  }

  /** A scan started from the graphical program, at any rate its controller accepts: below 0.1 per
      second the floors of the code, not the cap, are what limits it. */
  lemma {:induction false} GuiWindowGrants(s: System, events: seq<Event>, c: Config, rate: real, from: real, to: real)
    requires rate > 0.0 && BuiltFromGui(s, c, rate)
    requires NoRateEvents(events) && from <= to
    ensures GrantsWithin(History(s, events, c).bucket.grants, from, to) as real
         <= Max(1.0, rate) + Max(1.0, rate * 10.0) * (to - from)
  {
    var top := Max(1.0, rate * 10.0);
    forall n | 0 <= n <= |events| ensures 0.0 <= History(s, events[..n], c).shared.stats.rate <= top {
      SystemStaysUpTo(s, events[..n], c, top);
    }
    WindowGrants(s, events, c, top, from, to);
  }

  function Reported(acts: seq<Reporting.Action>): seq<Event> {
    seq(|acts|, i requires 0 <= i < |acts| => OnReport(acts[i]))
  }

  lemma {:induction false} ReportedRun(s: System, acts: seq<Reporting.Action>, c: Config)
    requires c.adaptive
    ensures History(s, Reported(acts), c) == s.(shared := Execute(s.shared, acts, c.maxRate))
    decreases |acts|
  {
    hide Apply;
    if acts != [] {
      var n := |acts| - 1;
      ReportedRun(s, acts[..n], c);
      assert Reported(acts)[..n] == Reported(acts[..n]);
    }
  }

  /** And its cap is reached: enough clean responses take the rate to exactly ten times the one set. */
  lemma {:induction false} GuiCapIsReached(s: System, c: Config, rate: real, t: nat) returns (events: seq<Event>)
    requires rate >= 1.0 && BuiltFromGui(s, c, rate) && t in s.shared.threads
    ensures NoRateEvents(events) && History(s, events, c).shared.stats.rate == 10.0 * rate
  {
    var m: nat := (20.0 * (10.0 * rate - 1.0)).Floor + 1;
    var rs: seq<Response> := seq(1000 + m * 100, _ => Response(0, false));
    CleanRunReachesCapLinear(s.shared.stats, rs, m, c.maxRate);
    hide Execute, Reports;
    UndisturbedCalls(s.shared, t, rs, c.maxRate);
    CallsSetNoRate(t, rs);
    ReportedRun(s, Calls(t, rs), c);
    events := Reported(Calls(t, rs));
  }

  // ----- Everyone can be served -----

  /** Every timer is armed for the computed wait, truncated to nanoseconds, at the rate then in force. */
  predicate TruncatedArm(b: Bucket, m: Move, rate: real) {
    m.Arm? && m.w in b.waiters && b.waiters[m.w].Short? && rate > 0.0 ==>
      m.wait == Seconds(Truncated(b.waiters[m.w].need / rate))
  }

  predicate TruncatedRun(s: System, events: seq<Event>, c: Config) {
    forall n | 0 <= n < |events| && events[n].OnBucket? ::
      var before := History(s, events[..n], c);
      TruncatedArm(before.bucket, events[n].m, before.shared.stats.rate)
  }

  lemma {:induction false} HistoryMore(s: System, events: seq<Event>, e: Event, c: Config)
    ensures History(s, events + [e], c) == Happen(History(s, events, c), e, c)
    ensures TruncatedRun(s, events, c)
      && (e.OnBucket? ==> TruncatedArm(History(s, events, c).bucket, e.m, History(s, events, c).shared.stats.rate))
      ==> TruncatedRun(s, events + [e], c)
  {
    hide TruncatedArm, Happen;
    var more := events + [e];
    assert more[..|events|] == events;
    forall n | 0 <= n < |events| ensures more[..n] == events[..n] && more[n] == events[n] {}
  }

  predicate Sound(b: Bucket) {
    && b.capacity >= 1.0 && b.last <= b.now
    && forall w | w in b.waiters && b.waiters[w].Short? :: b.waiters[w].need > 0.0
  }

  lemma {:induction false} SoundMove(b: Bucket, m: Move, rate: real)
    requires Sound(b)
    ensures Sound(Moved(b, m, rate))
  {
    hide Gained;
  }

  lemma {:induction false} StaysSound(s: System, events: seq<Event>, c: Config)
    requires Sound(s.bucket)
    ensures Sound(History(s, events, c).bucket)
    decreases |events|
  {
    if events != [] {
      var before, e := History(s, events[..|events| - 1], c), events[|events| - 1];
      StaysSound(s, events[..|events| - 1], c);
      if e.OnBucket? {
        SoundMove(before.bucket, e.m, before.shared.stats.rate);
      }
    }
  }

  function Shorts(b: Bucket): set<nat> {
    set w | w in b.waiters && b.waiters[w].Short?
  }

  /** How far time must pass until a waiter's timer is due and the bucket holds a token. */
  function Delay(b: Bucket, w: nat, rate: real): real
    requires w in b.waiters && rate > 0.0
  {
    var deadline := if b.waiters[w].Asleep? then b.waiters[w].deadline - b.now else 0.0;
    Max(0.0, Max(deadline, (1.0 - b.tokens) / rate))
  }

  lemma {:induction false} DelaySuffices(b: Bucket, w: nat, rate: real)
    requires Sound(b) && w in b.waiters && rate > 0.0
    ensures var now := b.now + Delay(b, w, rate);
      && Refilled(b.tokens, b.capacity, rate, now - b.last) >= 1.0
      && now >= b.now && (b.waiters[w].Asleep? ==> b.waiters[w].deadline <= now)
  {
    var dt, missing := b.now + Delay(b, w, rate) - b.last, (1.0 - b.tokens) / rate;
    GainedQuotient(rate, 1.0 - b.tokens);
    GainedMonotone(rate, missing, dt);
    hide Gained;
  }

  /** Moves of acquirers and clock only, and nobody new. */
  predicate OnlyServes(events: seq<Event>) {
    forall i | 0 <= i < |events| :: events[i].OnBucket? && !events[i].m.Arrive?
  }

  /** A continuation by acquirers and clock alone, with truncated waits and the rate untouched. */
  ghost predicate Serves(s: System, events: seq<Event>, more: seq<Event>, c: Config) {
    && events <= more && OnlyServes(more[|events|..]) && TruncatedRun(s, more, c)
    && History(s, more, c).shared == History(s, events, c).shared
    && Sound(History(s, more, c).bucket)
  }

  lemma {:induction false} ServesTransitive(s: System, a: seq<Event>, b: seq<Event>, d: seq<Event>, c: Config)
    requires Serves(s, a, b, c) && Serves(s, b, d, c)
    ensures Serves(s, a, d, c)
  {
    hide TruncatedRun, Sound, History;
    assert d[|a|..] == b[|a|..] + d[|b|..];
  }

  /** One more move. */
  lemma {:induction false} MoveNext(s: System, events: seq<Event>, m: Move, c: Config) returns (more: seq<Event>)
    requires TruncatedRun(s, events, c) && Sound(History(s, events, c).bucket) && !m.Arrive?
    requires var e := History(s, events, c); TruncatedArm(e.bucket, m, e.shared.stats.rate)
    ensures more == events + [OnBucket(m)] && Serves(s, events, more, c)
    ensures var e := History(s, events, c); History(s, more, c).bucket == Moved(e.bucket, m, e.shared.stats.rate)
  {
    more := events + [OnBucket(m)];
    HistoryMore(s, events, OnBucket(m), c);
    SoundMove(History(s, events, c).bucket, m, History(s, events, c).shared.stats.rate);
    hide History, TruncatedRun, Sound, TruncatedArm;
  }

  lemma {:induction false} ArmNext(s: System, events: seq<Event>, w: nat, c: Config) returns (more: seq<Event>)
    requires TruncatedRun(s, events, c)
    requires var e := History(s, events, c); Sound(e.bucket) && e.shared.stats.rate > 0.0 && w in Shorts(e.bucket)
    ensures Serves(s, events, more, c)
    ensures var b, d := History(s, events, c).bucket, History(s, more, c).bucket;
      && d.grants == b.grants && |d.waiters| == |b.waiters|
      && |Shorts(d)| < |Shorts(b)|
  {
    var e := History(s, events, c);
    var b := e.bucket;
    hide History, TruncatedRun, Serves;
    var wait := Seconds(Truncated(b.waiters[w].need / e.shared.stats.rate));
    WaitNotNegative(b.waiters[w].need, e.shared.stats.rate);
    var waiters := b.waiters[w := Asleep(b.now + wait)];
    more := MoveNext(s, events, Arm(w, wait), c);
    assert waiters.Keys == b.waiters.Keys && |waiters| == |waiters.Keys|;
    assert Shorts(b.(waiters := waiters)) == Shorts(b) - {w};
  }

  lemma {:induction false} WaitNotNegative(need: real, rate: real)
    requires need > 0.0 && rate > 0.0
    ensures Seconds(Truncated(need / rate)) >= 0.0
  {
    NonnegativeProduct(need / rate);
  }

  lemma {:induction false} NonnegativeProduct(x: real)
    requires x >= 0.0
    ensures Seconds(Truncated(x)) >= 0.0
  {
  }

  /** Let time pass until the timer is due and a token is there, wake up, take the token. */
  lemma {:induction false} TakeNext(s: System, events: seq<Event>, w: nat, c: Config) returns (more: seq<Event>)
    requires TruncatedRun(s, events, c)
    requires var e := History(s, events, c);
      Sound(e.bucket) && e.shared.stats.rate > 0.0 && w in e.bucket.waiters && StrandFree(e.bucket)
    ensures Serves(s, events, more, c)
    ensures var b, d := History(s, events, c).bucket, History(s, more, c).bucket;
      |d.grants| == |b.grants| + 1 && d.waiters == Without(b.waiters, w)
  {
    var e := History(s, events, c);
    var b, rate := e.bucket, e.shared.stats.rate;
    hide History, TruncatedRun, Serves, Refilled, Delay, Sound;
    DelaySuffices(b, w, rate);
    var ticked := MoveNext(s, events, Tick(Delay(b, w, rate)), c);
    ServesFacts(s, events, ticked, c);
    var awake := ticked;
    if b.waiters[w].Asleep? {
      awake := MoveNext(s, ticked, Wake(w), c);
      ServesFacts(s, ticked, awake, c);
      ServesTransitive(s, events, ticked, awake, c);
    }
    var b2 := History(s, awake, c).bucket;
    assert b2 == b.(now := b.now + Delay(b, w, rate), waiters := b.waiters[w := Ready]);
    more := MoveNext(s, awake, Attempt(w), c);
    ServesTransitive(s, events, awake, more, c);
    assert Without(b2.waiters, w) == Without(b.waiters, w);
  }

  lemma {:induction false} ServesFacts(s: System, events: seq<Event>, more: seq<Event>, c: Config)
    requires Serves(s, events, more, c)
    ensures TruncatedRun(s, more, c) && Sound(History(s, more, c).bucket)
    ensures History(s, more, c).shared == History(s, events, c).shared
  {
  }

  predicate RatesPositive(s: Shared) {
    s.stats.rate > 0.0 && forall t | t in s.threads && s.threads[t].StoreRate? :: s.threads[t].next > 0.0
  }

  lemma {:induction false} PositiveStep(s: Shared, a: Reporting.Action, maxRate: real)
    requires RatesPositive(s) && maxRate > 0.0
    ensures RatesPositive(Apply(s, a, maxRate))
  {
  }

  /** A limiter built with a positive cap never gets a rate of zero, whatever is reported or set. */
  lemma {:induction false} RateStaysPositive(s: System, events: seq<Event>, c: Config)
    requires Initial(s.shared) && s.shared.stats.rate > 0.0 && c.maxRate > 0.0
    ensures RatesPositive(History(s, events, c).shared)
    decreases |events|
  {
    if events != [] {
      var before, e := History(s, events[..|events| - 1], c), events[|events| - 1];
      RateStaysPositive(s, events[..|events| - 1], c);
      if e.OnReport? {
        PositiveStep(before.shared, e.a, c.maxRate);
      }
    }
  }

  /** Nobody is shut out, whatever happened before: as long as the rate in force is positive, every run
      with truncated waits can be continued until all who wait have their token, one grant each. */
  lemma {:induction false} EveryoneCanBeServed(s: System, events: seq<Event>, c: Config) returns (more: seq<Event>)
    requires Full(s.bucket) && s.bucket.waiters == map[] && TruncatedRun(s, events, c)
    requires History(s, events, c).shared.stats.rate > 0.0
    ensures Serves(s, events, more, c)
    ensures var b, d := History(s, events, c).bucket, History(s, more, c).bucket;
      d.waiters == map[] && |d.grants| == |b.grants| + |b.waiters|
  {
    StaysSound(s, events, c);
    more := ServeAll(s, events, c);
  }

  lemma {:induction false} ServeAll(s: System, events: seq<Event>, c: Config) returns (more: seq<Event>)
    requires TruncatedRun(s, events, c)
    requires var e := History(s, events, c); Sound(e.bucket) && e.shared.stats.rate > 0.0
    ensures Serves(s, events, more, c)
    ensures var b, d := History(s, events, c).bucket, History(s, more, c).bucket;
      d.waiters == map[] && |d.grants| == |b.grants| + |b.waiters|
    decreases |History(s, events, c).bucket.waiters|, |Shorts(History(s, events, c).bucket)|
  {
    var b := History(s, events, c).bucket;
    if b.waiters == map[] {
      more := events;
    } else {
      hide History, TruncatedRun, Sound, Serves, Shorts;
      var next := NextServed(s, events, c);
      ServesFacts(s, events, next, c);
      more := ServeAll(s, next, c);
      ServesTransitive(s, events, next, more, c);
    }
  }

  /** A grant, or one timer armed. */
  lemma {:induction false} NextServed(s: System, events: seq<Event>, c: Config) returns (next: seq<Event>)
    requires TruncatedRun(s, events, c)
    requires var e := History(s, events, c); Sound(e.bucket) && e.shared.stats.rate > 0.0 && e.bucket.waiters != map[]
    ensures Serves(s, events, next, c)
    ensures var b, d := History(s, events, c).bucket, History(s, next, c).bucket;
      if |d.grants| == |b.grants| then |d.waiters| == |b.waiters| && |Shorts(d)| < |Shorts(b)|
      else |d.grants| == |b.grants| + 1 && |d.waiters| == |b.waiters| - 1
  {
    var b := History(s, events, c).bucket;
    if w :| w in Shorts(b) {
      next := ArmNext(s, events, w, c);
    } else {
      var w :| w in b.waiters;
      assert forall v | v in b.waiters :: v !in Shorts(b);
      next := TakeNext(s, events, w, c);
      assert Without(b.waiters, w).Keys == b.waiters.Keys - {w};
      assert |Without(b.waiters, w)| == |Without(b.waiters, w).Keys| && |b.waiters| == |b.waiters.Keys|;
    }
  }
}
