/** The bucket without the strand on the retries. Only the dispatch at the start of `acquire` is bound to
    the strand; if the wait for the timer resumes on the coroutine's own executor, the loop body runs
    again beside those of other acquirers. Every load and store of the bucket is a step of its own. */
module RacingBucket {
  import opened Prelude
  import opened RateControl
  import opened TokenBucket
  import opened RateLimiter

  /** Where an acquirer stands: before the strand, at its next access to the bucket, or waiting for its
      timer. `at` is the clock reading of the refill, which also dates the grant. */
  datatype Stage =
    | Queued
    | LoadLast(at: real)
    | LoadTokens(at: real, dt: real)
    | StoreTokens(at: real, level: real)
    | StoreLast(at: real)
    | Check(at: real)
    | LoadToTake(at: real)
    | StoreTaken(at: real, left: real)
    | LoadNeed
    | Resting(deadline: real)

  datatype Racing = Racing(now: real, tokens: real, last: real, capacity: real, strand: Option<nat>,
                           stages: map<nat, Stage>, grants: seq<real>)

  datatype Act = Run(w: nat) | Pass(dt: real)

  function Removed(stages: map<nat, Stage>, w: nat): map<nat, Stage> {
    map k | k in stages && k != w :: stages[k]
  }

  function Freed(strand: Option<nat>, w: nat): Option<nat> {
    if strand == Some(w) then None else strand
  }

  /** The next access of an acquirer; one that is not possible changes nothing. */
  function Stepped(b: Racing, w: nat, rate: real): Racing
    requires w in b.stages && rate > 0.0
  {
    match b.stages[w]
    case Queued => if b.strand.Some? then b else At(b.(strand := Some(w)), w, LoadLast(b.now))
    case LoadLast(at) => At(b, w, LoadTokens(at, at - b.last))
    case LoadTokens(at, dt) => At(b, w, StoreTokens(at, Refilled(b.tokens, b.capacity, rate, dt)))
    case StoreTokens(at, level) => At(b.(tokens := level), w, StoreLast(at))
    case StoreLast(at) => At(b.(last := at), w, Check(at))
    case Check(at) => At(b, w, if b.tokens >= 1.0 then LoadToTake(at) else LoadNeed)
    case LoadToTake(at) => At(b, w, StoreTaken(at, b.tokens - 1.0))
    case StoreTaken(at, left) =>
      b.(tokens := left, grants := b.grants + [at], stages := Removed(b.stages, w), strand := Freed(b.strand, w))
    case LoadNeed =>
      At(b.(strand := Freed(b.strand, w)), w, Resting(b.now + Seconds(Truncated((1.0 - b.tokens) / rate))))
    case Resting(deadline) => if deadline <= b.now then At(b, w, LoadLast(b.now)) else b
  }

  function At(b: Racing, w: nat, stage: Stage): Racing {
    b.(stages := b.stages[w := stage])
  }

  function Apply(b: Racing, a: Act, rate: real): Racing
    requires rate > 0.0
  {
    match a
    case Run(w) => if w in b.stages then Stepped(b, w, rate) else b
    case Pass(dt) => if dt >= 0.0 then b.(now := b.now + dt) else b
  }

  function Execute(b: Racing, acts: seq<Act>, rate: real): Racing
    requires rate > 0.0
  {
    if acts == [] then b else Apply(Execute(b, acts[..|acts| - 1], rate), acts[|acts| - 1], rate)
  }

  /** A full bucket and acquirers that have not begun. */
  predicate AtStart(b: Racing) {
    && b.capacity >= 1.0 && b.tokens == b.capacity && b.last == b.now
    && b.strand.None? && b.grants == []
    && forall w | w in b.stages :: b.stages[w].Queued?
  }

  /** The bound of `WindowBound`, in every run. */
  ghost predicate WindowsBounded(b: Racing, rate: real)
    requires rate > 0.0
  {
    forall acts: seq<Act>, from: real, to: real :: from <= to ==>
      GrantsWithin(Execute(b, acts, rate).grants, from, to) as real <= b.capacity + Gained(rate, to - from)
  }

  // ----- Few acquirers never race -----

  /** `x` tokens at time `at` neither exceed what the bucket can hold nor what is left after the grants. */
  predicate LevelFits(b: Racing, x: real, at: real, rate: real) {
    var g := |b.grants|;
    && 0.0 <= x <= b.capacity <= g as real + x
    && (g > 0 ==> g as real + x <= b.capacity + Gained(rate, at - b.grants[0]))
  }

  predicate StageFits(b: Racing, stage: Stage, rate: real) {
    match stage
    case Queued => false
    case LoadLast(at) => b.last <= at <= b.now && LevelFits(b, b.tokens, b.last, rate)
    case LoadTokens(at, dt) => b.last <= at <= b.now && dt == at - b.last && LevelFits(b, b.tokens, b.last, rate)
    case StoreTokens(at, level) => b.last <= at <= b.now && LevelFits(b, level, at, rate)
    case StoreLast(at) => b.last <= at <= b.now && LevelFits(b, b.tokens, at, rate)
    case Check(at) => at == b.last && LevelFits(b, b.tokens, b.last, rate)
    case LoadToTake(at) => at == b.last && b.tokens >= 1.0 && LevelFits(b, b.tokens, b.last, rate)
    case StoreTaken(at, left) => at == b.last && left >= 0.0 && LevelFits(b, left + 1.0, b.last, rate)
    case _ => |b.stages| == 1 && LevelFits(b, b.tokens, b.last, rate)
  }

  predicate GrantsFit(b: Racing, rate: real) {
    var g := |b.grants|;
    && (forall i | 0 <= i < g :: b.grants[0] <= b.grants[i] <= b.grants[g - 1] <= b.last)
    && (g > 0 ==> g as real <= b.capacity + Gained(rate, b.grants[g - 1] - b.grants[0]))
  }

  /** At most one acquirer has begun, and only the last one left ever finds the bucket short. */
  predicate Serial(b: Racing, active: Option<nat>, rate: real, n: nat) {
    && b.capacity >= 1.0 && b.last <= b.now && n <= b.capacity.Floor + 1
    && |b.stages| + |b.grants| == n
    && GrantsFit(b, rate)
    && (forall v | v in b.stages :: active == Some(v) || b.stages[v].Queued?)
    && match active
       case None => b.strand.None? && LevelFits(b, b.tokens, b.last, rate)
       case Some(w) =>
         && w in b.stages && StageFits(b, b.stages[w], rate)
         && (b.strand == active || (b.strand.None? && |b.stages| == 1))
  }

  lemma {:induction false} SizeKept(stages: map<nat, Stage>, w: nat, stage: Stage)
    requires w in stages
    ensures |stages[w := stage]| == |stages| && |Removed(stages, w)| == |stages| - 1
  {
    assert stages[w := stage].Keys == stages.Keys;
    assert Removed(stages, w).Keys == stages.Keys - {w};
    assert |stages[w := stage]| == |stages[w := stage].Keys| && |stages| == |stages.Keys|;
    assert |Removed(stages, w)| == |Removed(stages, w).Keys|;
  }

  lemma {:induction false} OnlyKey(stages: map<nat, Stage>, v: nat, w: nat)
    requires v in stages && w in stages && |stages| == 1
    ensures v == w
  {
    if v != w {
      SizeKept(stages, v, Queued);
      SizeKept(Removed(stages, v), w, Queued);
    }
  }

  lemma {:induction false} LevelRefilled(b: Racing, at: real, rate: real)
    requires rate > 0.0 && b.last <= at && LevelFits(b, b.tokens, b.last, rate)
    requires GrantsFit(b, rate)
    ensures LevelFits(b, Refilled(b.tokens, b.capacity, rate, at - b.last), at, rate)
  {
    GainedMonotone(rate, 0.0, at - b.last);
    GainedSum(rate, 0.0, 0.0);
    if |b.grants| > 0 {
      assert at - b.grants[0] == (at - b.last) + (b.last - b.grants[0]);
      GainedSum(rate, at - b.last, b.last - b.grants[0]);
    }
    hide Gained;
  }

  lemma {:induction false} SerialStep(b: Racing, w: nat, active: Option<nat>, rate: real, n: nat)
    returns (after: Option<nat>)
    requires rate > 0.0 && Serial(b, active, rate, n) && w in b.stages
    ensures Serial(Stepped(b, w, rate), after, rate, n)
  {
    after := active;
    if b.stages[w].Queued? {
      after := QueuedStep(b, w, active, rate, n);
    } else if b.stages[w].StoreTaken? {
      after := None;
      TakenFits(b, w, active, rate, n);
    } else {
      ActiveStep(b, w, rate, n);
    }
    hide StageFits, GrantsFit, LevelFits, Stepped;
  }

  lemma {:induction false} ActiveStep(b: Racing, w: nat, rate: real, n: nat)
    requires rate > 0.0 && Serial(b, Some(w), rate, n) && !b.stages[w].StoreTaken? && !b.stages[w].Queued?
    ensures Serial(Stepped(b, w, rate), Some(w), rate, n)
  {
    hide StageFits, GrantsFit, LevelFits, Gained, Refilled, Seconds, Truncated;
    StageStep(b, w, rate, n);
    var e := Stepped(b, w, rate);
    SizeKept(b.stages, w, e.stages[w]);
    assert e.stages == b.stages[w := e.stages[w]];
  }

  lemma {:induction false} QueuedStep(b: Racing, w: nat, active: Option<nat>, rate: real, n: nat)
    returns (after: Option<nat>)
    requires rate > 0.0 && Serial(b, active, rate, n) && w in b.stages && b.stages[w].Queued?
    ensures Serial(Stepped(b, w, rate), after, rate, n)
  {
    hide Gained;
    after := active;
    if b.strand.None? {
      if active.Some? {
        OnlyKey(b.stages, w, active.value);
      }
      SizeKept(b.stages, w, LoadLast(b.now));
      after := Some(w);
    }
  }

  lemma {:induction false} StageStep(b: Racing, w: nat, rate: real, n: nat)
    requires rate > 0.0 && Serial(b, Some(w), rate, n) && !b.stages[w].StoreTaken?
    ensures var e := Stepped(b, w, rate);
      e != b ==> StageFits(e, e.stages[w], rate) && GrantsFit(e, rate) && e.last <= e.now
    ensures b.stages[w].LoadNeed? ==> |b.stages| == 1
  {
    hide Gained, Refilled, Seconds, Truncated;
    var e := Stepped(b, w, rate);
    SizeKept(b.stages, w, if w in e.stages then e.stages[w] else Queued);
    match b.stages[w]
    case LoadTokens(at, dt) => LevelRefilled(b, at, rate);
    case Check(at) =>
      if b.tokens < 1.0 {
        assert |b.grants| as real > b.capacity - 1.0;
      }
    case _ =>
  }

  lemma {:induction false} TakenFits(b: Racing, w: nat, active: Option<nat>, rate: real, n: nat)
    requires rate > 0.0 && Serial(b, active, rate, n) && w in b.stages && b.stages[w].StoreTaken?
    ensures Serial(Stepped(b, w, rate), None, rate, n)
  {
    hide Gained, Seconds, Truncated;
    var e := Stepped(b, w, rate);
    SizeKept(b.stages, w, Queued);
    GainedSum(rate, 0.0, 0.0);
    assert e.grants[|b.grants|] == b.last;
    assert |b.grants| == 0 ==> e.grants[0] - e.grants[0] == 0.0 && b.last - e.grants[0] == 0.0;
  }

  lemma {:induction false} SerialApply(b: Racing, a: Act, active: Option<nat>, rate: real, n: nat)
    returns (after: Option<nat>)
    requires rate > 0.0 && Serial(b, active, rate, n)
    ensures Serial(Apply(b, a, rate), after, rate, n)
  {
    after := active;
    if a.Run? && a.w in b.stages {
      after := SerialStep(b, a.w, active, rate, n);
      hide Serial, Stepped;
    } else {
      hide Gained;
    }
  }

  lemma {:induction false} SerialStart(b: Racing, rate: real)
    requires AtStart(b) && |b.stages| <= b.capacity.Floor + 1
    ensures Serial(b, None, rate, |b.stages|)
  {
  }

  lemma {:induction false} StaysSerial(b: Racing, acts: seq<Act>, rate: real) returns (active: Option<nat>)
    requires rate > 0.0 && AtStart(b) && |b.stages| <= b.capacity.Floor + 1
    ensures Serial(Execute(b, acts, rate), active, rate, |b.stages|)
    ensures Execute(b, acts, rate).capacity == b.capacity
    decreases |acts|
  {
    hide Serial, AtStart;
    if acts == [] {
      active := None;
      SerialStart(b, rate);
    } else {
      var before, a := Execute(b, acts[..|acts| - 1], rate), acts[|acts| - 1];
      active := StaysSerial(b, acts[..|acts| - 1], rate);
      active := SerialApply(before, a, active, rate, |b.stages|);
    }
  }

  lemma {:induction false} WithinAtMost(grants: seq<real>, from: real, to: real)
    ensures GrantsWithin(grants, from, to) <= |grants|
    ensures (exists i | 0 <= i < |grants| :: !(from <= grants[i] <= to)) ==> GrantsWithin(grants, from, to) < |grants|
    decreases |grants|
  {
    if grants != [] {
      WithinAtMost(grants[..|grants| - 1], from, to);
      if i :| 0 <= i < |grants| && !(from <= grants[i] <= to) {
        assert i < |grants| - 1 ==> grants[..|grants| - 1][i] == grants[i];
      }
    }
  }

  lemma {:induction false} SerialIsBounded(b: Racing, active: Option<nat>, rate: real, n: nat, from: real, to: real)
    requires rate > 0.0 && Serial(b, active, rate, n) && from <= to
    ensures GrantsWithin(b.grants, from, to) as real <= b.capacity + Gained(rate, to - from)
  {
    hide Gained;
    var g, k := |b.grants|, GrantsWithin(b.grants, from, to);
    WithinAtMost(b.grants, from, to);
    GainedMonotone(rate, 0.0, to - from);
    GainedSum(rate, 0.0, 0.0);
    if k == g && g > 0 {
      assert from <= b.grants[0] && b.grants[g - 1] <= to;
      GainedMonotone(rate, b.grants[g - 1] - b.grants[0], to - from);
    } else {
      assert k <= b.capacity.Floor;
    }
  }

  // ----- More of them can -----

  lemma {:induction false} ExecuteConcat(b: Racing, x: seq<Act>, y: seq<Act>, rate: real)
    requires rate > 0.0
    ensures Execute(b, x + y, rate) == Execute(Execute(b, x, rate), y, rate)
    decreases |y|
  {
    hide Apply;
    if y == [] {
      assert x + y == x;
    } else {
      var front := y[..|y| - 1];
      assert (x + y)[..|x + y| - 1] == x + front;
      ExecuteConcat(b, x, front, rate);
    }
  }

  lemma {:induction false} ExecuteMore(b: Racing, acts: seq<Act>, a: Act, rate: real)
    requires rate > 0.0
    ensures Execute(b, acts + [a], rate) == Apply(Execute(b, acts, rate), a, rate)
  {
    assert (acts + [a])[..|acts|] == acts;
  }

  lemma {:induction false} StageTwice(b: Racing, w: nat, x: Stage, y: Stage)
    ensures At(At(b, w, x), w, y) == At(b, w, y)
  {
    assert b.stages[w := x][w := y] == b.stages[w := y];
  }

  /** One refill, undisturbed, up to the test. */
  lemma {:induction false} Refill(b: Racing, w: nat, rate: real) returns (acts: seq<Act>)
    requires rate > 0.0 && w in b.stages && b.stages[w].LoadLast?
    ensures var at := b.stages[w].at; var level := Refilled(b.tokens, b.capacity, rate, at - b.last);
      Execute(b, acts, rate) == At(b.(tokens := level, last := at), w, Check(at))
  {
    var a := Run(w);
    assert Execute(b, [], rate) == b;
    RefillSteps(b, w, rate);
    hide Execute, Apply, Refilled, At;
    acts := [] + [a] + [a] + [a] + [a];
    ExecuteMore(b, [], a, rate);
    ExecuteMore(b, [] + [a], a, rate);
    ExecuteMore(b, [] + [a] + [a], a, rate);
    ExecuteMore(b, [] + [a] + [a] + [a], a, rate);
  }

  lemma {:induction false} RefillSteps(b: Racing, w: nat, rate: real)
    requires rate > 0.0 && w in b.stages && b.stages[w].LoadLast?
    ensures var at, a := b.stages[w].at, Run(w); var level := Refilled(b.tokens, b.capacity, rate, at - b.last);
      var refilled := At(b.(tokens := level, last := at), w, Check(at));
      Apply(Apply(Apply(Apply(b, a, rate), a, rate), a, rate), a, rate) == refilled
  {
    hide Refilled;
    var at, a := b.stages[w].at, Run(w);
    var level := Refilled(b.tokens, b.capacity, rate, at - b.last);
    var b1 := At(b, w, LoadTokens(at, at - b.last));
    assert Apply(b, a, rate) == b1;
    var b2 := At(b, w, StoreTokens(at, level));
    StageTwice(b, w, LoadTokens(at, at - b.last), StoreTokens(at, level));
    assert Apply(b1, a, rate) == b2;
    var b3 := At(b.(tokens := level), w, StoreLast(at));
    StageTwice(b.(tokens := level), w, StoreTokens(at, level), StoreLast(at));
    assert Apply(b2, a, rate) == b3;
    StageTwice(b.(tokens := level, last := at), w, StoreLast(at), Check(at));
  }

  /** The strand is free and nobody has begun; the bucket was refilled just now. */
  predicate Calm(b: Racing) {
    b.strand.None? && b.last == b.now && 0.0 <= b.tokens <= b.capacity && b.capacity >= 1.0
  }

  lemma {:induction false} NoRefill(b: Racing, rate: real)
    requires b.tokens <= b.capacity
    ensures Refilled(b.tokens, b.capacity, rate, 0.0) == b.tokens
  {
    GainedSum(rate, 0.0, 0.0);
  }

  /** The acquirer can begin a pass: it is next on the strand, or its timer is due. */
  predicate CanBegin(b: Racing, w: nat) {
    && w in b.stages && b.strand != Some(w)
    && ((b.stages[w].Queued? && b.strand.None?) || (b.stages[w].Resting? && b.stages[w].deadline <= b.now))
  }

  function Begun(b: Racing, w: nat, rate: real): Racing
    requires w in b.stages
  {
    var level := Refilled(b.tokens, b.capacity, rate, b.now - b.last);
    b.(tokens := level, last := b.now, strand := if b.stages[w].Queued? then Some(w) else b.strand)
  }

  /** A pass up to its test. */
  lemma {:induction false} Begin(b: Racing, w: nat, rate: real) returns (acts: seq<Act>)
    requires rate > 0.0 && CanBegin(b, w)
    ensures Execute(b, acts, rate) == At(Begun(b, w, rate), w, Check(b.now))
  {
    assert Execute(b, [], rate) == b;
    ExecuteMore(b, [], Run(w), rate);
    var strand := if b.stages[w].Queued? then Some(w) else b.strand;
    var entered := At(b.(strand := strand), w, LoadLast(b.now));
    assert Apply(b, Run(w), rate) == entered;
    var rest := Refill(entered, w, rate);
    ExecuteConcat(b, [] + [Run(w)], rest, rate);
    hide Refilled;
    StageTwice(Begun(b, w, rate), w, LoadLast(b.now), Check(b.now));
    acts := [] + [Run(w)] + rest;
    hide Execute;
  }

  /** A pass that nobody disturbs is the atomic attempt of `TokenBucket`: it takes a token if what has flowed
      in leaves one, and otherwise rests for the truncated time that the missing part takes. */
  lemma {:induction false} PassIsAttempt(b: Racing, w: nat, rate: real) returns (acts: seq<Act>)
    requires rate > 0.0 && CanBegin(b, w)
    ensures var level := b.tokens + rate * (b.now - b.last);
      var found := if level > b.capacity then b.capacity else level;
      Execute(b, acts, rate)
      == if found >= 1.0
         then b.(tokens := found - 1.0, last := b.now, stages := Removed(b.stages, w), grants := b.grants + [b.now])
         else b.(tokens := found, last := b.now,
                 stages := b.stages[w := Resting(b.now + Seconds(Truncated((1.0 - found) / rate)))])
  {
    if Refilled(b.tokens, b.capacity, rate, b.now - b.last) >= 1.0 {
      acts := Serve(b, w, rate);
    } else {
      acts := FallShort(b, w, rate);
    }
    hide Execute, Seconds, Truncated;
  }

  /** A pass that takes a token. */
  lemma {:induction false} Serve(b: Racing, w: nat, rate: real) returns (acts: seq<Act>)
    requires rate > 0.0 && CanBegin(b, w) && Refilled(b.tokens, b.capacity, rate, b.now - b.last) >= 1.0
    ensures Execute(b, acts, rate)
         == b.(tokens := Refilled(b.tokens, b.capacity, rate, b.now - b.last) - 1.0, last := b.now,
               stages := Removed(b.stages, w), grants := b.grants + [b.now])
  {
    acts := Begin(b, w, rate);
    var a := Run(w);
    ExecuteMore(b, acts, a, rate);
    ExecuteMore(b, acts + [a], a, rate);
    ExecuteMore(b, acts + [a] + [a], a, rate);
    acts := acts + [a] + [a] + [a];
    hide Execute, Refilled;
    var held := Begun(b, w, rate);
    assert Apply(At(held, w, Check(b.now)), a, rate) == At(held, w, LoadToTake(b.now)) by {
      StageTwice(held, w, Check(b.now), LoadToTake(b.now));
    }
    var taking := At(held, w, StoreTaken(b.now, held.tokens - 1.0));
    assert Apply(At(held, w, LoadToTake(b.now)), a, rate) == taking by {
      StageTwice(held, w, LoadToTake(b.now), StoreTaken(b.now, held.tokens - 1.0));
    }
    assert Removed(taking.stages, w) == Removed(b.stages, w);
  }

  /** A pass that falls short. */
  lemma {:induction false} FallShort(b: Racing, w: nat, rate: real) returns (acts: seq<Act>)
    requires rate > 0.0 && CanBegin(b, w) && Refilled(b.tokens, b.capacity, rate, b.now - b.last) < 1.0
    ensures var level := Refilled(b.tokens, b.capacity, rate, b.now - b.last);
      Execute(b, acts, rate)
      == At(b.(tokens := level, last := b.now), w, Resting(b.now + Seconds(Truncated((1.0 - level) / rate))))
  {
    acts := Begin(b, w, rate);
    var a := Run(w);
    ExecuteMore(b, acts, a, rate);
    ExecuteMore(b, acts + [a], a, rate);
    acts := acts + [a] + [a];
    hide Execute, Refilled, Seconds, Truncated;
    var held := Begun(b, w, rate);
    assert Apply(At(held, w, Check(b.now)), a, rate) == At(held, w, LoadNeed) by {
      StageTwice(held, w, Check(b.now), LoadNeed);
    }
    StageTwice(held, w, LoadNeed, Resting(b.now + Seconds(Truncated((1.0 - held.tokens) / rate))));
  }

  /** A retry up to the point where it has seen a token and is about to take it. */
  lemma {:induction false} SeeToken(b: Racing, w: nat, rate: real) returns (acts: seq<Act>)
    requires rate > 0.0 && CanBegin(b, w) && b.stages[w].Resting?
    requires Refilled(b.tokens, b.capacity, rate, b.now - b.last) == 1.0
    ensures Execute(b, acts, rate) == At(b.(tokens := 1.0, last := b.now), w, LoadToTake(b.now))
  {
    acts := Begin(b, w, rate);
    ExecuteMore(b, acts, Run(w), rate);
    acts := acts + [Run(w)];
    hide Execute, Refilled;
    StageTwice(Begun(b, w, rate), w, Check(b.now), LoadToTake(b.now));
  }

  /** Two acquirers that have both seen the one token both take it. */
  lemma {:induction false} TakeTwice(b: Racing, v: nat, w: nat, rate: real) returns (acts: seq<Act>)
    requires rate > 0.0 && v != w && v in b.stages && w in b.stages && b.tokens == 1.0
    requires b.stages[v] == LoadToTake(b.now) && b.stages[w] == LoadToTake(b.now)
    ensures Execute(b, acts, rate).grants == b.grants + [b.now, b.now]
  {
    assert Execute(b, [], rate) == b;
    acts := [] + [Run(v)] + [Run(w)] + [Run(v)] + [Run(w)];
    ExecuteMore(b, [], Run(v), rate);
    ExecuteMore(b, [] + [Run(v)], Run(w), rate);
    ExecuteMore(b, [] + [Run(v)] + [Run(w)], Run(v), rate);
    ExecuteMore(b, [] + [Run(v)] + [Run(w)] + [Run(v)], Run(w), rate);
    hide Execute;
    var b1 := At(b, v, StoreTaken(b.now, 0.0));
    assert Apply(b, Run(v), rate) == b1;
    var b2 := At(b1, w, StoreTaken(b.now, 0.0));
    assert Apply(b1, Run(w), rate) == b2;
    var b3 := Apply(b2, Run(v), rate);
    assert b3.grants == b.grants + [b.now] && b3.stages == Removed(b2.stages, v);
    assert w in b3.stages && b3.stages[w] == StoreTaken(b.now, 0.0);
    assert b.grants + [b.now] + [b.now] == b.grants + [b.now, b.now];
  }

  /** The first `k` acquirers empty the bucket down to less than a token. */
  lemma {:induction false} ServeMany(b: Racing, k: nat, rate: real) returns (acts: seq<Act>)
    requires rate > 0.0 && Calm(b) && k as real <= b.tokens && k <= |b.stages|
    requires forall w | w in b.stages :: b.stages[w].Queued?
    ensures var e := Execute(b, acts, rate);
      && e == b.(tokens := b.tokens - k as real, stages := e.stages, grants := e.grants)
      && |e.stages| == |b.stages| - k && (forall w | w in e.stages :: e.stages[w].Queued?)
      && e.grants == b.grants + seq(k, _ => b.now)
    decreases k
  {
    if k == 0 {
      acts := [];
      assert b.grants + seq(0, _ => b.now) == b.grants;
    } else {
      hide Execute;
      var w :| w in b.stages;
      assert b.now - b.last == 0.0;
      NoRefill(b, rate);
      acts := Serve(b, w, rate);
      var one := Execute(b, acts, rate);
      SizeKept(b.stages, w, Queued);
      var rest := ServeMany(one, k - 1, rate);
      ExecuteConcat(b, acts, rest, rate);
      acts := acts + rest;
      assert b.grants + [b.now] + seq(k - 1, _ => b.now) == b.grants + seq(k, _ => b.now);
    }
  }

  lemma {:induction false} TwoKeys(stages: map<nat, Stage>) returns (v: nat, w: nat)
    requires |stages| >= 2
    ensures v in stages && w in stages && v != w
  {
    v :| v in stages;
    SizeKept(stages, v, Queued);
    w :| w in Removed(stages, v);
  }

  lemma {:induction false} BothFallShort(b: Racing, v: nat, w: nat, rate: real) returns (acts: seq<Act>)
    requires rate > 0.0 && Calm(b) && b.tokens < 1.0
    requires v != w && v in b.stages && w in b.stages && b.stages[v].Queued? && b.stages[w].Queued?
    ensures var resting := Resting(b.now + Seconds(Truncated((1.0 - b.tokens) / rate)));
      Execute(b, acts, rate) == At(At(b, v, resting), w, resting)
  {
    hide Execute, Seconds, Truncated;
    var resting := Resting(b.now + Seconds(Truncated((1.0 - b.tokens) / rate)));
    assert b.now - b.last == 0.0;
    NoRefill(b, rate);
    var x := FallShort(b, v, rate);
    var y := FallShort(At(b, v, resting), w, rate);
    ExecuteConcat(b, x, y, rate);
    acts := x + y;
  }

  /** Two acquirers whose timers are due see the same token, and both take it. */
  lemma {:induction false} BothTake(b: Racing, v: nat, w: nat, rate: real) returns (acts: seq<Act>)
    requires rate > 0.0 && v != w && v in b.stages && w in b.stages && b.capacity >= 1.0
    requires b.stages[v].Resting? && b.stages[v].deadline <= b.now
    requires b.stages[w].Resting? && b.stages[w].deadline <= b.now
    requires b.strand.None?
    requires Refilled(b.tokens, b.capacity, rate, b.now - b.last) == 1.0
    ensures Execute(b, acts, rate).grants == b.grants + [b.now, b.now]
  {
    hide Execute, Refilled;
    var x := SeeToken(b, v, rate);
    var b1 := At(b.(tokens := 1.0, last := b.now), v, LoadToTake(b.now));
    NoRefill(b1, rate);
    assert b1.now - b1.last == 0.0;
    var y := SeeToken(b1, w, rate);
    var b2 := At(b1, w, LoadToTake(b.now));
    var z := TakeTwice(b2, v, w, rate);
    ExecuteConcat(b, x, y, rate);
    ExecuteConcat(b, x + y, z, rate);
    acts := x + y + z;
  }

  /** Two acquirers find the bucket short, wake up when it reaches one token, and both take it. */
  lemma {:induction false} RaceForOne(b: Racing, v: nat, w: nat, rate: real) returns (acts: seq<Act>)
    requires rate > 0.0 && Calm(b) && b.tokens < 1.0
    requires v != w && v in b.stages && w in b.stages && b.stages[v].Queued? && b.stages[w].Queued?
    ensures var later := b.now + (1.0 - b.tokens) / rate;
      Execute(b, acts, rate).grants == b.grants + [later, later]
  {
    var missing := (1.0 - b.tokens) / rate;
    WaitIsShort(1.0 - b.tokens, rate, 1);
    NonnegativeWait(b.tokens, rate);
    GainedQuotient(rate, 1.0 - b.tokens);
    hide Execute, Seconds, Truncated, Gained;
    var x := BothFallShort(b, v, w, rate);
    var resting := Resting(b.now + Seconds(Truncated(missing)));
    var b1 := At(At(b, v, resting), w, resting);
    ExecuteMore(b, x, Pass(missing), rate);
    var b2 := b1.(now := b.now + missing);
    assert b2.now - b2.last == missing;
    var y := BothTake(b2, v, w, rate);
    ExecuteConcat(b, x + [Pass(missing)], y, rate);
    acts := x + [Pass(missing)] + y;
  }

  lemma {:induction false} NonnegativeWait(tokens: real, rate: real)
    requires rate > 0.0 && tokens < 1.0
    ensures (1.0 - tokens) / rate >= 0.0
  {
  }

  lemma {:induction false} RaceBreaksBound(b: Racing, rate: real)
    requires rate > 0.0 && AtStart(b) && |b.stages| >= b.capacity.Floor + 2
    ensures !WindowsBounded(b, rate)
  {
    hide Execute, Gained;
    var k := b.capacity.Floor;
    var x := ServeMany(b, k, rate);
    var e := Execute(b, x, rate);
    var v, w := TwoKeys(e.stages);
    var y := RaceForOne(e, v, w, rate);
    ExecuteConcat(b, x, y, rate);
    var missing := (1.0 - e.tokens) / rate;
    var grants, later := Execute(b, x + y, rate).grants, b.now + missing;
    NonnegativeWait(e.tokens, rate);
    assert |grants| == k + 2;
    AllWithin(grants, b.now, later);
    GainedQuotient(rate, 1.0 - e.tokens);
    assert later - b.now == missing;
    assert b.capacity + Gained(rate, later - b.now) == (k + 1) as real;
  }

  /** With the strand on first attempts only, n acquirers on a full bucket respect the bound on every
      window in every run exactly if n is at most the capacity, rounded down, plus one. */
  lemma {:induction false} BoundedIffFew(b: Racing, rate: real)
    requires rate > 0.0 && AtStart(b)
    ensures WindowsBounded(b, rate) <==> |b.stages| <= b.capacity.Floor + 1
  {
    hide Execute, Gained, AtStart;
    if |b.stages| <= b.capacity.Floor + 1 {
      forall acts: seq<Act>, from: real, to: real | from <= to
        ensures GrantsWithin(Execute(b, acts, rate).grants, from, to) as real <= b.capacity + Gained(rate, to - from)
      {
        var active := StaysSerial(b, acts, rate);
        SerialIsBounded(Execute(b, acts, rate), active, rate, |b.stages|, from, to);
      }
    } else {
      RaceBreaksBound(b, rate);
    }
  }
}
