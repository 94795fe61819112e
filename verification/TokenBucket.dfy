/** The token bucket and its waiters as a step system with an explicit clock. `acquire` is split at
    its suspension points. Every pass of its loop is taken to run on the strand, retries included, so that
    no second acquirer runs between a refill that fell short and the arming of its timer; `RacingBucket`
    shows what becomes of the bound if only the first pass does. Times are in seconds. */
module TokenBucket {
  import opened RateControl

  /** An acquirer inside `acquire`: about to run its loop body, holding the strand after a refill
      that fell short, or waiting for its timer. */
  datatype Waiter = Ready | Short(need: real) | Asleep(deadline: real)

  /** `grants` records when each token was handed out, oldest first. */
  datatype Bucket = Bucket(now: real, tokens: real, last: real, capacity: real,
                           waiters: map<nat, Waiter>, grants: seq<real>)

  datatype Move =
    | Arrive(w: nat)
    | Attempt(w: nat)
    | Arm(w: nat, wait: real)
    | Wake(w: nat)
    | Tick(dt: real)

  /** What flows into the bucket in `dt` seconds. */
  function Gained(rate: real, dt: real): real {
    dt * rate
  }

  lemma {:induction false} GainedSum(rate: real, x: real, y: real)
    ensures Gained(rate, x + y) == Gained(rate, x) + Gained(rate, y)
    ensures Gained(rate, 0.0) == 0.0
  {
  }

  lemma {:induction false} GainedMonotone(rate: real, x: real, y: real)
    requires rate > 0.0
    ensures x < y <==> Gained(rate, x) < Gained(rate, y)
    ensures x == y <==> Gained(rate, x) == Gained(rate, y)
  {
    assert Gained(rate, y) - Gained(rate, x) == rate * (y - x);
    if x < y {
      assert rate * (y - x) > 0.0;
    } else if y < x {
      assert rate * (x - y) > 0.0;
    }
  }

  lemma {:induction false} GainedQuotient(rate: real, x: real)
    requires rate > 0.0
    ensures Gained(rate, x / rate) == x
  {
  }

  /** The level after the refill of a bucket last refilled `dt` seconds ago. */
  function Refilled(tokens: real, capacity: real, rate: real, dt: real): real {
    Min(capacity, tokens + Gained(rate, dt))
  }

  predicate StrandFree(b: Bucket) {
    forall w | w in b.waiters :: !b.waiters[w].Short?
  }

  function Without(m: map<nat, Waiter>, w: nat): map<nat, Waiter> {
    map k | k in m && k != w :: m[k]
  }

  /** Loop body of `acquire` up to its return or its timer. */
  function Tried(b: Bucket, w: nat, rate: real): Bucket {
    var level := Refilled(b.tokens, b.capacity, rate, b.now - b.last);
    if level >= 1.0
    then b.(tokens := level - 1.0, last := b.now, waiters := Without(b.waiters, w), grants := b.grants + [b.now])
    else b.(tokens := level, last := b.now, waiters := b.waiters[w := Short(1.0 - level)])
  }

  predicate Enabled(b: Bucket, m: Move) {
    match m
    case Arrive(w) => w !in b.waiters
    case Attempt(w) => w in b.waiters && b.waiters[w].Ready? && StrandFree(b)
    case Arm(w, wait) => w in b.waiters && b.waiters[w].Short? && wait >= 0.0
    case Wake(w) => w in b.waiters && b.waiters[w].Asleep? && b.waiters[w].deadline <= b.now
    case Tick(dt) => dt >= 0.0
  }

  /** One move under the rate in force; a move that is not enabled changes nothing. */
  function Moved(b: Bucket, m: Move, rate: real): Bucket {
    if !Enabled(b, m) then b
    else match m
      case Arrive(w) => b.(waiters := b.waiters[w := Ready])
      case Attempt(w) => Tried(b, w, rate)
      case Arm(w, wait) => b.(waiters := b.waiters[w := Asleep(b.now + wait)])
      case Wake(w) => b.(waiters := b.waiters[w := Ready])
      case Tick(dt) => b.(now := b.now + dt)
  }

  predicate Full(b: Bucket) {
    b.capacity >= 1.0 && b.tokens == b.capacity && b.last == b.now && b.grants == []
  }

  // ----- The window bound -----

  /** Any stretch of consecutive grants fits the capacity plus the refill of its duration. */
  predicate Spaced(grants: seq<real>, capacity: real, top: real) {
    && (forall i, j | 0 <= i <= j < |grants| :: grants[i] <= grants[j])
    && forall i, j | 0 <= i <= j < |grants| ::
         (j - i + 1) as real <= capacity + Gained(top, grants[j] - grants[i])
  }

  /** Every stretch of grants that reaches up to now leaves room for the tokens still in the bucket. */
  predicate TailFits(grants: seq<real>, tokens: real, capacity: real, top: real, now: real) {
    forall i | 0 <= i < |grants| ::
      grants[i] <= now && (|grants| - i) as real + tokens <= capacity + Gained(top, now - grants[i])
  }

  predicate Bounded(b: Bucket, top: real) {
    && 0.0 <= b.tokens <= b.capacity && b.capacity >= 1.0
    && b.last <= b.now && top >= 0.0
    && Spaced(b.grants, b.capacity, top)
    && TailFits(b.grants, b.tokens, b.capacity, top, b.last)
  }

  lemma {:induction false} BoundedMove(b: Bucket, m: Move, rate: real, top: real)
    requires Bounded(b, top) && 0.0 <= rate <= top
    ensures Bounded(Moved(b, m, rate), top)
  {
    match m
    case Attempt(w) =>
      if Enabled(b, m) {
        BoundedTry(b, w, rate, top);
      }
    case _ =>
  }

  lemma {:induction false} RefillGrowth(b: Bucket, rate: real, top: real)
    requires Bounded(b, top) && 0.0 <= rate <= top
    ensures var level := Refilled(b.tokens, b.capacity, rate, b.now - b.last);
      && 0.0 <= level <= b.capacity
      && level <= b.tokens + Gained(top, b.now - b.last)
  {
    var dt := b.now - b.last;
    assert 0.0 <= dt * rate <= dt * top;
  }

  lemma {:induction false} BoundedTry(b: Bucket, w: nat, rate: real, top: real)
    requires Bounded(b, top) && 0.0 <= rate <= top
    ensures Bounded(Tried(b, w, rate), top)
  {
    var level := Refilled(b.tokens, b.capacity, rate, b.now - b.last);
    RefillGrowth(b, rate, top);
    hide Refilled, Spaced, TailFits;
    TailAdvances(b.grants, b.tokens, level, b.capacity, top, b.last, b.now);
    if level >= 1.0 {
      TailGrants(b.grants, level, b.capacity, top, b.now);
    }
  }

  lemma {:induction false} TailAdvances(grants: seq<real>, tokens: real, level: real, capacity: real, top: real,
                                        last: real, now: real)
    requires TailFits(grants, tokens, capacity, top, last) && last <= now
    requires level <= tokens + Gained(top, now - last)
    ensures TailFits(grants, level, capacity, top, now)
  {
    hide Gained;
    forall i | 0 <= i < |grants|
      ensures grants[i] <= now && (|grants| - i) as real + level <= capacity + Gained(top, now - grants[i])
    {
      assert now - grants[i] == (now - last) + (last - grants[i]);
      GainedSum(top, now - last, last - grants[i]);
    }
  }

  lemma {:induction false} TailGrants(grants: seq<real>, level: real, capacity: real, top: real, now: real)
    requires Spaced(grants, capacity, top) && TailFits(grants, level, capacity, top, now)
    requires 1.0 <= level <= capacity
    ensures Spaced(grants + [now], capacity, top) && TailFits(grants + [now], level - 1.0, capacity, top, now)
  {
    hide Gained;
    GainedSum(top, 0.0, 0.0);
    var n, more := |grants|, grants + [now];
    forall i | 0 <= i <= n
      ensures more[i] <= now && (n + 1 - i) as real + (level - 1.0) <= capacity + Gained(top, now - more[i])
    {
      assert if i < n then more[i] == grants[i] else now - more[i] == 0.0;
    }
    assert TailFits(more, level - 1.0, capacity, top, now);
    forall i, j | 0 <= i <= j <= n
      ensures more[i] <= more[j] && (j - i + 1) as real <= capacity + Gained(top, more[j] - more[i])
    {
      if j == n {
        assert more[j] == now;
      } else {
        assert more[i] == grants[i] && more[j] == grants[j];
      }
    }
  }

  /** How many grants fall into the closed window [from, to]. */
  function GrantsWithin(grants: seq<real>, from: real, to: real): nat {
    if grants == [] then 0
    else
      var last := if from <= grants[|grants| - 1] <= to then 1 else 0;
      GrantsWithin(grants[..|grants| - 1], from, to) + last
  }

  lemma {:induction false} AllWithin(grants: seq<real>, from: real, to: real)
    requires forall i | 0 <= i < |grants| :: from <= grants[i] <= to
    ensures GrantsWithin(grants, from, to) == |grants|
    decreases |grants|
  {
    if grants != [] {
      AllWithin(grants[..|grants| - 1], from, to);
    }
  }

  /** The grants of a window are consecutive. */
  lemma {:induction false} WindowIsStretch(grants: seq<real>, from: real, to: real) returns (i: nat, j: nat)
    requires forall k, l | 0 <= k <= l < |grants| :: grants[k] <= grants[l]
    requires GrantsWithin(grants, from, to) > 0
    ensures i <= j < |grants| && from <= grants[i] <= grants[j] <= to
    ensures GrantsWithin(grants, from, to) <= j - i + 1
    decreases |grants|
  {
    var n := |grants| - 1;
    if GrantsWithin(grants[..n], from, to) == 0 {
      i, j := n, n;
    } else {
      i, j := WindowIsStretch(grants[..n], from, to);
      if from <= grants[n] <= to {
        j := n;
      }
    }
  }

  lemma {:induction false} WindowBound(b: Bucket, top: real, from: real, to: real)
    requires Bounded(b, top) && from <= to
    ensures GrantsWithin(b.grants, from, to) as real <= b.capacity + top * (to - from)
  {
    hide *;
    BoundedFacts(b, top);
    if GrantsWithin(b.grants, from, to) > 0 {
      var i, j := WindowIsStretch(b.grants, from, to);
      var m, d := StretchBound(b, top, i, j);
      FitsWider(GrantsWithin(b.grants, from, to), m, b.capacity, top, d, to - from);
    } else {
      FitsWider(0, 0, b.capacity, top, 0.0, to - from);
    }
  }

  lemma {:induction false} BoundedFacts(b: Bucket, top: real)
    requires Bounded(b, top)
    ensures top >= 0.0 && b.capacity >= 1.0
    ensures forall k, l | 0 <= k <= l < |b.grants| :: b.grants[k] <= b.grants[l]
  {
  }

  lemma {:induction false} StretchBound(b: Bucket, top: real, i: nat, j: nat) returns (m: nat, d: real)
    requires Bounded(b, top) && i <= j < |b.grants|
    ensures m == j - i + 1 && d == b.grants[j] - b.grants[i]
    ensures m as real <= b.capacity + top * d
  {
    m, d := j - i + 1, b.grants[j] - b.grants[i];
  }

  lemma {:induction false} FitsWider(n: nat, m: nat, capacity: real, top: real, d: real, wide: real)
    requires n <= m && top >= 0.0 && d <= wide
    requires m as real <= capacity + top * d
    ensures n as real <= capacity + top * wide
  {
    assert top * d <= top * wide;
  }
}
