/** The limiter object as one uninterrupted caller sees it. The clock counts nanoseconds. */
module RateLimiter {
  import opened RateControl
  import opened TokenBucket

  const NANOS := 1000000000.0

  function Seconds(nanos: int): real {
    nanos as real / NANOS
  }

  function Truncated(seconds: real): int {
    (seconds * NANOS).Floor
  }

  class Limiter {
    var rate: real
    const capacity: real
    var tokens: real
    var lastRefill: int
    const adaptive: bool
    const maxRate: real
    var srtt: real
    var rttvar: real
    var sampleCount: nat
    var lossCount: nat

    predicate Valid()
      reads this`tokens
    {
      capacity >= 1.0 && 0.0 <= tokens <= capacity
    }

    function Statistics(): Stats
      reads this`rate, this`srtt, this`rttvar, this`sampleCount, this`lossCount
    {
      Stats(rate, srtt, rttvar, sampleCount, lossCount)
    }

    constructor (tokensPerSecond: real, bucketCapacity: real, adaptive: bool, maxRate: real, now: int)
      ensures Valid() && tokens == capacity
      ensures capacity == if bucketCapacity < 1.0 then 1.0 else bucketCapacity
      ensures lastRefill == now && this.adaptive == adaptive
      ensures this.maxRate == if maxRate < tokensPerSecond then tokensPerSecond else maxRate
      ensures rate == if tokensPerSecond < 0.1 then 0.1 else tokensPerSecond
      ensures srtt == -1.0 && rttvar == 0.0 && sampleCount == 0 && lossCount == 0
      ensures this.maxRate == CapOf(tokensPerSecond, maxRate) && Statistics() == Fresh(tokensPerSecond)
    {
      rate := Max(0.1, tokensPerSecond);
      capacity := Max(1.0, bucketCapacity);
      tokens := Max(1.0, bucketCapacity);
      lastRefill := now;
      this.adaptive := adaptive;
      this.maxRate := Max(tokensPerSecond, maxRate);
      srtt, rttvar := -1.0, 0.0;
      sampleCount, lossCount := 0, 0;
    }

    method Refill(now: int)
      requires Valid() && rate >= 0.0 && now >= lastRefill
      modifies this`tokens, this`lastRefill
      ensures Valid() && lastRefill == now
      ensures var level := old(tokens) + rate * ((now - old(lastRefill)) as real / 1000000000.0);
        tokens == if level > capacity then capacity else level
      ensures tokens == Refilled(old(tokens), capacity, rate, Seconds(now - old(lastRefill)))
    {
      var dt := Seconds(now - lastRefill);
      tokens := Min(capacity, tokens + dt * rate);
      lastRefill := now;
    }

    /** A rate of at least 0.1 is taken as given. A smaller one is not ignored, as the header comment
        has it: it lowers the rate to the floor. */
    method SetRate(tokensPerSecond: real)
      modifies this`rate
      ensures tokensPerSecond >= 0.1 ==> rate == tokensPerSecond
      ensures tokensPerSecond < 0.1 ==> rate == 0.1
    {
      rate := Max(0.1, tokensPerSecond);
    }

    /** Never divides by zero, and stays within [0, 1] while the counters are consistent. */
    method LossRatio() returns (ratio: real)
      ensures sampleCount == 0 ==> ratio == 0.0
      ensures sampleCount > 0 ==> ratio * sampleCount as real == lossCount as real
      ensures lossCount <= sampleCount ==> 0.0 <= ratio <= 1.0
    {
      if sampleCount == 0 {
        return 0.0;
      }
      ratio := lossCount as real / sampleCount as real;
    }

    /** The accesses of `on_response`, one after the other, with nobody in between. */
    method OnResponse(rtt: int, wasLoss: bool)
      modifies this`rate, this`srtt, this`rttvar, this`sampleCount, this`lossCount
      ensures Statistics() == if adaptive then Report(old(Statistics()), Response(rtt, wasLoss), maxRate)
                              else old(Statistics())
    {
      if !adaptive {
        return;
      }
      if !wasLoss && rtt >= 0 {
        var r := rtt as real;
        var previous := srtt;
        if previous < 0.0 {
          srtt := r;
          rttvar := r * 0.5;
        } else {
          var newSrtt := (1.0 - ALPHA) * previous + ALPHA * r;
          var newRttvar := (1.0 - BETA) * rttvar + BETA * Abs(previous - r);
          srtt := newSrtt;
          rttvar := newRttvar;
        }
      }
      sampleCount := sampleCount + 1;
      var samples := sampleCount;
      if wasLoss {
        lossCount := lossCount + 1;
      }
      if samples % ADJUST_EVERY != 0 {
        return;
      }
      var ratio := lossCount as real / samples as real;
      var cur := rate;
      var next := cur;
      if ratio > LOSS_HIGH {
        next := Max(1.0, cur * STEP_DOWN);
      } else if ratio < LOSS_LOW {
        next := Min(maxRate, cur * STEP_UP);
      }
      if next != cur {
        rate := next;
      }
      if samples >= WINDOW_RESET {
        sampleCount := 0;
        lossCount := 0;
      }
    }

    /** The retry loop of a lone acquirer at a fixed rate. Each sleep lasts at least the truncated
        wait, at least one nanosecond, and `late` more. Despite the truncation it sleeps at most
        twice, and the bucket ends as if it had been refilled once, at the instant of the grant. */
    method Acquire(start: int, late: nat -> nat) returns (now: int, sleeps: nat)
      requires Valid() && rate > 0.0 && start >= lastRefill
      modifies this`tokens, this`lastRefill
      ensures Valid() && lastRefill == now && now >= start
      ensures tokens == Refilled(old(tokens), capacity, rate, Seconds(now - old(lastRefill))) - 1.0
      ensures sleeps <= 2
      ensures sleeps == 0 <==> Refilled(old(tokens), capacity, rate, Seconds(start - old(lastRefill))) >= 1.0
      ensures sleeps == 0 ==> now == start
      ensures var level := Refilled(old(tokens), capacity, rate, Seconds(start - old(lastRefill)));
        level < 1.0 && (forall i: nat :: late(i) == 0) ==> Seconds(now - start) <= (1.0 - level) / rate + Seconds(1)
    {
      hide Gained, Seconds, Truncated;
      now, sleeps := start, 0;
      ghost var exact := (1.0 - Refilled(tokens, capacity, rate, Seconds(start - lastRefill))) / rate;
      ghost var punctual := forall i: nat :: late(i) == 0;
      while true
        invariant Valid() && lastRefill <= now && start <= now
        invariant Refilled(tokens, capacity, rate, Seconds(now - lastRefill))
               == Refilled(old(tokens), capacity, rate, Seconds(now - old(lastRefill)))
        invariant sleeps == 0 ==> now == start && tokens == old(tokens) && lastRefill == old(lastRefill)
        invariant sleeps > 0 ==> Refilled(old(tokens), capacity, rate, Seconds(start - old(lastRefill))) < 1.0
        invariant sleeps == 1 ==> Gained(rate, Seconds(1)) > 1.0 - tokens - Gained(rate, Seconds(now - lastRefill))
        invariant sleeps == 2 ==> tokens + Gained(rate, Seconds(now - lastRefill)) >= 1.0
        invariant sleeps <= 2
        invariant punctual && sleeps > 0 ==> Seconds(now - start) <= exact + Seconds(1)
        invariant punctual && sleeps == 1 ==>
          Seconds(now - start) <= exact || tokens + Gained(rate, Seconds(now - lastRefill)) >= 1.0
        decreases 2 - sleeps
      {
        Refill(now);
        if tokens >= 1.0 {
          tokens := tokens - 1.0;
          return;
        }
        var need := 1.0 - tokens;
        var wait := Truncated(need / rate);
        var elapsed := if wait + late(sleeps) < 1 then 1 else wait + late(sleeps);
        NoClampBelowOne(old(tokens), capacity, rate, Seconds(now - old(lastRefill)), Seconds(elapsed));
        SecondsSum(now - old(lastRefill), elapsed);
        SecondsSum(now - start, elapsed);
        SecondsSum(0, elapsed);
        WaitIsShort(1.0 - tokens, rate, elapsed);
        SleptEnough(tokens, rate, elapsed);
        now := now + elapsed;
        sleeps := sleeps + 1;
      }
    }
  }

  /** What the clock, the wait and the level mean: nanoseconds, rounded down, a product and a minimum. */
  lemma {:induction false} LevelInFull(tokens: real, capacity: real, rate: real, elapsed: int)
    ensures Seconds(elapsed) * 1000000000.0 == elapsed as real
    ensures forall wait: real :: Truncated(wait) as real <= wait * 1000000000.0 < Truncated(wait) as real + 1.0
    ensures var level := tokens + rate * (elapsed as real / 1000000000.0);
      Refilled(tokens, capacity, rate, Seconds(elapsed)) == if level > capacity then capacity else level
  {
  }

  lemma {:induction false} SecondsSum(a: int, b: int)
    ensures Seconds(a + b) == Seconds(a) + Seconds(b)
  {
  }

  /** Two refills in a row are one, as long as the first did not hit the capacity. */
  lemma {:induction false} NoClampBelowOne(tokens: real, capacity: real, rate: real, first: real, second: real)
    requires Refilled(tokens, capacity, rate, first) < 1.0 <= capacity
    ensures Refilled(Refilled(tokens, capacity, rate, first), capacity, rate, second)
         == Refilled(tokens, capacity, rate, first + second)
  {
    GainedSum(rate, first, second);
  }

  /** The truncated wait is no longer than the exact one, and is nothing at all when less than one
      nanosecond's worth is missing. */
  lemma {:induction false} WaitIsShort(need: real, rate: real, elapsed: int)
    requires rate > 0.0 && need > 0.0
    ensures Seconds(Truncated(need / rate)) <= need / rate
    ensures Gained(rate, Seconds(1)) > need ==> Truncated(need / rate) == 0
    ensures Seconds(1) > need / rate ==> Gained(rate, Seconds(1)) > need
    ensures Seconds(0) == 0.0 && Seconds(1) > 0.0
    ensures elapsed >= 1 ==> Seconds(1) <= Seconds(elapsed)
  {
    GainedQuotient(rate, need);
    GainedMonotone(rate, need / rate, Seconds(1));
    GainedMonotone(rate, 0.0, need / rate);
    GainedSum(rate, 0.0, 0.0);
  }

  /** Sleeping for the truncated wait leaves less than one nanosecond's worth missing. */
  lemma {:induction false} SleptEnough(tokens: real, rate: real, elapsed: int)
    requires rate > 0.0 && elapsed >= 1 && elapsed >= Truncated((1.0 - tokens) / rate)
    ensures tokens + Gained(rate, Seconds(elapsed)) > 1.0 - Gained(rate, Seconds(1))
    ensures tokens + Gained(rate, Seconds(elapsed)) >= tokens + Gained(rate, Seconds(1))
  {
    var exact := (1.0 - tokens) / rate;
    GainedQuotient(rate, 1.0 - tokens);
    assert Seconds(elapsed) + Seconds(1) > exact;
    GainedMonotone(rate, exact, Seconds(elapsed) + Seconds(1));
    GainedSum(rate, Seconds(elapsed), Seconds(1));
    GainedMonotone(rate, Seconds(1), Seconds(elapsed));
  }
}
