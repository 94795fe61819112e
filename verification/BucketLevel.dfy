/** What the bucket holds, from its grants alone: the level of every fixed-rate run, the bursts it lets
    through, and what a change of rate does to the time already waited. */
module BucketLevel {
  import opened RateControl
  import opened TokenBucket
  import opened PunctualBucket
  import opened LimiterSystem

  function Capped(level: real, capacity: real): real {
    if level > capacity then capacity else level
  }

  /** What `tokens` at one instant have become at another. */
  function LevelFrom(tokens: real, since: real, now: real, rate: real, capacity: real): real {
    Capped(tokens + rate * (now - since), capacity)
  }

  function LastTime(grants: seq<real>, start: real): real {
    if grants == [] then start else grants[|grants| - 1]
  }

  /** Reference definition: the level right after the last grant of a bucket that was full at `start`. Each
      grant takes one token from what had flowed in since the one before, cut at the capacity. */
  function LevelAfter(grants: seq<real>, start: real, capacity: real, rate: real): real {
    if grants == [] then capacity
    else
      var before := grants[..|grants| - 1];
      var level := LevelAfter(before, start, capacity, rate);
      LevelFrom(level, LastTime(before, start), grants[|grants| - 1], rate, capacity) - 1.0
  }

  /** And the level at a later instant. */
  function LevelOnRecord(grants: seq<real>, start: real, capacity: real, rate: real, now: real): real {
    LevelFrom(LevelAfter(grants, start, capacity, rate), LastTime(grants, start), now, rate, capacity)
  }

  predicate OnRecord(b: Bucket, start: real, rate: real) {
    && LastTime(b.grants, start) <= b.last <= b.now
    && b.tokens == LevelOnRecord(b.grants, start, b.capacity, rate, b.last)
  }

  lemma {:induction false} CappedTwice(x: real, rate: real, s: real, t: real, capacity: real)
    requires rate >= 0.0 && t >= 0.0
    ensures Capped(Capped(x + rate * s, capacity) + rate * t, capacity) == Capped(x + rate * (s + t), capacity)
  {
    assert rate * (s + t) == rate * s + rate * t;
    assert rate * t >= 0.0;
  }

  lemma {:induction false} RefilledIsLevel(tokens: real, since: real, now: real, rate: real, capacity: real)
    ensures Refilled(tokens, capacity, rate, now - since) == LevelFrom(tokens, since, now, rate, capacity)
  {
  }

  lemma {:induction false} LevelAtOnce(tokens: real, now: real, rate: real, capacity: real)
    ensures LevelFrom(tokens, now, now, rate, capacity) == if tokens > capacity then capacity else tokens
  {
    assert rate * (now - now) == 0.0;
  }

  /** A refill at any later time finds the level on record, whatever failed attempts came in between. */
  lemma {:induction false} RefillFindsRecord(b: Bucket, start: real, rate: real)
    requires rate >= 0.0 && OnRecord(b, start, rate)
    ensures Refilled(b.tokens, b.capacity, rate, b.now - b.last)
         == LevelOnRecord(b.grants, start, b.capacity, rate, b.now)
  {
    var x, from := LevelAfter(b.grants, start, b.capacity, rate), LastTime(b.grants, start);
    RefilledIsLevel(b.tokens, b.last, b.now, rate, b.capacity);
    CappedTwice(x, rate, b.last - from, b.now - b.last, b.capacity);
    assert (b.last - from) + (b.now - b.last) == b.now - from;
  }

  lemma {:induction false} RecordAfterGrant(b: Bucket, start: real, rate: real)
    requires b.capacity >= 1.0
    ensures var more := b.grants + [b.now];
      && LevelAfter(more, start, b.capacity, rate)
         == LevelOnRecord(b.grants, start, b.capacity, rate, b.now) - 1.0
      && LevelOnRecord(more, start, b.capacity, rate, b.now) == LevelAfter(more, start, b.capacity, rate)
  {
    var more := b.grants + [b.now];
    assert more[..|more| - 1] == b.grants;
    LevelAtOnce(LevelAfter(more, start, b.capacity, rate), b.now, rate, b.capacity);
    AtMostCapacity(more, start, b.capacity, rate);
    hide LevelFrom;
  }

  lemma {:induction false} RecordStep(b: Bucket, m: Move, start: real, rate: real)
    requires rate >= 0.0 && b.capacity >= 1.0 && OnRecord(b, start, rate)
    ensures OnRecord(Moved(b, m, rate), start, rate) && Moved(b, m, rate).capacity == b.capacity
  {
    if m.Attempt? {
      RefillFindsRecord(b, start, rate);
      RecordAfterGrant(b, start, rate);
      hide LevelOnRecord, LevelAfter, Refilled;
    } else {
      hide LevelOnRecord;
    }
  }

  lemma {:induction false} StaysOnRecord(b: Bucket, moves: seq<Move>, rate: real)
    requires rate >= 0.0 && Full(b)
    ensures var e := Run(b, moves, rate); OnRecord(e, b.now, rate) && e.capacity == b.capacity
    decreases |moves|
  {
    if moves == [] {
      LevelAtOnce(b.capacity, b.now, rate, b.capacity);
    } else {
      hide OnRecord, Moved, Full;
      StaysOnRecord(b, moves[..|moves| - 1], rate);
      FullFacts(b);
      RecordStep(Run(b, moves[..|moves| - 1], rate), moves[|moves| - 1], b.now, rate);
    }
  }

  lemma {:induction false} FullFacts(b: Bucket)
    requires Full(b)
    ensures b.capacity >= 1.0
  {
  }

  /** In every fixed-rate run, punctual or not: right after a grant the bucket holds what the grant times
      determine. */
  lemma {:induction false} LevelAfterEachGrant(b: Bucket, moves: seq<Move>, rate: real)
    requires rate >= 0.0 && Full(b)
    requires Run(b, moves, rate).last == LastTime(Run(b, moves, rate).grants, b.now)
    ensures var e := Run(b, moves, rate); e.tokens == LevelAfter(e.grants, b.now, b.capacity, rate)
  {
    hide Run;
    StaysOnRecord(b, moves, rate);
    var e := Run(b, moves, rate);
    LevelAtOnce(LevelAfter(e.grants, b.now, b.capacity, rate), e.last, rate, b.capacity);
    AtMostCapacity(e.grants, b.now, b.capacity, rate);
  }

  lemma {:induction false} AtMostCapacity(grants: seq<real>, start: real, capacity: real, rate: real)
    ensures LevelAfter(grants, start, capacity, rate) <= capacity
  {
  }

  /** And an attempt gets a token exactly when the grants so far leave one; if not, what it waits for is
      exactly what is missing. */
  lemma {:induction false} GrantedIffLevel(b: Bucket, moves: seq<Move>, rate: real, w: nat)
    requires rate >= 0.0 && Full(b)
    requires var e := Run(b, moves, rate);
      w in e.waiters && e.waiters[w].Ready? && forall v | v in e.waiters :: !e.waiters[v].Short?
    ensures var e, f := Run(b, moves, rate), Run(b, moves + [Attempt(w)], rate);
      var level := LevelOnRecord(e.grants, b.now, b.capacity, rate, e.now);
      if level >= 1.0
      then f.grants == e.grants + [e.now] && f.waiters == e.waiters - {w} && f.tokens == level - 1.0
      else f.grants == e.grants && f.waiters == e.waiters[w := Short(1.0 - level)] && f.tokens == level
  {
    var e := Run(b, moves, rate);
    assert (moves + [Attempt(w)])[..|moves|] == moves;
    StaysOnRecord(b, moves, rate);
    RefillFindsRecord(e, b.now, rate);
    hide Run, Refilled, LevelOnRecord;
    assert Without(e.waiters, w) == e.waiters - {w};
  }

  // ----- Bursts -----

  function Attempts(ws: seq<nat>): seq<Move> {
    seq(|ws|, i requires 0 <= i < |ws| => Attempt(ws[i]))
  }

  predicate Queue(b: Bucket, ws: seq<nat>) {
    && (forall i | 0 <= i < |ws| :: ws[i] in b.waiters && b.waiters[ws[i]].Ready?)
    && (forall i, j | 0 <= i < j < |ws| :: ws[i] != ws[j])
    && forall v | v in b.waiters :: !b.waiters[v].Short?
  }

  /** What an attempt would find now. */
  function LevelNow(b: Bucket, rate: real): real {
    LevelFrom(b.tokens, b.last, b.now, rate, b.capacity)
  }

  /** As many acquirers as the bucket has tokens are served at once, in any order. */
  lemma {:induction false} ServedAtOnce(b: Bucket, ws: seq<nat>, rate: real)
    requires Queue(b, ws) && b.capacity >= 1.0 && LevelNow(b, rate) >= |ws| as real
    ensures var e := Run(b, Attempts(ws), rate);
      && e.now == b.now && e.capacity == b.capacity
      && e.grants == b.grants + seq(|ws|, _ => b.now)
      && e.waiters == b.waiters - (set w | w in ws)
      && LevelNow(e, rate) == LevelNow(b, rate) - |ws| as real
    decreases |ws|
  {
    if ws == [] {
      assert b.grants + seq(0, _ => b.now) == b.grants;
      assert b.waiters - {} == b.waiters;
    } else {
      hide Run, Moved, LevelNow, Attempts, Queue;
      var n := |ws| - 1;
      QueueFront(b, ws);
      ServedAtOnce(b, ws[..n], rate);
      RunLast(b, Attempts(ws), rate);
      var e := Run(b, Attempts(ws[..n]), rate);
      OneServed(e, ws[n], rate);
      OneMoreOut(b, ws);
    }
  }

  lemma {:induction false} QueueFront(b: Bucket, ws: seq<nat>)
    requires Queue(b, ws) && ws != []
    ensures var n := |ws| - 1; var left := b.waiters - (set v | v in ws[..n]);
      && Queue(b, ws[..n])
      && |Attempts(ws)| == |ws| && Attempts(ws)[..n] == Attempts(ws[..n]) && Attempts(ws)[n] == Attempt(ws[n])
      && ws[n] in left && left[ws[n]].Ready? && forall v | v in left :: !left[v].Short?
  {
  }

  lemma {:induction false} OneMoreOut(b: Bucket, ws: seq<nat>)
    requires ws != []
    ensures var n := |ws| - 1;
      && b.grants + seq(n, _ => b.now) + [b.now] == b.grants + seq(|ws|, _ => b.now)
      && b.waiters - (set v | v in ws[..n]) - {ws[n]} == b.waiters - (set v | v in ws)
  {
    var n := |ws| - 1;
    assert (set v | v in ws) == (set v | v in ws[..n]) + {ws[n]};
  }

  lemma {:induction false} RunLast(b: Bucket, moves: seq<Move>, rate: real)
    requires moves != []
    ensures Run(b, moves, rate) == Moved(Run(b, moves[..|moves| - 1], rate), moves[|moves| - 1], rate)
  {
  }

  lemma {:induction false} OneServed(e: Bucket, w: nat, rate: real)
    requires w in e.waiters && e.waiters[w].Ready? && forall v | v in e.waiters :: !e.waiters[v].Short?
    requires e.capacity >= 1.0 && LevelNow(e, rate) >= 1.0
    ensures var f := Moved(e, Attempt(w), rate);
      && f.now == e.now && f.capacity == e.capacity && f.grants == e.grants + [e.now]
      && f.waiters == e.waiters - {w} && LevelNow(f, rate) == LevelNow(e, rate) - 1.0
  {
    RefilledIsLevel(e.tokens, e.last, e.now, rate, e.capacity);
    assert Without(e.waiters, w) == e.waiters - {w};
    LevelAtOnce(LevelNow(e, rate) - 1.0, e.now, rate, e.capacity);
    assert LevelNow(e, rate) <= e.capacity;
    hide Refilled, LevelFrom;
  }

  lemma {:induction false} NoneServed(e: Bucket, w: nat, rate: real)
    requires LevelNow(e, rate) < 1.0
    ensures Moved(e, Attempt(w), rate).grants == e.grants
  {
    RefilledIsLevel(e.tokens, e.last, e.now, rate, e.capacity);
    hide Refilled, LevelFrom;
  }

  lemma {:induction false} FullAfterIdling(b: Bucket, idle: real, rate: real)
    requires rate >= 0.0 && Full(b) && idle >= 0.0
    ensures var later := Moved(b, Tick(idle), rate);
      && LevelNow(later, rate) == b.capacity && later == b.(now := b.now + idle)
  {
    assert rate * idle >= 0.0;
  }

  /** However long a full bucket has been idle, it serves as many ready acquirers at one instant as its
      capacity, rounded down, in any order, and no further one. */
  lemma {:induction false} BurstAfterIdling(b: Bucket, idle: real, ws: seq<nat>, rate: real, next: nat)
    requires rate >= 0.0 && Full(b) && idle >= 0.0 && Queue(b, ws) && |ws| <= b.capacity.Floor
    requires next in b.waiters && b.waiters[next].Ready? && next !in ws
    ensures var e := Run(b, [Tick(idle)] + Attempts(ws), rate);
      && e.grants == seq(|ws|, _ => b.now + idle) && e.waiters == b.waiters - (set w | w in ws)
      && (Run(b, [Tick(idle)] + Attempts(ws) + [Attempt(next)], rate).grants == e.grants
          <==> |ws| == b.capacity.Floor)
  {
    var later := b.(now := b.now + idle);
    var all := [Tick(idle)] + Attempts(ws);
    FullAfterIdling(b, idle, rate);
    assert Queue(later, ws);
    hide Run, Moved, LevelNow, Attempts;
    ServedAtOnce(later, ws, rate);
    RunFrom(b, Tick(idle), Attempts(ws), rate);
    var e := Run(b, all, rate);
    assert (all + [Attempt(next)])[..|all|] == all;
    RunLast(b, all + [Attempt(next)], rate);
    assert [] + seq(|ws|, _ => b.now + idle) == seq(|ws|, _ => b.now + idle);
    if |ws| == b.capacity.Floor {
      NoneServed(e, next, rate);
    } else {
      OneServed(e, next, rate);
    }
  }

  lemma {:induction false} RunFrom(b: Bucket, m: Move, moves: seq<Move>, rate: real)
    ensures Run(b, [m] + moves, rate) == Run(Moved(b, m, rate), moves, rate)
    decreases |moves|
  {
    hide Moved;
    if moves == [] {
      assert [m] + moves == [m] && [m][..0] == [];
      RunLast(b, [m], rate);
    } else {
      assert ([m] + moves)[..|moves|] == [m] + moves[..|moves| - 1];
      RunFrom(b, m, moves[..|moves| - 1], rate);
    }
  }

  // ----- Changes of rate -----

  predicate NoAttempt(events: seq<Event>) {
    forall i | 0 <= i < |events| :: !(events[i].OnBucket? && events[i].m.Attempt?)
  }

  lemma {:induction false} NothingFlowsIn(s: System, events: seq<Event>, c: Config)
    requires NoAttempt(events)
    ensures var b, e := s.bucket, History(s, events, c).bucket;
      && e.tokens == b.tokens && e.last == b.last && e.capacity == b.capacity && e.grants == b.grants
    decreases |events|
  {
    if events != [] {
      NothingFlowsIn(s, events[..|events| - 1], c);
    }
  }

  /** A change of rate is retroactive: whatever rates were in force since the last attempt, an attempt
      credits the whole time since then at the rate in force when it is made. */
  lemma {:induction false} RateIsRetroactive(s: System, events: seq<Event>, c: Config, w: nat)
    requires NoAttempt(events)
    requires var b := History(s, events, c).bucket;
      w in b.waiters && b.waiters[w].Ready? && forall v | v in b.waiters :: !b.waiters[v].Short?
    ensures var e, f := History(s, events, c), History(s, events + [OnBucket(Attempt(w))], c);
      var level := LevelFrom(s.bucket.tokens, s.bucket.last, e.bucket.now, e.shared.stats.rate, s.bucket.capacity);
      && f.shared == e.shared && f.bucket.last == e.bucket.now
      && if level >= 1.0
         then f.bucket.grants == s.bucket.grants + [e.bucket.now] && f.bucket.tokens == level - 1.0
              && w !in f.bucket.waiters
         else f.bucket.grants == s.bucket.grants && f.bucket.tokens == level
              && f.bucket.waiters == e.bucket.waiters[w := Short(1.0 - level)]
  {
    NothingFlowsIn(s, events, c);
    HistoryMore(s, events, OnBucket(Attempt(w)), c);
    var e := History(s, events, c);
    RefilledIsLevel(s.bucket.tokens, s.bucket.last, e.bucket.now, e.shared.stats.rate, s.bucket.capacity);
    hide History, Refilled, LevelFrom;
  }
}
