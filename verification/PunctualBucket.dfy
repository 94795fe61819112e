/** The bucket at a fixed rate with exact timers: a timer is armed for exactly the computed wait, it
    fires at its deadline, and no time passes while an acquirer can run. */
module PunctualBucket {
  import opened RateControl
  import opened TokenBucket

  predicate PunctualMove(b: Bucket, m: Move, rate: real)
    requires rate > 0.0
  {
    match m
    case Tick(dt) => forall w | w in b.waiters :: b.waiters[w].Asleep? && b.now + dt <= b.waiters[w].deadline
    case Arm(w, wait) => w in b.waiters && b.waiters[w].Short? ==> wait == b.waiters[w].need / rate
    case _ => true
  }

  function Run(b: Bucket, moves: seq<Move>, rate: real): Bucket {
    if moves == [] then b
    else Moved(Run(b, moves[..|moves| - 1], rate), moves[|moves| - 1], rate)
  }

  predicate PunctualRun(b: Bucket, moves: seq<Move>, rate: real)
    requires rate > 0.0
  {
    forall n | 0 <= n < |moves| :: PunctualMove(Run(b, moves[..n], rate), moves[n], rate)
  }

  lemma {:induction false} PunctualPrefix(b: Bucket, moves: seq<Move>, rate: real)
    requires rate > 0.0 && PunctualRun(b, moves, rate) && moves != []
    ensures PunctualRun(b, moves[..|moves| - 1], rate)
    ensures PunctualMove(Run(b, moves[..|moves| - 1], rate), moves[|moves| - 1], rate)
  {
    var front := moves[..|moves| - 1];
    forall n | 0 <= n < |front| ensures PunctualMove(Run(b, front[..n], rate), front[n], rate) {
      assert front[..n] == moves[..n];
    }
  }

  /** The unclamped level at time `t` if nothing is granted before. */
  function LevelAt(b: Bucket, rate: real, t: real): real {
    b.tokens + Gained(rate, t - b.last)
  }

  predicate WaiterOnTime(b: Bucket, w: Waiter, rate: real) {
    match w
    case Ready => true
    case Short(need) => b.last == b.now && need == 1.0 - b.tokens && need > 0.0
    case Asleep(d) => b.now <= d && LevelAt(b, rate, d) <= 1.0
  }

  predicate OnTime(b: Bucket, rate: real) {
    && b.capacity >= 1.0 && b.last <= b.now
    && forall w | w in b.waiters :: WaiterOnTime(b, b.waiters[w], rate)
  }

  lemma {:induction false} OnTimeMove(b: Bucket, m: Move, rate: real)
    requires rate > 0.0 && OnTime(b, rate) && PunctualMove(b, m, rate)
    ensures OnTime(Moved(b, m, rate), rate)
  {
    if Enabled(b, m) {
      match m
      case Attempt(w) => OnTimeTry(b, w, rate);
      case Arm(w, wait) =>
        hide Gained;
        GainedQuotient(rate, b.waiters[w].need);
        var e := Moved(b, m, rate);
        assert WaiterOnTime(b, b.waiters[w], rate);
        assert e.waiters[w].deadline - b.last == wait;
      case _ =>
    }
  }

  /** An attempt moves no deadline beyond the instant the bucket reaches one token. */
  lemma {:induction false} OnTimeTry(b: Bucket, w: nat, rate: real)
    requires rate > 0.0 && OnTime(b, rate) && Enabled(b, Attempt(w))
    ensures OnTime(Tried(b, w, rate), rate)
  {
    hide Gained;
    var e := Tried(b, w, rate);
    forall v | v in e.waiters ensures WaiterOnTime(e, e.waiters[v], rate) {
      if v != w && e.waiters[v].Asleep? {
        var d := b.waiters[v].deadline;
        assert WaiterOnTime(b, b.waiters[v], rate);
        assert d - b.last == (b.now - b.last) + (d - b.now);
        GainedSum(rate, b.now - b.last, d - b.now);
        GainedMonotone(rate, 0.0, d - b.now);
      }
    }
  }

  /** Work conservation: while anyone sleeps, no sleeper's deadline lies beyond the instant the
      bucket holds a token, so the bucket never holds more than one. */
  lemma {:induction false} SleepersAreNeverLate(b: Bucket, moves: seq<Move>, rate: real, w: nat, t: real)
    requires rate > 0.0 && Full(b) && b.waiters == map[] && PunctualRun(b, moves, rate)
    requires var e := Run(b, moves, rate);
      w in e.waiters && e.waiters[w].Asleep? && e.now <= t
    ensures var e := Run(b, moves, rate); var level := Refilled(e.tokens, e.capacity, rate, t - e.last);
      && (t < e.waiters[w].deadline ==> level < 1.0)
      && (t == e.now ==> level <= 1.0)
      && e.now <= e.waiters[w].deadline
  {
    EmptyIsOnTime(b, rate);
    StaysOnTime(b, moves, rate);
    SleeperIsNotLate(Run(b, moves, rate), rate, w, t);
  }

  lemma {:induction false} EmptyIsOnTime(b: Bucket, rate: real)
    requires Full(b) && forall w | w in b.waiters :: b.waiters[w].Ready?
    ensures OnTime(b, rate)
  {
  }

  lemma {:induction false} SleeperIsNotLate(e: Bucket, rate: real, w: nat, t: real)
    requires rate > 0.0 && OnTime(e, rate)
    requires w in e.waiters && e.waiters[w].Asleep? && e.now <= t
    ensures var level := Refilled(e.tokens, e.capacity, rate, t - e.last);
      && (t < e.waiters[w].deadline ==> level < 1.0)
      && (t == e.now ==> level <= 1.0)
      && e.now <= e.waiters[w].deadline
  {
    assert WaiterOnTime(e, e.waiters[w], rate);
    GainedMonotone(rate, t - e.last, e.waiters[w].deadline - e.last);
    hide Gained;
  }

  lemma {:induction false} StaysOnTime(b: Bucket, moves: seq<Move>, rate: real)
    requires rate > 0.0 && OnTime(b, rate) && PunctualRun(b, moves, rate)
    ensures OnTime(Run(b, moves, rate), rate)
    decreases |moves|
  {
    if moves != [] {
      PunctualPrefix(b, moves, rate);
      StaysOnTime(b, moves[..|moves| - 1], rate);
      OnTimeMove(Run(b, moves[..|moves| - 1], rate), moves[|moves| - 1], rate);
    }
  }

  // ----- The exact grant times -----

  /** When grant number `k`, counted from 1, is due. */
  function DueTime(start: real, capacity: real, rate: real, k: nat): real
    requires rate > 0.0
  {
    start + Max(0.0, (k as real - capacity) / rate)
  }

  lemma {:induction false} DueTimeBounds(start: real, capacity: real, rate: real, k: nat, t: real)
    requires rate > 0.0
    ensures Gained(rate, t - start) <= k as real - capacity ==> t <= DueTime(start, capacity, rate, k)
    ensures t > start && Gained(rate, t - start) == k as real - capacity ==> t == DueTime(start, capacity, rate, k)
    ensures k as real <= capacity ==> DueTime(start, capacity, rate, k) == start
    ensures start <= DueTime(start, capacity, rate, k)
  {
    var owed := k as real - capacity;
    GainedQuotient(rate, owed);
    GainedMonotone(rate, t - start, owed / rate);
    GainedMonotone(rate, t - start, 0.0);
    GainedMonotone(rate, owed / rate, 0.0);
    GainedSum(rate, 0.0, 0.0);
    hide Gained;
  }

  /** Nothing was ever lost to the clamp, nobody is overdue, and every grant came when due. */
  predicate Exact(b: Bucket, start: real, rate: real, n: nat)
    requires rate > 0.0
  {
    && OnTime(b, rate)
    && start <= b.last
    && b.tokens == b.capacity - |b.grants| as real + Gained(rate, b.last - start)
    && |b.waiters| + |b.grants| == n
    && (b.now == start || forall w | w in b.waiters && b.waiters[w].Ready? :: LevelAt(b, rate, b.now) <= 1.0)
    && forall k | 0 <= k < |b.grants| :: b.grants[k] == DueTime(start, b.capacity, rate, k + 1)
  }

  lemma {:induction false} ExactMove(b: Bucket, m: Move, start: real, rate: real, n: nat)
    requires rate > 0.0 && Exact(b, start, rate, n) && PunctualMove(b, m, rate) && !m.Arrive?
    ensures Exact(Moved(b, m, rate), start, rate, n)
  {
    OnTimeMove(b, m, rate);
    if Enabled(b, m) {
      match m
      case Attempt(w) => ExactTry(b, w, start, rate, n);
      case Arm(w, wait) => assert |b.waiters[w := Asleep(b.now + wait)]| == |b.waiters|;
      case Wake(w) =>
        assert WaiterOnTime(b, b.waiters[w], rate);
        assert |b.waiters[w := Ready]| == |b.waiters|;
      case Tick(dt) =>
    }
  }

  lemma {:induction false} ExactTry(b: Bucket, w: nat, start: real, rate: real, n: nat)
    requires rate > 0.0 && Exact(b, start, rate, n) && Enabled(b, Attempt(w))
    ensures Exact(Tried(b, w, rate), start, rate, n)
  {
    hide Gained, DueTime;
    var e, level := Tried(b, w, rate), LevelAt(b, rate, b.now);
    OnTimeTry(b, w, rate);
    assert b.now - start == (b.now - b.last) + (b.last - start);
    GainedSum(rate, b.now - b.last, b.last - start);
    assert level == b.capacity - |b.grants| as real + Gained(rate, b.now - start);
    if b.now == start {
      assert level <= b.capacity;
    }
    assert Refilled(b.tokens, b.capacity, rate, b.now - b.last) == level;
    WaitersAfterTry(b.waiters, w, 1.0 - level);
    DueTimeBounds(start, b.capacity, rate, |b.grants| + 1, b.now);
    GainedSum(rate, 0.0, 0.0);
    hide OnTime, WaiterOnTime;
  }

  lemma {:induction false} WaitersAfterTry(waiters: map<nat, Waiter>, w: nat, need: real)
    requires w in waiters
    ensures |Without(waiters, w)| == |waiters| - 1 && |waiters[w := Short(need)]| == |waiters|
  {
    assert Without(waiters, w).Keys == waiters.Keys - {w};
    assert waiters[w := Short(need)].Keys == waiters.Keys;
  }

  /** n acquirers that start together on a full bucket: in every punctual run, grant k falls exactly
      at max(0, (k - capacity) / rate), and time never passes the due time of the next grant while
      someone still waits. */
  lemma {:induction false} GrantsAreExact(b: Bucket, moves: seq<Move>, rate: real)
    requires rate > 0.0 && Full(b) && PunctualRun(b, moves, rate)
    requires forall w | w in b.waiters :: b.waiters[w].Ready?
    requires forall i | 0 <= i < |moves| :: !moves[i].Arrive?
    ensures var e := Run(b, moves, rate);
      && (forall k | 0 <= k < |e.grants| :: e.grants[k] == DueTime(b.now, b.capacity, rate, k + 1))
      && |e.grants| + |e.waiters| == |b.waiters|
      && (e.waiters != map[] ==> e.now <= DueTime(b.now, b.capacity, rate, |e.grants| + 1))
  {
    StaysExact(b, moves, rate);
    var e := Run(b, moves, rate);
    if e.waiters != map[] {
      var w :| w in e.waiters;
      NobodyOverdue(e, b.now, rate, |b.waiters|, w);
    }
  }

  lemma {:induction false} NobodyOverdue(e: Bucket, start: real, rate: real, n: nat, w: nat)
    requires rate > 0.0 && Exact(e, start, rate, n) && w in e.waiters
    ensures e.now <= DueTime(start, e.capacity, rate, |e.grants| + 1)
  {
    hide Gained, DueTime;
    DueTimeBounds(start, e.capacity, rate, |e.grants| + 1, e.now);
    assert WaiterOnTime(e, e.waiters[w], rate);
    if e.now > start {
      match e.waiters[w]
      case Asleep(d) => GainedMonotone(rate, e.now - e.last, d - e.last);
      case Short(_) => GainedSum(rate, 0.0, 0.0);
      case Ready =>
    }
    assert e.now > start ==> LevelAt(e, rate, e.now) <= 1.0;
    assert e.now - start == (e.now - e.last) + (e.last - start);
    GainedSum(rate, e.now - e.last, e.last - start);
  }

  lemma {:induction false} StaysExact(b: Bucket, moves: seq<Move>, rate: real)
    requires rate > 0.0 && Full(b) && PunctualRun(b, moves, rate)
    requires forall w | w in b.waiters :: b.waiters[w].Ready?
    requires forall i | 0 <= i < |moves| :: !moves[i].Arrive?
    ensures var e := Run(b, moves, rate); Exact(e, b.now, rate, |b.waiters|) && e.capacity == b.capacity
    decreases |moves|
  {
    if moves != [] {
      PunctualPrefix(b, moves, rate);
      StaysExact(b, moves[..|moves| - 1], rate);
      ExactMove(Run(b, moves[..|moves| - 1], rate), moves[|moves| - 1], b.now, rate, |b.waiters|);
    }
  }

  // ----- Everyone is served -----

  lemma {:induction false} EarliestDeadline(waiters: map<nat, Waiter>) returns (w: nat)
    requires waiters != map[] && forall v | v in waiters :: waiters[v].Asleep?
    ensures w in waiters && forall v | v in waiters :: waiters[w].deadline <= waiters[v].deadline
    decreases |waiters|
  {
    var u :| u in waiters;
    var others := Without(waiters, u);
    if others == map[] {
      w := u;
      assert forall v | v in waiters :: v == u || v in others;
    } else {
      assert others.Keys == waiters.Keys - {u};
      w := EarliestDeadline(others);
      if waiters[u].deadline < waiters[w].deadline {
        w := u;
      }
      assert forall v | v in waiters :: v == u || v in others;
    }
  }

  lemma {:induction false} NonnegativeQuotient(x: real, y: real)
    requires x >= 0.0 && y > 0.0
    ensures x / y >= 0.0
  {
  }

  /** A waiter that will get its token on its next attempt, if nobody takes it away: it sleeps until
      exactly the instant the bucket reaches one token, or is ready while the bucket holds one. */
  predicate Assured(b: Bucket, w: Waiter, rate: real) {
    match w
    case Ready => LevelAt(b, rate, b.now) >= 1.0
    case Short(_) => false
    case Asleep(d) => LevelAt(b, rate, d) == 1.0
  }

  function Unassured(b: Bucket, rate: real): set<nat> {
    set w | w in b.waiters && !Assured(b, b.waiters[w], rate)
  }

  /** How many kinds of moves may come before the next attempt or arming of a timer. */
  function Phase(b: Bucket): nat {
    if exists w | w in b.waiters :: b.waiters[w].Short? then 0
    else if exists w | w in b.waiters :: b.waiters[w].Ready? then 1
    else if exists w | w in b.waiters :: b.waiters[w].Asleep? && b.waiters[w].deadline <= b.now then 2
    else 3
  }

  /** Arming a timer assures its waiter; no other move but a grant changes who is assured. */
  lemma {:induction false} ArmAssures(b: Bucket, w: nat, rate: real)
    requires rate > 0.0 && OnTime(b, rate) && w in b.waiters && b.waiters[w].Short?
    ensures var wait := b.waiters[w].need / rate; var e := Moved(b, Arm(w, wait), rate);
      && Enabled(b, Arm(w, wait))
      && e.grants == b.grants && e.waiters.Keys == b.waiters.Keys
      && w in Unassured(b, rate) && Unassured(e, rate) == Unassured(b, rate) - {w}
  {
    hide Gained;
    var need := b.waiters[w].need;
    assert WaiterOnTime(b, b.waiters[w], rate);
    NonnegativeQuotient(need, rate);
    GainedQuotient(rate, need);
    assert b.now + need / rate - b.last == need / rate;
  }

  lemma {:induction false} WakeKeeps(b: Bucket, w: nat, rate: real)
    requires rate > 0.0 && OnTime(b, rate) && w in b.waiters && b.waiters[w] == Asleep(b.now)
    requires Phase(b) == 2
    ensures var e := Moved(b, Wake(w), rate);
      && e.grants == b.grants && e.waiters.Keys == b.waiters.Keys
      && Unassured(e, rate) == Unassured(b, rate) && Phase(e) == 1
  {
    hide Gained;
    var e := Moved(b, Wake(w), rate);
    assert WaiterOnTime(b, b.waiters[w], rate);
    assert e.waiters[w].Ready?;
  }

  lemma {:induction false} TickKeeps(b: Bucket, w: nat, rate: real)
    requires rate > 0.0 && Phase(b) == 3 && w in b.waiters
    ensures b.waiters[w].Asleep? && b.waiters[w].deadline > b.now
    ensures var e := Moved(b, Tick(b.waiters[w].deadline - b.now), rate);
      && e.waiters == b.waiters && e.grants == b.grants && e.now == b.waiters[w].deadline
      && Unassured(e, rate) == Unassured(b, rate) && Phase(e) == 2
  {
    hide Gained;
    assert !b.waiters[w].Short? && !b.waiters[w].Ready?;
    var e := Moved(b, Tick(b.waiters[w].deadline - b.now), rate);
    assert e.waiters[w].deadline <= e.now;
    assert forall v | v in b.waiters :: b.waiters[v].Asleep?;
  }

  /** An attempt either takes a token or leaves everyone as assured as before. */
  lemma {:induction false} TryAssures(b: Bucket, w: nat, rate: real)
    requires rate > 0.0 && OnTime(b, rate) && Enabled(b, Attempt(w))
    ensures var e := Moved(b, Attempt(w), rate);
      if LevelAt(b, rate, b.now) >= 1.0
      then e.grants == b.grants + [b.now] && e.waiters == Without(b.waiters, w)
      else && e.grants == b.grants && e.waiters.Keys == b.waiters.Keys
           && Unassured(e, rate) == Unassured(b, rate) && Phase(e) == 0
  {
    hide Gained;
    if LevelAt(b, rate, b.now) < 1.0 {
      var e := Moved(b, Attempt(w), rate);
      assert e.waiters[w].Short?;
      forall v | v in b.waiters ensures Assured(e, e.waiters[v], rate) <==> Assured(b, b.waiters[v], rate) {
        var t := if b.waiters[v].Asleep? then b.waiters[v].deadline else b.now;
        assert t - b.last == (b.now - b.last) + (t - b.now);
        GainedSum(rate, b.now - b.last, t - b.now);
      }
    }
  }

  /** A punctual run without newcomers. */
  predicate Continues(b: Bucket, moves: seq<Move>, rate: real)
    requires rate > 0.0
  {
    PunctualRun(b, moves, rate) && forall i | 0 <= i < |moves| :: !moves[i].Arrive?
  }

  lemma {:induction false} RunMore(b: Bucket, moves: seq<Move>, m: Move, rate: real)
    requires rate > 0.0 && PunctualRun(b, moves, rate) && PunctualMove(Run(b, moves, rate), m, rate)
    ensures PunctualRun(b, moves + [m], rate)
    ensures Run(b, moves + [m], rate) == Moved(Run(b, moves, rate), m, rate)
  {
    hide PunctualMove, Moved;
    var more := moves + [m];
    assert more[..|moves|] == moves;
    forall n | 0 <= n < |more| ensures PunctualMove(Run(b, more[..n], rate), more[n], rate) {
      if n < |moves| {
        assert more[..n] == moves[..n] && more[n] == moves[n];
      }
    }
  }

  lemma {:induction false} RunConcat(b: Bucket, first: seq<Move>, moves: seq<Move>, rate: real)
    requires rate > 0.0 && PunctualRun(b, first, rate) && PunctualRun(Run(b, first, rate), moves, rate)
    ensures PunctualRun(b, first + moves, rate)
    ensures Run(b, first + moves, rate) == Run(Run(b, first, rate), moves, rate)
    decreases |moves|
  {
    hide PunctualMove, Moved, PunctualRun;
    if moves == [] {
      assert first + moves == first;
    } else {
      var front, last := moves[..|moves| - 1], moves[|moves| - 1];
      PunctualPrefix(Run(b, first, rate), moves, rate);
      RunConcat(b, first, front, rate);
      RunMore(b, first + front, last, rate);
      assert first + front + [last] == first + moves;
    }
  }

  lemma {:induction false} ContinueFrom(b: Bucket, m: Move, moves: seq<Move>, rate: real) returns (all: seq<Move>)
    requires rate > 0.0 && PunctualMove(b, m, rate) && !m.Arrive?
    requires Continues(Moved(b, m, rate), moves, rate)
    ensures Continues(b, all, rate) && Run(b, all, rate) == Run(Moved(b, m, rate), moves, rate)
  {
    assert [m][..0] == [] && Run(b, [], rate) == b;
    assert Run(b, [m], rate) == Moved(b, m, rate);
    RunConcat(b, [m], moves, rate);
    all := [m] + moves;
  }

  /** While anyone waits, the run can be continued to the next grant. */
  lemma {:induction false} NextGrant(b: Bucket, rate: real) returns (moves: seq<Move>)
    requires rate > 0.0 && OnTime(b, rate) && b.waiters != map[]
    ensures Continues(b, moves, rate)
    ensures var e := Run(b, moves, rate);
      OnTime(e, rate) && |e.grants| == |b.grants| + 1 && |e.waiters| == |b.waiters| - 1
    decreases |Unassured(b, rate)|, Phase(b)
  {
    var m := NextMove(b, rate);
    var e := Moved(b, m, rate);
    OnTimeMove(b, m, rate);
    var rest := [];
    if |e.grants| == |b.grants| {
      assert |e.waiters| == |e.waiters.Keys| && |b.waiters| == |b.waiters.Keys|;
      rest := NextGrant(e, rate);
    }
    moves := ContinueFrom(b, m, rest, rate);
  }

  /** While anyone waits, some acquirer can move or time can pass: exact timers never deadlock. And the
      move either is a grant or brings the next one nearer. */
  lemma {:induction false} NextMove(b: Bucket, rate: real) returns (m: Move)
    requires rate > 0.0 && OnTime(b, rate) && b.waiters != map[]
    ensures Enabled(b, m) && PunctualMove(b, m, rate) && !m.Arrive?
    ensures m.Tick? ==> m.dt > 0.0
    ensures var e := Moved(b, m, rate);
      if |e.grants| != |b.grants| then |e.grants| == |b.grants| + 1 && |e.waiters| == |b.waiters| - 1
      else && e.waiters.Keys == b.waiters.Keys
           && (|Unassured(e, rate)| < |Unassured(b, rate)|
               || (Unassured(e, rate) == Unassured(b, rate) && Phase(e) < Phase(b)))
  {
    hide Assured, Unassured, OnTime, WaiterOnTime, LevelAt;
    if w :| w in b.waiters && b.waiters[w].Short? {
      ArmAssures(b, w, rate);
      m := Arm(w, b.waiters[w].need / rate);
    } else if w :| w in b.waiters && b.waiters[w].Ready? {
      m := Attempt(w);
      TryAssures(b, w, rate);
      WaitersAfterTry(b.waiters, w, 0.0);
    } else {
      var w := EarliestDeadline(b.waiters);
      DeadlineAhead(b, w, rate);
      if b.waiters[w].deadline == b.now {
        assert Phase(b) == 2;
        WakeKeeps(b, w, rate);
        m := Wake(w);
      } else {
        assert Phase(b) == 3;
        TickKeeps(b, w, rate);
        m := Tick(b.waiters[w].deadline - b.now);
      }
    }
  }

  lemma {:induction false} DeadlineAhead(b: Bucket, w: nat, rate: real)
    requires OnTime(b, rate) && w in b.waiters && b.waiters[w].Asleep?
    ensures b.now <= b.waiters[w].deadline
  {
    assert WaiterOnTime(b, b.waiters[w], rate);
  }

  /** Nobody waits for ever: every punctual run, whoever arrived when, can be continued until all who
      wait have their token, one grant each. */
  lemma {:induction false} EveryoneIsServed(b: Bucket, moves: seq<Move>, rate: real) returns (more: seq<Move>)
    requires rate > 0.0 && Full(b) && PunctualRun(b, moves, rate)
    requires forall w | w in b.waiters :: b.waiters[w].Ready?
    ensures PunctualRun(b, moves + more, rate) && forall i | 0 <= i < |more| :: !more[i].Arrive?
    ensures var e, f := Run(b, moves, rate), Run(b, moves + more, rate);
      f.waiters == map[] && |f.grants| == |e.grants| + |e.waiters|
  {
    EmptyIsOnTime(b, rate);
    StaysOnTime(b, moves, rate);
    more := ServeAll(Run(b, moves, rate), rate);
    RunConcat(b, moves, more, rate);
  }

  lemma {:induction false} ServeAll(b: Bucket, rate: real) returns (moves: seq<Move>)
    requires rate > 0.0 && OnTime(b, rate)
    ensures Continues(b, moves, rate)
    ensures var e := Run(b, moves, rate); e.waiters == map[] && |e.grants| == |b.grants| + |b.waiters|
    decreases |b.waiters|
  {
    if b.waiters == map[] {
      moves := [];
    } else {
      var first := NextGrant(b, rate);
      var rest := ServeAll(Run(b, first, rate), rate);
      RunConcat(b, first, rest, rate);
      moves := first + rest;
    }
  }

  /** With `GrantsAreExact`: n acquirers that start together on a full bucket all get their token, each at
      its due time. */
  lemma {:induction false} AllGrantsComeWhenDue(b: Bucket, moves: seq<Move>, rate: real) returns (more: seq<Move>)
    requires rate > 0.0 && Full(b) && PunctualRun(b, moves, rate)
    requires forall w | w in b.waiters :: b.waiters[w].Ready?
    requires forall i | 0 <= i < |moves| :: !moves[i].Arrive?
    ensures PunctualRun(b, moves + more, rate)
    ensures var f := Run(b, moves + more, rate);
      && f.waiters == map[] && |f.grants| == |b.waiters|
      && forall k | 0 <= k < |b.waiters| :: f.grants[k] == DueTime(b.now, b.capacity, rate, k + 1)
  {
    more := EveryoneIsServed(b, moves, rate);
    GrantsAreExact(b, moves + more, rate);
  }
}
