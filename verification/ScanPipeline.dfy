/** `scan_one` for one port, against an arbitrary environment: any connect outcome or exception, any
    resolver and socket outcome, any probe answer. `Connect` is one call of the library's connect. */
module ScanPipeline {
  import opened Prelude

  datatype PortState = Open | Closed | Filtered | Unknown

  datatype Cve = Cve(id: string, cvss: real)

  datatype Service = Service(name: string, version: string, banner: string, ja4s: string, ja4x: string)

  datatype Answer = Matched(service: Service) | Unmatched | Throws

  datatype CveDb = CveDb(entries: nat, lookup: (string, string) -> seq<Cve>)

  /** Everything the scan cannot decide itself. No state stands for an exception while connecting;
      the hints of probe `i` are `hints[i]`. */
  datatype Environment = Environment(
    port: nat, state: Option<PortState>, rtt: int,
    probes: Option<seq<seq<nat>>>, resolves: bool, connects: bool,
    identify: nat -> Answer, reconnects: nat -> bool, cves: Option<CveDb>)

  datatype Action =
    | Acquire
    | ConnectScan
    | OnResponse(rtt: int, wasLoss: bool)
    | Resolve
    | Connect(ok: bool)
    | Identify(probe: nat)
    | Close
    | LookUp(name: string, version: string)

  datatype ScanResult = ScanResult(state: PortState, rtt: int, service: Service, cves: seq<Cve>)

  const NO_SERVICE := Service("", "", "", "", "")

  predicate Hinted(hints: seq<nat>, port: nat) {
    hints == [] || port in hints
  }

  function ProbeCount(env: Environment): nat {
    if env.probes.Some? then |env.probes.value| else 0
  }

  predicate Tries(env: Environment, i: nat) {
    i < ProbeCount(env) && Hinted(env.probes.value[i], env.port)
  }

  /** How the probe loop ends. */
  datatype Verdict = Found(probe: nat, service: Service) | Nothing | Aborted

  datatype Probing = Probing(log: seq<Action>, verdict: Verdict)

  /** A probe that did not match costs its socket. */
  function Retry(i: nat, ok: bool): seq<Action> {
    [Identify(i), Close, Connect(ok)]
  }

  function ProbeFrom(env: Environment, i: nat): Probing
    requires i <= ProbeCount(env)
    decreases ProbeCount(env) - i
  {
    if i == ProbeCount(env) then Probing([], Nothing)
    else if !Tries(env, i) then ProbeFrom(env, i + 1)
    else match env.identify(i)
      case Matched(service) => Probing([Identify(i)], Found(i, service))
      case Throws => Probing([Identify(i)], Aborted)
      case Unmatched =>
        var retry := Retry(i, env.reconnects(i));
        if env.reconnects(i)
        then var rest := ProbeFrom(env, i + 1); rest.(log := retry + rest.log)
        else Probing(retry, Nothing)
  }

  datatype Run = Run(log: seq<Action>, result: Option<ScanResult>)

  predicate SearchesCves(env: Environment, service: Service) {
    env.cves.Some? && env.cves.value.entries > 0 && service.name != "" && service.version != ""
  }

  /** The whole call: what it did, and its result unless an exception left it. */
  function Scan(env: Environment): Run {
    var start := [Acquire, ConnectScan];
    if env.state.None? then Run(start, None)
    else
      var state := env.state.value;
      var base := ScanResult(state, env.rtt, NO_SERVICE, []);
      var reported := start + [OnResponse(env.rtt, state.Filtered?)];
      if !state.Open? || env.probes.None? then Run(reported, Some(base))
      else if !env.resolves then Run(reported + [Resolve], Some(base))
      else if !env.connects then Run(reported + [Resolve, Connect(false)], Some(base))
      else
        var p := ProbeFrom(env, 0);
        var probed := reported + [Resolve, Connect(true)] + p.log;
        match p.verdict
        case Aborted => Run(probed, None)
        case Nothing => Run(probed + [Close], Some(base))
        case Found(_, service) =>
          var found := base.(service := service);
          if SearchesCves(env, service)
          then Run(probed + [Close, LookUp(service.name, service.version)],
                   Some(found.(cves := env.cves.value.lookup(service.name, service.version))))
          else Run(probed + [Close], Some(found))
  }

  /** The pipeline as it runs, overwriting its result and its socket step by step. */
  method ScanOne(env: Environment) returns (log: seq<Action>, result: Option<ScanResult>)
    ensures Run(log, result) == Scan(env)
  {
    log := [Acquire, ConnectScan];
    if env.state.None? {
      return log, None;
    }
    var base := ScanResult(env.state.value, env.rtt, NO_SERVICE, []);
    log := log + [OnResponse(env.rtt, base.state.Filtered?)];
    if !base.state.Open? || env.probes.None? {
      return log, Some(base);
    }
    log := log + [Resolve];
    if !env.resolves {
      return log, Some(base);
    }
    log := log + [Connect(env.connects)];
    if !env.connects {
      return log, Some(base);
    }
    ghost var before := log;
    assert before == [Acquire, ConnectScan] + [OnResponse(env.rtt, false)] + [Resolve, Connect(true)];
    var i := 0;
    while i < |env.probes.value|
      invariant i <= ProbeCount(env)
      invariant base == ScanResult(Open, env.rtt, NO_SERVICE, [])
      invariant before + ProbeFrom(env, 0).log == log + ProbeFrom(env, i).log
      invariant ProbeFrom(env, 0).verdict == ProbeFrom(env, i).verdict
    {
      ghost var before' := log;
      if Hinted(env.probes.value[i], env.port) {
        log := log + [Identify(i)];
        match env.identify(i) {
          case Throws =>
            return log, None;
          case Matched(service) =>
            base := base.(service := service);
            break;
          case Unmatched =>
            log := log + [Close] + [Connect(env.reconnects(i))];
            assert log == before' + Retry(i, env.reconnects(i));
            if !env.reconnects(i) {
              break;
            }
        }
      }
      i := i + 1;
    }
    ghost var p := ProbeFrom(env, 0);
    assert before + p.log == log;
    assert base == ScanResult(Open, env.rtt, if p.verdict.Found? then p.verdict.service else NO_SERVICE, []);
    log := log + [Close];
    if env.cves.Some? && env.cves.value.entries > 0 && base.service.name != "" && base.service.version != "" {
      log := log + [LookUp(base.service.name, base.service.version)];
      base := base.(cves := env.cves.value.lookup(base.service.name, base.service.version));
    }
    result := Some(base);
  }

  // ----- What every run does -----

  /** The loop gets to the hinted probe `k`: every hinted one before it did not match, and the socket
      could be reconnected after it. */
  predicate Reaches(env: Environment, from: nat, k: nat) {
    && from <= k && IsHinted(env, k)
    && forall j | from <= j < k && IsHinted(env, j) :: env.identify(j).Unmatched? && env.reconnects(j)
  }

  /** The probe names no ports, or this one. */
  predicate IsHinted(env: Environment, k: nat) {
    env.probes.Some? && k < |env.probes.value| && (|env.probes.value[k]| == 0 || env.port in env.probes.value[k])
  }

  /** Exactly the reached probes are tried, and the first of them that matches or throws decides. */
  lemma {:induction false} VerdictIsFirst(env: Environment, i: nat, k: nat)
    requires i <= ProbeCount(env)
    ensures var p := ProbeFrom(env, i); var v := p.verdict;
      && (Identify(k) in p.log <==> Reaches(env, i, k))
      && (v.Found? && v.probe == k <==> Reaches(env, i, k) && env.identify(k).Matched?)
      && (v.Found? && v.probe == k ==> env.identify(k) == Matched(v.service))
      && (Reaches(env, i, k) && env.identify(k).Throws? ==> v == Aborted)
    decreases ProbeCount(env) - i
  {
    if i < ProbeCount(env) {
      VerdictIsFirst(env, i + 1, k);
    }
  }

  predicate Probes(env: Environment) {
    env.state == Some(Open) && env.probes.Some? && env.resolves && env.connects
  }

  /** The reported service is that of the first hinted probe that matched, if the scan got that far,
      and there is none otherwise; a probe that throws before any match ends the call. */
  lemma {:induction false} ServiceIsFirstMatch(env: Environment, k: nat)
    ensures var r := Scan(env);
      && (Identify(k) in r.log <==> Probes(env) && Reaches(env, 0, k))
      && (Probes(env) && Reaches(env, 0, k) && env.identify(k).Matched? ==>
            r.result.Some? && Matched(r.result.value.service) == env.identify(k))
      && (Probes(env) && Reaches(env, 0, k) && env.identify(k).Throws? ==> r.result.None?)
      && (r.result.Some? && r.result.value.service != NO_SERVICE ==>
            exists m :: Probes(env) && Reaches(env, 0, m) && env.identify(m).Matched?)
  {
    VerdictIsFirst(env, 0, k);
    var v := ProbeFrom(env, 0).verdict;
    if v.Found? {
      VerdictIsFirst(env, 0, v.probe);
    }
  }

  /** What the call returns, in every environment: an exception exactly when connecting threw or a probe it
      reached did; otherwise the state and the time of the connect scan, no service unless a reached probe
      matched, and the database's answer exactly for a service with name and version. */
  lemma {:induction false} ResultInFull(env: Environment)
    ensures var r := Scan(env).result;
      && (r.None? <==> env.state.None? || exists k :: Probes(env) && Reaches(env, 0, k) && env.identify(k).Throws?)
      && (r.Some? ==> r.value.state == env.state.value && r.value.rtt == env.rtt)
      && (r.Some? && !(exists k :: Probes(env) && Reaches(env, 0, k) && env.identify(k).Matched?) ==>
            r.value.service == Service("", "", "", "", ""))
      && (r.Some? ==> var s := r.value.service;
            r.value.cves == if env.cves.Some? && env.cves.value.entries > 0 && s.name != "" && s.version != ""
                            then env.cves.value.lookup(s.name, s.version) else [])
  {
    if Probes(env) {
      VerdictHasCause(env, 0);
      forall k | Reaches(env, 0, k) && env.identify(k).Throws? ensures ProbeFrom(env, 0).verdict == Aborted {
        VerdictIsFirst(env, 0, k);
      }
    }
  }

  lemma {:induction false} VerdictHasCause(env: Environment, i: nat)
    requires i <= ProbeCount(env)
    ensures var v := ProbeFrom(env, i).verdict;
      && (v == Aborted ==> exists k :: Reaches(env, i, k) && env.identify(k).Throws?)
      && (v.Found? ==> Reaches(env, i, v.probe) && env.identify(v.probe) == Matched(v.service))
    decreases ProbeCount(env) - i
  {
    if i < ProbeCount(env) {
      VerdictHasCause(env, i + 1);
      var v := ProbeFrom(env, i).verdict;
      if !Tries(env, i) || (env.identify(i).Unmatched? && env.reconnects(i)) {
        if k :| Reaches(env, i + 1, k) && env.identify(k).Throws? {
          assert Reaches(env, i, k);
        }
        assert v.Found? ==> Reaches(env, i, v.probe);
      } else {
        assert Reaches(env, i, i);
      }
    }
  }

  /** Known vulnerabilities are only reported for an open port with a named and versioned service. */
  lemma {:induction false} CvesNeedVersionedService(env: Environment)
    ensures var r := Scan(env).result;
      r.Some? && r.value.cves != [] ==>
        && r.value.state.Open? && r.value.service.name != "" && r.value.service.version != ""
        && env.cves.Some? && r.value.cves == env.cves.value.lookup(r.value.service.name, r.value.service.version)
  {
  }

  predicate ProbeAction(a: Action) {
    a.Identify? || a.Close? || a.Connect?
  }

  lemma {:induction false} ProbeLogKinds(env: Environment, i: nat)
    requires i <= ProbeCount(env)
    ensures forall k | 0 <= k < |ProbeFrom(env, i).log| :: ProbeAction(ProbeFrom(env, i).log[k])
    decreases ProbeCount(env) - i
  {
    if i < ProbeCount(env) {
      ProbeLogKinds(env, i + 1);
    }
  }

  /** A token is taken once and first, the connect scan follows once, and its outcome is reported to the
      limiter exactly once, as a loss exactly when the port was filtered, unless it threw. */
  lemma {:induction false} OneTokenOneReport(env: Environment)
    ensures var log := Scan(env).log;
      && |log| >= 2 && log[0] == Acquire && log[1] == ConnectScan
      && (forall k | 0 <= k < |log| :: (log[k].Acquire? <==> k == 0) && (log[k].ConnectScan? <==> k == 1))
      && (forall k | 0 <= k < |log| :: log[k].OnResponse? <==> k == 2)
      && (env.state.Some? ==> |log| > 2 && log[2] == OnResponse(env.rtt, env.state == Some(Filtered)))
  {
    ProbeLogKinds(env, 0);
  }

  /** Number of connection attempts, the connect scan included. */
  function Attempts(log: seq<Action>): nat {
    if log == [] then 0 else Attempts(log[1..]) + Attempt(log[0])
  }

  function Attempt(a: Action): nat {
    if a.Connect? || a.ConnectScan? then 1 else 0
  }

  lemma {:induction false} AttemptsOfTwo(a: Action, b: Action)
    ensures Attempts([a]) == Attempt(a)
    ensures Attempts([a, b]) == Attempt(a) + Attempt(b)
  {
    AttemptsAdd([a], [b]);
    assert [a] + [b] == [a, b];
  }

  lemma {:induction false} AttemptsAdd(a: seq<Action>, b: seq<Action>)
    ensures Attempts(a + b) == Attempts(a) + Attempts(b)
  {
    if a == [] {
      assert a + b == b;
    } else {
      assert (a + b)[1..] == a[1..] + b;
      AttemptsAdd(a[1..], b);
    }
  }

  function TriedFrom(env: Environment, i: nat): set<nat> {
    set k | i <= k < ProbeCount(env) && Tries(env, k)
  }

  lemma {:induction false} RetryAttempts(i: nat, ok: bool)
    ensures Attempts(Retry(i, ok)) == 1
  {
    AttemptsOfTwo(Identify(i), Close);
    AttemptsOfTwo(Connect(ok), Close);
    AttemptsAdd([Identify(i), Close], [Connect(ok)]);
    assert [Identify(i), Close] + [Connect(ok)] == Retry(i, ok);
  }

  lemma {:induction false} ProbeAttempts(env: Environment, i: nat)
    requires i <= ProbeCount(env)
    ensures Attempts(ProbeFrom(env, i).log) <= |TriedFrom(env, i)|
    decreases ProbeCount(env) - i
  {
    if i < ProbeCount(env) {
      ProbeAttempts(env, i + 1);
      hide Attempts, Retry, Tries;
      if Tries(env, i) {
        assert TriedFrom(env, i) == TriedFrom(env, i + 1) + {i};
        AttemptsOfTwo(Identify(i), Close);
        RetryAttempts(i, env.reconnects(i));
        AttemptsAdd(Retry(i, env.reconnects(i)), ProbeFrom(env, i + 1).log);
      } else {
        assert TriedFrom(env, i) == TriedFrom(env, i + 1);
      }
    }
  }

  /** At most two connection attempts plus one per hinted probe. */
  lemma {:induction false} AttemptsAreBounded(env: Environment)
    ensures Attempts(Scan(env).log) <= 2 + |TriedFrom(env, 0)|
  {
    var loss := env.state == Some(Filtered);
    var head := [Acquire, ConnectScan] + [OnResponse(env.rtt, loss)];
    AttemptsOfTwo(Acquire, ConnectScan);
    AttemptsOfTwo(OnResponse(env.rtt, loss), Close);
    AttemptsOfTwo(Resolve, Connect(env.connects));
    AttemptsAdd([Acquire, ConnectScan], [OnResponse(env.rtt, loss)]);
    AttemptsAdd(head, [Resolve]);
    AttemptsAdd(head, [Resolve, Connect(env.connects)]);
    if Probes(env) {
      var p := ProbeFrom(env, 0);
      var before := head + [Resolve, Connect(true)];
      ProbeAttempts(env, 0);
      AttemptsAdd(before, p.log);
      AttemptsAdd(before + p.log, [Close]);
      AttemptsOfTwo(Close, Close);
      if p.verdict.Found? {
        AttemptsOfTwo(Close, LookUp(p.verdict.service.name, p.verdict.service.version));
        AttemptsAdd(before + p.log, [Close, LookUp(p.verdict.service.name, p.verdict.service.version)]);
      }
    }
  }

  /** What may come right after what. */
  predicate Follows(a: Action, b: Action) {
    match b
    case Acquire => false
    case ConnectScan => a.Acquire?
    case OnResponse(_, _) => a.ConnectScan?
    case Resolve => a.OnResponse?
    case Connect(_) => a.Resolve? || a.Close?
    case Identify(_) => a == Connect(true)
    case Close => a.Identify? || a.Connect?
    case LookUp(_, _) => a.Close?
  }

  /** A log that may come after the action `first`. */
  predicate Linked(first: Action, log: seq<Action>) {
    forall k | 0 <= k < |log| :: Follows(Before(first, log, k), log[k])
  }

  function Before(first: Action, log: seq<Action>, k: nat): Action
    requires k < |log|
  {
    if k == 0 then first else log[k - 1]
  }

  function Final(first: Action, log: seq<Action>): Action {
    if log == [] then first else log[|log| - 1]
  }

  lemma {:induction false} LinkedAdd(first: Action, a: seq<Action>, b: seq<Action>)
    requires Linked(first, a) && Linked(Final(first, a), b)
    ensures Linked(first, a + b) && Final(first, a + b) == Final(Final(first, a), b)
  {
    hide Follows;
    var log := a + b;
    forall k | 0 <= k < |log| ensures Follows(Before(first, log, k), log[k]) {
      if k < |a| {
        assert Before(first, log, k) == Before(first, a, k);
      } else {
        assert Before(first, log, k) == Before(Final(first, a), b, k - |a|);
      }
    }
  }

  lemma {:induction false} ProbesFollowConnects(env: Environment, i: nat)
    requires i <= ProbeCount(env)
    ensures var log := ProbeFrom(env, i).log; var last := Final(Connect(true), log);
      Linked(Connect(true), log) && (last.Connect? || last.Identify?)
    decreases ProbeCount(env) - i
  {
    if i < ProbeCount(env) {
      ProbesFollowConnects(env, i + 1);
      RetryFollows(i, env.reconnects(i));
      hide Linked, Retry, Tries, Final;
      if env.reconnects(i) {
        LinkedAdd(Connect(true), Retry(i, true), ProbeFrom(env, i + 1).log);
      }
    }
  }

  lemma {:induction false} RetryFollows(i: nat, ok: bool)
    ensures Linked(Connect(true), Retry(i, ok)) && Final(Connect(true), Retry(i, ok)) == Connect(ok)
    ensures Linked(Connect(true), [Identify(i)]) && Final(Connect(true), [Identify(i)]) == Identify(i)
    ensures Linked(Connect(true), []) && Final(Connect(true), []) == Connect(true)
  {
  }

  /** Actions come in the order of the protocol: every probe right after a connect that succeeded, every
      reconnect right after a close. Whenever probing ends without an exception, the socket is closed, and
      only then is the database asked. */
  lemma {:induction false} ActionsFollow(env: Environment)
    ensures var log := Scan(env).log;
      && |log| > 0 && log[0] == Acquire && Linked(log[0], log[1..])
      && (Probes(env) && Scan(env).result.Some? ==> var n := |log| - 1;
            log[n].Close? || (log[n].LookUp? && log[n - 1].Close?))
  {
    if Probes(env) {
      var tail := ProbingLog(env);
      hide *;
      var p := ProbeFrom(env, 0);
      var head := [ConnectScan, OnResponse(env.rtt, false), Resolve, Connect(true)];
      HeadFollows(env.rtt);
      ProbesFollowConnects(env, 0);
      LinkedAdd(Acquire, head, p.log);
      TailFollows(Final(Connect(true), p.log), tail);
      LinkedAdd(Acquire, head + p.log, tail);
      assert Scan(env).log[1..] == head + p.log + tail;
    }
  }

  /** What comes after the probes. */
  predicate Ending(tail: seq<Action>) {
    tail == [] || tail == [Close] || (|tail| == 2 && tail[0].Close? && tail[1].LookUp?)
  }

  lemma {:induction false} ProbingLog(env: Environment) returns (tail: seq<Action>)
    requires Probes(env)
    ensures Ending(tail) && (tail == [] <==> Scan(env).result.None?)
    ensures Scan(env).log
         == [Acquire] + ([ConnectScan, OnResponse(env.rtt, false), Resolve, Connect(true)]
                         + ProbeFrom(env, 0).log + tail)
  {
    hide ProbeFrom;
    var v := ProbeFrom(env, 0).verdict;
    tail := if v == Aborted then []
            else if v.Found? && SearchesCves(env, v.service) then [Close, LookUp(v.service.name, v.service.version)]
            else [Close];
    assert [Acquire, ConnectScan] + [OnResponse(env.rtt, false)] + [Resolve, Connect(true)]
        == [Acquire] + [ConnectScan, OnResponse(env.rtt, false), Resolve, Connect(true)];
  }

  lemma {:induction false} HeadFollows(rtt: int)
    ensures var head := [ConnectScan, OnResponse(rtt, false), Resolve, Connect(true)];
      Linked(Acquire, head) && Final(Acquire, head) == Connect(true)
  {
  }

  lemma {:induction false} TailFollows(last: Action, tail: seq<Action>)
    requires Ending(tail) && (last.Connect? || last.Identify?)
    ensures Linked(last, tail)
  {
  }

  /** Every probe runs on a connection of its own, made by the action right before it. */
  lemma {:induction false} EachProbeHasItsConnection(env: Environment)
    ensures var log := Scan(env).log;
      forall k | 0 <= k < |log| && log[k].Identify? :: k > 0 && log[k - 1] == Connect(true)
  {
    ActionsFollow(env);
    var log := Scan(env).log;
    hide Scan;
    forall k | 0 <= k < |log| && log[k].Identify? ensures k > 0 && log[k - 1] == Connect(true) {
      assert k > 0 && log[k] == log[1..][k - 1];
      assert Follows(Before(log[0], log[1..], k - 1), log[1..][k - 1]);
    }
  }
}
