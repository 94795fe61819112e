/** The two-thread run protocol of the scan controller: the UI thread that starts, cancels, destroys
    and receives events, and the worker threads it spawns. One action is one shared access, one queued
    post, or one stretch of a thread's private work; any interleaving is allowed. */
module ScanController {
  import opened Prelude

  datatype Event = ResultReady(future: nat) | Progress(done: nat, total: nat) | Finished

  /** Where the UI thread stands: in the event loop, or inside `startScan` or the destructor. */
  datatype Ui =
    | InLoop
    | Won(ports: nat)
    | Cleared(ports: nat)
    | Joined(ports: nat)
    | Closing
    | Destroyed

  /** Where a worker stands inside `runScan`, or after it. It is `Collecting` before it looks at the
      cancel flag, and `Holding` from then on, blocked on the future, until it has queued the result or
      caught the exception. */
  datatype Point =
    | Starting
    | Spawning(spawned: nat)
    | Collecting(done: nat, total: nat)
    | Holding(done: nat, total: nat)
    | Counting(done: nat, total: nat, posted: bool)
    | Finishing
    | Releasing
    | Exited

  datatype Worker = Worker(ports: nat, at: Point)

  /** `worker_` is the joinable thread handle; `posted` is everything the bridge ever queued for the UI
      thread, of which the first `delivered` events have been handled. `stranded` records that a start
      threw after winning the flag. */
  datatype Controller = Controller(
    running: bool, cancel: bool, ui: Ui, workers: seq<Worker>, worker_: Option<nat>,
    posted: seq<Event>, delivered: nat, rejected: nat, stranded: bool)

  /** How the environment lets a worker's next piece of work end. */
  datatype Outcome = Fine | NoResult | Throws

  datatype Action =
    | StartScan(ports: nat)
    | CancelScan
    | Destroy
    | UiStep
    | SpawnThrows
    | Deliver
    | WorkerStep(w: nat, outcome: Outcome)

  const INITIAL := Controller(false, false, InLoop, [], None, [], 0, 0, false)

  predicate HandleDone(s: Controller) {
    s.worker_.Some? ==> s.worker_.value < |s.workers| && s.workers[s.worker_.value].at.Exited?
  }

  function UiStepped(s: Controller): Controller {
    match s.ui
    case Won(p) => s.(cancel := false, ui := Cleared(p))
    case Cleared(p) => if HandleDone(s) then s.(worker_ := None, ui := Joined(p)) else s
    case Joined(p) =>
      s.(workers := s.workers + [Worker(p, Starting)], worker_ := Some(|s.workers|), ui := InLoop)
    case Closing => if HandleDone(s) then s.(worker_ := None, ui := Destroyed) else s
    case _ => s
  }

  /** Where a worker goes next. Everything from the pool setup to `pool.stop` sits inside the outer
      try block, whose handler continues at the finished post. */
  function PointAfter(at: Point, ports: nat, cancel: bool, outcome: Outcome): Point {
    match at
    case Starting => if outcome.Throws? then Finishing else Spawning(0)
    case Spawning(n) =>
      if outcome.Throws? then Finishing
      else if n == ports || cancel then Collecting(0, n)
      else Spawning(n + 1)
    case Collecting(done, total) =>
      if done == total || cancel then Finishing else Holding(done, total)
    case Holding(done, total) => Counting(done, total, outcome.Fine?)
    case Counting(done, total, _) => Collecting(done + 1, total)
    case Finishing => Releasing
    case Releasing => Exited
    case Exited => Exited
  }

  /** What the step queues for the UI thread. */
  function Queued(at: Point, outcome: Outcome): seq<Event> {
    match at
    case Holding(done, _) => if outcome.Fine? then [ResultReady(done)] else []
    case Counting(done, total, _) => [Progress(done + 1, total)]
    case Finishing => [Finished]
    case _ => []
  }

  /** One step of `runScan`, or of the thread body after it. */
  function WorkerStepped(s: Controller, w: nat, outcome: Outcome): Controller
    requires w < |s.workers|
  {
    var worker := s.workers[w];
    s.(workers := s.workers[w := Worker(worker.ports, PointAfter(worker.at, worker.ports, s.cancel, outcome))],
       posted := s.posted + Queued(worker.at, outcome),
       running := s.running && !worker.at.Releasing?)
  }

  /** The effect of one action; one that is not possible changes nothing. */
  function Apply(s: Controller, a: Action): Controller {
    match a
    case StartScan(p) =>
      if !s.ui.InLoop? then s
      else if s.running then s.(rejected := s.rejected + 1)
      else s.(running := true, ui := Won(p))
    case CancelScan => if s.ui.InLoop? then s.(cancel := true) else s
    case Destroy => if s.ui.InLoop? then s.(cancel := true, ui := Closing) else s
    case UiStep => UiStepped(s)
    case SpawnThrows => if s.ui.Joined? then s.(ui := InLoop, stranded := true) else s
    case Deliver => if s.ui.InLoop? && s.delivered < |s.posted| then s.(delivered := s.delivered + 1) else s
    case WorkerStep(w, outcome) => if w < |s.workers| then WorkerStepped(s, w, outcome) else s
  }

  function Execute(s: Controller, acts: seq<Action>): Controller {
    if acts == [] then s else Apply(Execute(s, acts[..|acts| - 1]), acts[|acts| - 1])
  }

  // ----- At most one scan -----

  predicate Starts(ui: Ui) {
    ui.Won? || ui.Cleared? || ui.Joined?
  }

  predicate Busy(s: Controller, w: nat) {
    w < |s.workers| && !s.workers[w].at.Exited?
  }

  predicate Exclusive(s: Controller) {
    var n := |s.workers|;
    && (forall w | 0 <= w < n - 1 :: s.workers[w].at.Exited?)
    && (s.running <==> Starts(s.ui) || (n > 0 && Busy(s, n - 1)) || s.stranded)
    && (s.stranded ==> !Starts(s.ui))
    && (Starts(s.ui) || s.ui.Destroyed? || s.stranded ==> forall w | 0 <= w < n :: s.workers[w].at.Exited?)
    && s.worker_ == (if n == 0 || s.ui.Joined? || s.ui.Destroyed? || s.stranded then None else Some(n - 1))
    && s.delivered <= |s.posted|
  }

  lemma {:induction false} ExclusiveStep(s: Controller, a: Action)
    requires Exclusive(s)
    ensures Exclusive(Apply(s, a))
  {
  }

  lemma {:induction false} StaysExclusive(acts: seq<Action>)
    ensures Exclusive(Execute(INITIAL, acts))
    decreases |acts|
  {
    if acts != [] {
      StaysExclusive(acts[..|acts| - 1]);
      ExclusiveStep(Execute(INITIAL, acts[..|acts| - 1]), acts[|acts| - 1]);
    }
  }

  /** In every interleaving at most one worker is anywhere before its exit, a start wins the
      compare-and-swap exactly when no worker is and no earlier start threw after winning it, and after
      destruction none is. */
  lemma {:induction false} AtMostOneScan(acts: seq<Action>, ports: nat)
    ensures var s := Execute(INITIAL, acts); var t := Apply(s, StartScan(ports));
      && (forall v, w :: Busy(s, v) && Busy(s, w) ==> v == w)
      && (s.ui.InLoop? ==> (t.ui == Won(ports) <==> !s.stranded && forall w :: !Busy(s, w)))
      && (Starts(s.ui) ==> forall w :: !Busy(s, w))
      && (s.ui.Destroyed? ==> forall w :: !Busy(s, w))
  {
    StaysExclusive(acts);
    var s := Execute(INITIAL, acts);
    var n := |s.workers|;
    assert s.running && s.ui.InLoop? && !s.stranded ==> Busy(s, n - 1);
    assert forall w | Busy(s, w) :: w == n - 1;
  }

  /** A start that throws after winning the flag leaves it set for good: whatever happens afterwards,
      every further start is refused, no worker runs and nothing is queued. */
  lemma {:induction false} ThrownStartIsFinal(acts: seq<Action>, more: seq<Action>, ports: nat)
    requires Execute(INITIAL, acts).stranded
    ensures var s := Execute(INITIAL, acts); var t := Execute(s, more);
      && Stranded(t) && t.workers == s.workers && t.posted == s.posted
      && (t.ui.InLoop? ==> Apply(t, StartScan(ports)) == t.(rejected := t.rejected + 1))
    decreases |more|
  {
    StaysExclusive(acts);
    if more != [] {
      ThrownStartIsFinal(acts, more[..|more| - 1], ports);
      StrandedStep(Execute(Execute(INITIAL, acts), more[..|more| - 1]), more[|more| - 1]);
    }
  }

  predicate Stranded(s: Controller) {
    s.stranded && s.running && !Starts(s.ui) && forall w | 0 <= w < |s.workers| :: s.workers[w].at.Exited?
  }

  lemma {:induction false} StrandedStep(s: Controller, a: Action)
    requires Stranded(s)
    ensures var t := Apply(s, a); Stranded(t) && t.workers == s.workers && t.posted == s.posted
  {
    if a.WorkerStep? && a.w < |s.workers| {
      assert s.workers[a.w].at.Exited?;
      assert Apply(s, a) == s;
    }
  }

  /** A start issued right after the finished event was handled can still be refused, because the
      event is queued before the running flag is cleared. */
  lemma {:induction false} RestartOnFinishedCanFail()
    ensures exists acts :: var s := Execute(INITIAL, acts);
      && s.ui.InLoop? && s.posted == [Finished] && s.delivered == 1 && s.rejected == 0
      && Apply(s, StartScan(0)).rejected == 1
  {
    hide Execute;
    var work := WorkerStep(0, Fine);
    var s := Controller(true, false, InLoop, [Worker(0, Starting)], Some(0), [], 0, 0, false);
    var begun := Begun(0);
    ExecuteMore(begun, work);
    assert Apply(s, work) == s.(workers := [Worker(0, Spawning(0))]);
    ExecuteMore(begun + [work], work);
    var s2 := s.(workers := [Worker(0, Collecting(0, 0))]);
    assert Apply(s.(workers := [Worker(0, Spawning(0))]), work) == s2;
    var collecting := begun + [work] + [work];
    ExecuteMore(collecting, work);
    var s3 := s.(workers := [Worker(0, Finishing)]);
    assert Apply(s2, work) == s3;
    ExecuteMore(collecting + [work], work);
    var s4 := s.(workers := [Worker(0, Releasing)], posted := [Finished]);
    assert Apply(s3, work) == s4;
    ExecuteMore(collecting + [work] + [work], Deliver);
    assert Apply(s4, Deliver) == s4.(delivered := 1);
  }

  /** The UI thread starts a scan. */
  lemma {:induction false} Begun(ports: nat) returns (acts: seq<Action>)
    ensures Execute(INITIAL, acts)
         == Controller(true, false, InLoop, [Worker(ports, Starting)], Some(0), [], 0, 0, false)
  {
    assert Execute(INITIAL, []) == INITIAL;
    UiSteps(ports);
    hide Execute, Apply;
    ExecuteMore([], StartScan(ports));
    acts := [] + [StartScan(ports)];
    ExecuteMore(acts, UiStep);
    acts := acts + [UiStep];
    ExecuteMore(acts, UiStep);
    acts := acts + [UiStep];
    ExecuteMore(acts, UiStep);
    acts := acts + [UiStep];
  }

  lemma {:induction false} UiSteps(ports: nat)
    ensures var won := INITIAL.(running := true, ui := Won(ports)); var worker := Worker(ports, Starting);
      && Apply(INITIAL, StartScan(ports)) == won
      && Apply(won, UiStep) == won.(ui := Cleared(ports))
      && Apply(won.(ui := Cleared(ports)), UiStep) == won.(ui := Joined(ports))
      && Apply(won.(ui := Joined(ports)), UiStep) == won.(ui := InLoop, workers := [worker], worker_ := Some(0))
  {
  }

  lemma {:induction false} ExecuteMore(acts: seq<Action>, a: Action)
    ensures Execute(INITIAL, acts + [a]) == Apply(Execute(INITIAL, acts), a)
  {
    assert (acts + [a])[..|acts|] == acts;
  }

  // ----- The event trace -----

  /** What one scan queued: for each collected future, whether it had a result to post. */
  datatype Block = Block(results: seq<bool>, total: nat)

  function Collected(future: nat, hasResult: bool, total: nat): seq<Event> {
    (if hasResult then [ResultReady(future)] else []) + [Progress(future + 1, total)]
  }

  function BlockEvents(b: Block): seq<Event>
    decreases |b.results|
  {
    if b.results == [] then []
    else
      var n := |b.results| - 1;
      BlockEvents(Block(b.results[..n], b.total)) + Collected(n, b.results[n], b.total)
  }

  /** Completed scans, oldest first: blocks (result? progress)* finished. */
  function Log(blocks: seq<Block>): seq<Event> {
    if blocks == [] then []
    else Log(blocks[..|blocks| - 1]) + BlockEvents(blocks[|blocks| - 1]) + [Finished]
  }

  /** A worker that has not yet queued its finished event. */
  predicate Unwritten(at: Point) {
    !at.Releasing? && !at.Exited?
  }

  function FinishedScans(s: Controller): nat {
    if s.workers != [] && Unwritten(s.workers[|s.workers| - 1].at) then |s.workers| - 1 else |s.workers|
  }

  /** The unfinished block agrees with where the last worker stands. */
  predicate OpenFits(at: Point, ports: nat, open: Block) {
    match at
    case Collecting(done, total) => |open.results| == done <= total == open.total <= ports
    case Holding(done, total) => |open.results| == done < total == open.total <= ports
    case Counting(done, total, _) => |open.results| == done < total == open.total <= ports
    case Spawning(n) => open.results == [] && n <= ports
    case Finishing => |open.results| <= open.total <= ports
    case _ => open.results == []
  }

  /** The part of the running scan: its block, and a result whose progress is still to come. */
  function OpenEvents(at: Point, open: Block): seq<Event> {
    BlockEvents(open) + match at
      case Counting(done, _, true) => [ResultReady(done)]
      case _ => []
  }

  function LastPoint(s: Controller): Point {
    if s.workers == [] then Exited else s.workers[|s.workers| - 1].at
  }

  predicate Fits(s: Controller, blocks: seq<Block>, open: Block) {
    && |blocks| == FinishedScans(s)
    && (forall i | 0 <= i < |blocks| :: |blocks[i].results| <= blocks[i].total <= s.workers[i].ports)
    && OpenFits(LastPoint(s), if s.workers == [] then 0 else s.workers[|s.workers| - 1].ports, open)
    && s.posted == Log(blocks) + OpenEvents(LastPoint(s), open)
  }

  // ----- What an observer of the actions knows of each scan -----

  /** The number of ports asked for, whether the scan was cancelled or disturbed before its finished event,
      and for each future collected so far whether it had a result. */
  datatype Observed = Observed(ports: nat, disturbed: bool, got: seq<bool>)

  /** The ports of the last start that was let through. */
  function Wanted(acts: seq<Action>): nat {
    if acts == [] then 0
    else
      var front, a := acts[..|acts| - 1], acts[|acts| - 1];
      var s := Execute(INITIAL, front);
      if a.StartScan? && s.ui.InLoop? && !s.running then a.ports else Wanted(front)
  }

  /** A cancellation, the destructor, or an exception outside the futures. */
  predicate Disturbs(s: Controller, a: Action) {
    match a
    case CancelScan => s.ui.InLoop?
    case Destroy => s.ui.InLoop?
    case WorkerStep(w, outcome) =>
      w == |s.workers| - 1 && outcome.Throws? && (LastPoint(s).Starting? || LastPoint(s).Spawning?)
    case _ => false
  }

  function Noted(seen: seq<Observed>, s: Controller, a: Action, wanted: nat): seq<Observed> {
    var n := |seen| - 1;
    if a.UiStep? && s.ui.Joined? then seen + [Observed(wanted, false, [])]
    else if n < 0 || !Unwritten(LastPoint(s)) then seen
    else if a.WorkerStep? && a.w == n && LastPoint(s).Holding?
    then seen[n := seen[n].(got := seen[n].got + [a.outcome.Fine?])]
    else if Disturbs(s, a) then seen[n := seen[n].(disturbed := true)]
    else seen
  }

  /** One entry per worker spawned. */
  function Observe(acts: seq<Action>): seq<Observed> {
    if acts == [] then []
    else
      var front := acts[..|acts| - 1];
      Noted(Observe(front), Execute(INITIAL, front), acts[|acts| - 1], Wanted(front))
  }

  /** The running scan is on its way to collecting all its ports. */
  predicate OnCourse(at: Point, ports: nat, open: Block) {
    match at
    case Collecting(_, total) => total == ports
    case Holding(_, total) => total == ports
    case Counting(_, total, _) => total == ports
    case Finishing => |open.results| == open.total == ports
    case _ => true
  }

  function GotSoFar(at: Point, open: Block): seq<bool> {
    match at
    case Counting(_, _, posted) => open.results + [posted]
    case _ => open.results
  }

  /** A finished block tells the results observed, and all of them for an undisturbed scan. */
  predicate Tells(b: Block, o: Observed) {
    b.results == o.got && (!o.disturbed ==> |b.results| == b.total == o.ports)
  }

  predicate Told(blocks: seq<Block>, seen: seq<Observed>) {
    |blocks| <= |seen| && forall i | 0 <= i < |blocks| :: Tells(blocks[i], seen[i])
  }

  predicate RunningAgrees(at: Point, cancel: bool, o: Observed, open: Block) {
    o.got == GotSoFar(at, open) && (!o.disturbed ==> !cancel && OnCourse(at, o.ports, open))
  }

  predicate Agrees(s: Controller, seen: seq<Observed>, blocks: seq<Block>, open: Block) {
    && |seen| == |s.workers| && Told(blocks, seen)
    && (forall i | 0 <= i < |seen| :: seen[i].ports == s.workers[i].ports)
    && (s.workers != [] && Unwritten(LastPoint(s)) ==>
          RunningAgrees(LastPoint(s), s.cancel, seen[|seen| - 1], open))
  }

  /** The cancel flag is down while a worker is about to be spawned, and up once the destructor runs. */
  predicate FlagFits(s: Controller, wanted: nat) {
    && (s.ui.Cleared? || s.ui.Joined? ==> !s.cancel)
    && (s.ui.Closing? || s.ui.Destroyed? ==> s.cancel)
    && (Starts(s.ui) ==> s.ui.ports == wanted)
  }

  lemma {:induction false} FlagStays(acts: seq<Action>)
    ensures FlagFits(Execute(INITIAL, acts), Wanted(acts))
    decreases |acts|
  {
    if acts != [] {
      FlagStays(acts[..|acts| - 1]);
    }
  }

  /** A worker is always spawned with the cancel flag down, whatever was cancelled before, and for the
      ports of the start that spawned it; a cancellation in the event loop puts the flag up, and so does
      the destructor, which keeps it up. */
  lemma {:induction false} FlagProtocol(acts: seq<Action>)
    ensures var s := Execute(INITIAL, acts);
      && (s.ui.Joined? ==> var t := Apply(s, UiStep);
            !t.cancel && t.workers == s.workers + [Worker(Wanted(acts), Starting)] && t.ui.InLoop?)
      && (s.ui.InLoop? ==> Apply(s, CancelScan) == s.(cancel := true))
      && (s.ui.InLoop? ==> Apply(s, Destroy) == s.(cancel := true, ui := Closing))
      && (s.ui.Closing? || s.ui.Destroyed? ==> s.cancel)
  {
    FlagStays(acts);
  }

  lemma {:induction false} BlockGrows(b: Block, hasResult: bool)
    ensures BlockEvents(Block(b.results + [hasResult], b.total))
         == BlockEvents(b) + Collected(|b.results|, hasResult, b.total)
  {
    assert (b.results + [hasResult])[..|b.results|] == b.results;
    assert Block(b.results, b.total) == b;
  }

  lemma {:induction false} LogGrows(blocks: seq<Block>, b: Block)
    ensures Log(blocks + [b]) == Log(blocks) + BlockEvents(b) + [Finished]
  {
    assert (blocks + [b])[..|blocks|] == blocks;
  }

  /** What the next step of a worker does to the block it is writing. */
  function OpenAfter(at: Point, open: Block): Block {
    match at
    case Spawning(n) => Block([], n)
    case Counting(_, total, posted) => Block(open.results + [posted], total)
    case Collecting(_, _) => open
    case Holding(_, _) => open
    case _ => Block([], 0)
  }

  lemma {:induction false} OpenStep(at: Point, ports: nat, cancel: bool, outcome: Outcome, open: Block)
    requires OpenFits(at, ports, open)
    ensures var at' := PointAfter(at, ports, cancel, outcome); var open' := OpenAfter(at, open);
      && OpenFits(at', ports, open')
      && OpenEvents(at', open') == (if at.Finishing? then [] else OpenEvents(at, open) + Queued(at, outcome))
      && (at.Finishing? ==> OpenEvents(at, open) + Queued(at, outcome) == BlockEvents(open) + [Finished])
      && (at.Finishing? ==> |open.results| <= open.total <= ports)
      && (at.Finishing? && OnCourse(at, ports, open) ==> |open.results| == open.total == ports)
      && (OnCourse(at, ports, open) && !cancel && !(outcome.Throws? && (at.Starting? || at.Spawning?))
          ==> OnCourse(at', ports, open'))
      && (Unwritten(at') <==> Unwritten(at) && !at.Finishing?)
      && (Unwritten(at') ==>
            GotSoFar(at', open') == GotSoFar(at, open) + if at.Holding? then [outcome.Fine?] else [])
      && (at.Finishing? ==> GotSoFar(at, open) == open.results)
  {
    if at.Counting? {
      BlockGrows(open, at.posted);
    }
  }

  lemma {:induction false} FitsStep(s: Controller, a: Action, wanted: nat, seen: seq<Observed>,
                                    blocks: seq<Block>, open: Block)
    returns (blocks': seq<Block>, open': Block)
    requires Exclusive(s) && FlagFits(s, wanted) && Fits(s, blocks, open) && Agrees(s, seen, blocks, open)
    ensures Fits(Apply(s, a), blocks', open') && Agrees(Apply(s, a), Noted(seen, s, a, wanted), blocks', open')
  {
    hide Fits, Agrees, Exclusive, FlagFits, Noted, UiStepped, WorkerStepped;
    blocks', open' := blocks, open;
    var n := |s.workers|;
    if a.UiStep? && s.ui.Joined? {
      open' := Block([], 0);
      FitsSpawn(s, wanted, seen, blocks, open);
    } else if a.WorkerStep? && a.w == n - 1 {
      blocks', open' := FitsWorkerStep(s, a.outcome, wanted, seen, blocks, open);
    } else {
      OtherActions(s, a);
      FitsFrame(s, a, wanted, seen, blocks, open);
    }
  }

  lemma {:induction false} OtherActions(s: Controller, a: Action)
    requires Exclusive(s) && !(a.UiStep? && s.ui.Joined?) && !(a.WorkerStep? && a.w == |s.workers| - 1)
    ensures var t := Apply(s, a);
      t.workers == s.workers && t.posted == s.posted && (t.cancel && !s.cancel ==> Disturbs(s, a))
  {
    if a.WorkerStep? && a.w < |s.workers| {
      assert s.workers[a.w].at.Exited?;
    }
  }

  lemma {:induction false} FitsFrame(s: Controller, a: Action, wanted: nat, seen: seq<Observed>,
                                     blocks: seq<Block>, open: Block)
    requires Fits(s, blocks, open) && Agrees(s, seen, blocks, open)
    requires !(a.UiStep? && s.ui.Joined?) && !(a.WorkerStep? && a.w == |s.workers| - 1)
    requires var t := Apply(s, a);
      t.workers == s.workers && t.posted == s.posted && (t.cancel && !s.cancel ==> Disturbs(s, a))
    ensures var t := Apply(s, a);
      Fits(t, blocks, open) && Agrees(t, Noted(seen, s, a, wanted), blocks, open)
  {
    hide Apply, Log, OpenEvents, OpenFits, OnCourse, GotSoFar;
    BlocksBeforeOpen(s, blocks, open);
  }

  lemma {:induction false} BlocksBeforeOpen(s: Controller, blocks: seq<Block>, open: Block)
    requires Fits(s, blocks, open)
    ensures s.workers != [] && Unwritten(LastPoint(s)) ==> |blocks| == |s.workers| - 1
    ensures s.workers != [] ==> OpenFits(LastPoint(s), s.workers[|s.workers| - 1].ports, open)
  {
  }

  lemma {:induction false} FitsSpawn(s: Controller, wanted: nat, seen: seq<Observed>, blocks: seq<Block>, open: Block)
    requires Exclusive(s) && FlagFits(s, wanted) && s.ui.Joined?
    requires Fits(s, blocks, open) && Agrees(s, seen, blocks, open)
    ensures Fits(UiStepped(s), blocks, Block([], 0))
    ensures Agrees(UiStepped(s), Noted(seen, s, UiStep, wanted), blocks, Block([], 0))
  {
    assert FinishedScans(s) == |s.workers|;
    var t := UiStepped(s);
    assert t.workers == s.workers + [Worker(s.ui.ports, Starting)] && t.posted == s.posted && !t.cancel;
    assert FinishedScans(t) == |s.workers|;
    hide UiStepped, Exclusive, OnCourse, BlockEvents;
    FreshWorker(s.ui.ports);
    OpenNone(s, open);
    hide Log, OpenEvents, OpenFits, RunningAgrees, Tells;
  }

  lemma {:induction false} FreshWorker(ports: nat)
    ensures OpenFits(Starting, ports, Block([], 0)) && OpenEvents(Starting, Block([], 0)) == []
    ensures RunningAgrees(Starting, false, Observed(ports, false, []), Block([], 0))
  {
  }

  lemma {:induction false} OpenNone(s: Controller, open: Block)
    requires OpenFits(LastPoint(s), if s.workers == [] then 0 else s.workers[|s.workers| - 1].ports, open)
    requires LastPoint(s).Exited?
    ensures OpenEvents(LastPoint(s), open) == []
  {
  }

  lemma {:induction false} FitsWorkerStep(s: Controller, outcome: Outcome, wanted: nat, seen: seq<Observed>,
                                          blocks: seq<Block>, open: Block)
    returns (blocks': seq<Block>, open': Block)
    requires s.workers != [] && Fits(s, blocks, open) && Agrees(s, seen, blocks, open)
    ensures var last := |s.workers| - 1; var t := WorkerStepped(s, last, outcome);
      && Fits(t, blocks', open')
      && Agrees(t, Noted(seen, s, WorkerStep(last, outcome), wanted), blocks', open')
  {
    var worker := s.workers[|s.workers| - 1];
    OpenStep(worker.at, worker.ports, s.cancel, outcome, open);
    open' := OpenAfter(worker.at, open);
    blocks' := if worker.at.Finishing? then blocks + [open] else blocks;
    FitsAfterWork(s, outcome, blocks, open, blocks', open');
    AgreesAfterWork(s, outcome, wanted, seen, blocks, open, blocks', open');
    hide Fits, Agrees, WorkerStepped, Noted;
  }

  lemma {:induction false} FitsAfterWork(s: Controller, outcome: Outcome, blocks: seq<Block>, open: Block,
                                         blocks': seq<Block>, open': Block)
    requires s.workers != [] && Fits(s, blocks, open)
    requires open' == OpenAfter(LastPoint(s), open)
    requires blocks' == if LastPoint(s).Finishing? then blocks + [open] else blocks
    ensures Fits(WorkerStepped(s, |s.workers| - 1, outcome), blocks', open')
  {
    var last := |s.workers| - 1;
    var at, ports := s.workers[last].at, s.workers[last].ports;
    hide *;
    FitsFacts(s, blocks, open);
    WorkKeepsOthers(s, outcome);
    OpenStep(at, ports, s.cancel, outcome, open);
    UnwrittenStep(at, ports, s.cancel, outcome, open);
    WorkLog(s, outcome, blocks, open);
    FitsFrom(s, WorkerStepped(s, last, outcome), blocks, blocks', open');
  }

  lemma {:induction false} FitsFacts(s: Controller, blocks: seq<Block>, open: Block)
    requires s.workers != [] && Fits(s, blocks, open)
    ensures var last := |s.workers| - 1; var at := s.workers[last].at;
      && LastPoint(s) == at && |blocks| == (if Unwritten(at) then last else last + 1)
      && (forall i | 0 <= i < |blocks| :: |blocks[i].results| <= blocks[i].total <= s.workers[i].ports)
      && OpenFits(at, s.workers[last].ports, open)
      && s.posted == Log(blocks) + OpenEvents(at, open)
      && (at.Finishing? ==> Unwritten(at))
  {
  }

  lemma {:induction false} FitsFrom(s: Controller, t: Controller, blocks: seq<Block>, blocks': seq<Block>, open': Block)
    requires s.workers != [] && |t.workers| == |s.workers|
    requires var last := |s.workers| - 1;
      && |blocks'| == (if Unwritten(LastPoint(t)) then last else last + 1)
      && OpenFits(LastPoint(t), s.workers[last].ports, open')
    requires forall i | 0 <= i < |s.workers| :: t.workers[i].ports == s.workers[i].ports
    requires forall i | 0 <= i < |blocks'| :: |blocks'[i].results| <= blocks'[i].total <= s.workers[i].ports
    requires t.posted == Log(blocks') + OpenEvents(LastPoint(t), open')
    ensures Fits(t, blocks', open')
  {
  }

  lemma {:induction false} WorkLog(s: Controller, outcome: Outcome, blocks: seq<Block>, open: Block)
    requires s.workers != [] && s.posted == Log(blocks) + OpenEvents(LastPoint(s), open)
    requires OpenFits(LastPoint(s), s.workers[|s.workers| - 1].ports, open)
    ensures var last, at := |s.workers| - 1, LastPoint(s); var t := WorkerStepped(s, last, outcome);
      var blocks' := if at.Finishing? then blocks + [open] else blocks;
      t.posted == Log(blocks') + OpenEvents(LastPoint(t), OpenAfter(at, open))
  {
    hide *;
    var last, at := |s.workers| - 1, LastPoint(s);
    WorkKeepsOthers(s, outcome);
    OpenStep(at, s.workers[last].ports, s.cancel, outcome, open);
    if at.Finishing? {
      LogGrows(blocks, open);
    }
    assert s.posted + Queued(at, outcome) == Log(blocks) + (OpenEvents(at, open) + Queued(at, outcome));
  }

  lemma {:induction false} AgreesAfterWork(s: Controller, outcome: Outcome, wanted: nat, seen: seq<Observed>,
                                           blocks: seq<Block>, open: Block, blocks': seq<Block>, open': Block)
    requires s.workers != [] && Fits(s, blocks, open) && Agrees(s, seen, blocks, open)
    requires open' == OpenAfter(LastPoint(s), open)
    requires blocks' == if LastPoint(s).Finishing? then blocks + [open] else blocks
    ensures var last := |s.workers| - 1;
      Agrees(WorkerStepped(s, last, outcome), Noted(seen, s, WorkerStep(last, outcome), wanted), blocks', open')
  {
    var last := |s.workers| - 1;
    var at, ports := s.workers[last].at, s.workers[last].ports;
    var more := Noted(seen, s, WorkerStep(last, outcome), wanted);
    hide *;
    AgreesFacts(s, seen, blocks, open);
    BlocksBeforeOpen(s, blocks, open);
    NotedWork(seen, s, outcome, wanted);
    WorkKeepsOthers(s, outcome);
    UnwrittenStep(at, ports, s.cancel, outcome, open);
    ToldMore(blocks, seen, more, open, at);
    if Unwritten(at) && !at.Finishing? {
      RunningStep(at, ports, s.cancel, outcome, open, seen[last], more[last]);
    }
    AgreesFrom(WorkerStepped(s, last, outcome), more, blocks', open');
  }

  lemma {:induction false} AgreesFacts(s: Controller, seen: seq<Observed>, blocks: seq<Block>, open: Block)
    requires s.workers != [] && Agrees(s, seen, blocks, open)
    ensures var last := |s.workers| - 1;
      && |seen| == |s.workers| && Told(blocks, seen)
      && LastPoint(s) == s.workers[last].at
      && (forall i | 0 <= i < |seen| :: seen[i].ports == s.workers[i].ports)
      && (Unwritten(LastPoint(s)) ==> RunningAgrees(LastPoint(s), s.cancel, seen[last], open))
      && (LastPoint(s).Finishing? && RunningAgrees(LastPoint(s), s.cancel, seen[last], open) ==>
            Tells(open, seen[last]))
      && (LastPoint(s).Finishing? ==> Unwritten(LastPoint(s)))
  {
    hide Told;
  }

  lemma {:induction false} AgreesFrom(s: Controller, seen: seq<Observed>, blocks: seq<Block>, open: Block)
    requires s.workers != [] && |seen| == |s.workers| && Told(blocks, seen)
    requires forall i | 0 <= i < |seen| :: seen[i].ports == s.workers[i].ports
    requires Unwritten(LastPoint(s)) ==> RunningAgrees(LastPoint(s), s.cancel, seen[|seen| - 1], open)
    ensures Agrees(s, seen, blocks, open)
  {
  }

  lemma {:induction false} UnwrittenStep(at: Point, ports: nat, cancel: bool, outcome: Outcome, open: Block)
    ensures Unwritten(PointAfter(at, ports, cancel, outcome)) <==> Unwritten(at) && !at.Finishing?
  {
  }

  lemma {:induction false} ToldMore(blocks: seq<Block>, seen: seq<Observed>, more: seq<Observed>, open: Block,
                                    at: Point)
    requires Told(blocks, seen) && |more| == |seen| && seen != []
    requires forall i | 0 <= i < |seen| - 1 :: more[i] == seen[i]
    requires if Unwritten(at) then |blocks| == |seen| - 1 else more == seen
    requires at.Finishing? ==> more == seen && Tells(open, seen[|seen| - 1])
    ensures Told(if at.Finishing? then blocks + [open] else blocks, more)
  {
  }

  lemma {:induction false} RunningStep(at: Point, ports: nat, cancel: bool, outcome: Outcome, open: Block,
                                       o: Observed, o': Observed)
    requires OpenFits(at, ports, open) && Unwritten(at) && !at.Finishing? && RunningAgrees(at, cancel, o, open)
    requires o.ports == ports == o'.ports
    requires o'.got == o.got + if at.Holding? then [outcome.Fine?] else []
    requires o'.disturbed <==> o.disturbed || (outcome.Throws? && (at.Starting? || at.Spawning?))
    ensures RunningAgrees(PointAfter(at, ports, cancel, outcome), cancel, o', OpenAfter(at, open))
  {
    OpenStep(at, ports, cancel, outcome, open);
    hide OpenFits, OnCourse, PointAfter, OpenAfter, GotSoFar, OpenEvents, Queued;
  }

  lemma {:induction false} WorkKeepsOthers(s: Controller, outcome: Outcome)
    requires s.workers != []
    ensures var last := |s.workers| - 1; var t := WorkerStepped(s, last, outcome); var worker := s.workers[last];
      && |t.workers| == |s.workers| && t.cancel == s.cancel
      && LastPoint(s) == worker.at && LastPoint(t) == PointAfter(worker.at, worker.ports, s.cancel, outcome)
      && t.posted == s.posted + Queued(worker.at, outcome)
      && forall i | 0 <= i < |s.workers| :: t.workers[i].ports == s.workers[i].ports
  {
  }

  lemma {:induction false} NotedWork(seen: seq<Observed>, s: Controller, outcome: Outcome, wanted: nat)
    requires s.workers != [] && |seen| == |s.workers|
    ensures var last, at := |seen| - 1, LastPoint(s);
      var more := Noted(seen, s, WorkerStep(last, outcome), wanted);
      && |more| == |seen| && (forall i | 0 <= i < last :: more[i] == seen[i])
      && more[last].ports == seen[last].ports
      && (!Unwritten(at) || at.Finishing? ==> more == seen)
      && (Unwritten(at) ==>
            && more[last].got == seen[last].got + (if at.Holding? then [outcome.Fine?] else [])
            && (more[last].disturbed
                <==> seen[last].disturbed || (outcome.Throws? && (at.Starting? || at.Spawning?))))
  {
  }

  /** In every interleaving the queue is one block (result? progress)* finished per scan that has
      queued its end, followed by the part of the running scan; inside a block, progress counts
      1, 2, ... up to at most a constant total that is at most the number of requested ports. The results
      are those of the futures that had one, and a scan that was not itself cancelled or disturbed before
      its end has collected all its ports, whatever became of earlier scans. */
  lemma {:induction false} TraceShape(acts: seq<Action>) returns (blocks: seq<Block>, open: Block)
    ensures var s := Execute(INITIAL, acts);
      Fits(s, blocks, open) && Agrees(s, Observe(acts), blocks, open)
    decreases |acts|
  {
    if acts == [] {
      blocks, open := [], Block([], 0);
    } else {
      var front := acts[..|acts| - 1];
      blocks, open := TraceShape(front);
      StaysExclusive(front);
      FlagStays(front);
      hide Fits, Agrees, Exclusive, FlagFits, Noted, Apply;
      blocks, open := FitsStep(Execute(INITIAL, front), acts[|acts| - 1], Wanted(front), Observe(front), blocks, open);
    }
  }

  // ----- Cancellation -----

  /** What a worker may still queue once the cancel flag is up: the result and the progress of the future
      it already holds, and its end. */
  function Endings(at: Point): set<seq<Event>> {
    match at
    case Holding(done, total) =>
      {[ResultReady(done), Progress(done + 1, total), Finished], [Progress(done + 1, total), Finished]}
    case Counting(done, total, _) => {[Progress(done + 1, total), Finished]}
    case Releasing => {[]}
    case Exited => {[]}
    case _ => {[Finished]}
  }

  predicate Cancelled(s: Controller) {
    Exclusive(s) && s.cancel && !Starts(s.ui)
  }

  predicate NoStart(acts: seq<Action>) {
    forall i | 0 <= i < |acts| :: !acts[i].StartScan?
  }

  /** Every ending left after a step, with what the step queued, was one before it. */
  lemma {:induction false} EndingsStep(at: Point, ports: nat, outcome: Outcome, ending: seq<Event>)
    requires ending in Endings(PointAfter(at, ports, true, outcome))
    ensures Queued(at, outcome) + ending in Endings(at)
  {
    if Queued(at, outcome) == [] {
      assert [] + ending == ending;
    } else if at.Counting? {
      assert [Progress(at.done + 1, at.total)] + [Finished] == [Progress(at.done + 1, at.total), Finished];
    } else if at.Holding? {
      var progress := [Progress(at.done + 1, at.total), Finished];
      assert [ResultReady(at.done)] + progress == [ResultReady(at.done), Progress(at.done + 1, at.total), Finished];
    } else {
      assert [Finished] + [] == [Finished];
    }
  }

  lemma {:induction false} CancelledStep(s: Controller, a: Action, ending: seq<Event>)
    requires Cancelled(s) && !a.StartScan? && ending in Endings(LastPoint(Apply(s, a)))
    ensures var t := Apply(s, a);
      && Cancelled(t) && s.posted <= t.posted
      && t.posted[|s.posted|..] + ending in Endings(LastPoint(s))
  {
    ExclusiveStep(s, a);
    var t, last := Apply(s, a), |s.workers| - 1;
    if a.WorkerStep? && a.w == last {
      EndingsStep(LastPoint(s), s.workers[last].ports, a.outcome, ending);
      assert t.posted[|s.posted|..] == Queued(LastPoint(s), a.outcome);
    } else {
      OtherActions(s, a);
      assert t.posted[|s.posted|..] + ending == ending;
    }
  }

  /** After a cancellation, until the next start, whatever the interleaving: what is queued, with
      whatever ending the worker then has left, is one of the endings it had at the cancellation. So only
      the future already held can still produce a result. */
  lemma {:induction false} CancelIsPrompt(acts: seq<Action>, more: seq<Action>, ending: seq<Event>)
    requires var s := Execute(INITIAL, acts); s.cancel && !Starts(s.ui)
    requires NoStart(more) && ending in Endings(LastPoint(Execute(Execute(INITIAL, acts), more)))
    ensures var s := Execute(INITIAL, acts); var t := Execute(s, more);
      && Cancelled(t) && s.posted <= t.posted
      && t.posted[|s.posted|..] + ending in Endings(LastPoint(s))
    decreases |more|
  {
    StaysExclusive(acts);
    var s := Execute(INITIAL, acts);
    if more == [] {
      assert s.posted[|s.posted|..] + ending == ending;
    } else {
      var before, a := Execute(s, more[..|more| - 1]), more[|more| - 1];
      var t := Apply(before, a);
      StaysCancelled(s, more[..|more| - 1]);
      CancelledStep(before, a, ending);
      var longer := t.posted[|before.posted|..] + ending;
      CancelIsPrompt(acts, more[..|more| - 1], longer);
      assert t.posted[|s.posted|..] + ending == before.posted[|s.posted|..] + longer;
    }
  }

  lemma {:induction false} StaysCancelled(s: Controller, more: seq<Action>)
    requires Cancelled(s) && NoStart(more)
    ensures Cancelled(Execute(s, more))
    decreases |more|
  {
    if more != [] {
      var before := Execute(s, more[..|more| - 1]);
      StaysCancelled(s, more[..|more| - 1]);
      ExclusiveStep(before, more[|more| - 1]);
    }
  }

  lemma {:induction false} ExecuteFirst(s: Controller, a: Action, acts: seq<Action>)
    ensures Execute(s, [a] + acts) == Execute(Apply(s, a), acts)
    decreases |acts|
  {
    if acts == [] {
      assert [a] + acts == [a] && [a][..0] == [];
    } else {
      assert ([a] + acts)[..|acts|] == [a] + acts[..|acts| - 1];
      ExecuteFirst(s, a, acts[..|acts| - 1]);
    }
  }

  /** Steps left to the exit of a cancelled worker. */
  function StepsLeft(at: Point): nat {
    match at
    case Starting => 5
    case Spawning(_) => 4
    case Holding(_, _) => 5
    case Counting(_, _, _) => 4
    case Collecting(_, _) => 3
    case Finishing => 2
    case Releasing => 1
    case Exited => 0
  }

  /** And each of these endings is possible: some continuation queues exactly it. */
  lemma {:induction false} EveryEndingHappens(s: Controller, ending: seq<Event>) returns (more: seq<Action>)
    requires Cancelled(s) && ending in Endings(LastPoint(s))
    ensures NoStart(more)
    ensures var t := Execute(s, more); LastPoint(t).Exited? && t.posted == s.posted + ending
    decreases StepsLeft(LastPoint(s))
  {
    var at := LastPoint(s);
    if at.Exited? {
      more := [];
    } else {
      var w := |s.workers| - 1;
      var outcome := if at.Holding? && ending[0].ResultReady? then Fine else NoResult;
      var a := WorkerStep(w, outcome);
      ExclusiveStep(s, a);
      var rest := ending[|Queued(at, outcome)|..];
      EndingSplits(at, s.workers[w].ports, outcome, ending);
      assert LastPoint(Apply(s, a)) == PointAfter(at, s.workers[w].ports, true, outcome);
      var later := EveryEndingHappens(Apply(s, a), rest);
      ExecuteFirst(s, a, later);
      more := [a] + later;
    }
  }

  lemma {:induction false} EndingSplits(at: Point, ports: nat, outcome: Outcome, ending: seq<Event>)
    requires ending in Endings(at) && !at.Exited?
    requires outcome == if at.Holding? && ending[0].ResultReady? then Fine else NoResult
    ensures var q, after := Queued(at, outcome), PointAfter(at, ports, true, outcome);
      q <= ending && ending[|q|..] in Endings(after) && StepsLeft(after) < StepsLeft(at)
  {
  }

  /** No result can follow a cancellation exactly when the worker does not hold a future at that moment. */
  lemma {:induction false} ResultMayFollowIff(acts: seq<Action>)
    requires var s := Execute(INITIAL, acts); s.cancel && !Starts(s.ui)
    ensures var s := Execute(INITIAL, acts);
      (exists more :: NoStart(more) && BringsResult(s, Execute(s, more))) <==> LastPoint(s).Holding?
  {
    StaysExclusive(acts);
    var s := Execute(INITIAL, acts);
    if LastPoint(s).Holding? {
      var done, total := LastPoint(s).done, LastPoint(s).total;
      var more := EveryEndingHappens(s, [ResultReady(done), Progress(done + 1, total), Finished]);
      assert Execute(s, more).posted[|s.posted|] == ResultReady(done);
    } else {
      forall more | NoStart(more) ensures !BringsResult(s, Execute(s, more)) {
        var t := Execute(s, more);
        var ending := SomeEnding(LastPoint(t));
        CancelIsPrompt(acts, more, ending);
        NoResultIn(s, t, ending);
      }
    }
  }

  /** A result is queued between the two states. */
  predicate BringsResult(s: Controller, t: Controller) {
    exists i | |s.posted| <= i < |t.posted| :: t.posted[i].ResultReady?
  }

  lemma {:induction false} SomeEnding(at: Point) returns (ending: seq<Event>)
    ensures ending in Endings(at)
  {
    match at
    case Holding(done, total) => ending := [Progress(done + 1, total), Finished];
    case Counting(done, total, _) => ending := [Progress(done + 1, total), Finished];
    case Releasing => ending := [];
    case Exited => ending := [];
    case _ => ending := [Finished];
  }

  lemma {:induction false} NoResultIn(s: Controller, t: Controller, ending: seq<Event>)
    requires s.posted <= t.posted && t.posted[|s.posted|..] + ending in Endings(LastPoint(s))
    requires !LastPoint(s).Holding?
    ensures !BringsResult(s, t)
  {
    var all := t.posted[|s.posted|..] + ending;
    forall i | |s.posted| <= i < |t.posted| ensures !t.posted[i].ResultReady? {
      assert t.posted[i] == all[i - |s.posted|];
    }
  }

  /** The usual case: a cancellation finds the worker blocked on a future, whose result is then queued
      after it. */
  lemma {:induction false} HeldResultFollowsCancel() returns (acts: seq<Action>)
    ensures var s := Execute(INITIAL, acts); var t := Execute(INITIAL, acts + [CancelScan]);
      && LastPoint(s) == Holding(0, 1) && s.posted == []
      && t.cancel && t.posted == []
      && Execute(INITIAL, acts + [CancelScan] + [WorkerStep(0, Fine)]).posted == [ResultReady(0)]
  {
    hide Execute;
    var work := WorkerStep(0, Fine);
    acts := Begun(1);
    var s := Execute(INITIAL, acts);
    ExecuteMore(acts, work);
    ExecuteMore(acts + [work], work);
    var s2 := s.(workers := [Worker(1, Spawning(1))]);
    assert Apply(s.(workers := [Worker(1, Spawning(0))]), work) == s2;
    ExecuteMore(acts + [work] + [work], work);
    var s3 := s.(workers := [Worker(1, Collecting(0, 1))]);
    assert Apply(s2, work) == s3;
    acts := acts + [work] + [work] + [work];
    ExecuteMore(acts, work);
    var s4 := s.(workers := [Worker(1, Holding(0, 1))]);
    assert Apply(s3, work) == s4;
    acts := acts + [work];
    ExecuteMore(acts, CancelScan);
    ExecuteMore(acts + [CancelScan], work);
  }

  /** How many futures the worker has or will have, where that is known. */
  function FutureCount(at: Point): Option<nat> {
    match at
    case Starting => Some(0)
    case Spawning(n) => Some(n)
    case Collecting(_, total) => Some(total)
    case Holding(_, total) => Some(total)
    case Counting(_, total, _) => Some(total)
    case _ => None
  }

  /** After a cancellation no further future is started. */
  lemma {:induction false} CancelStopsSpawning(acts: seq<Action>, more: seq<Action>)
    requires var s := Execute(INITIAL, acts); s.cancel && !Starts(s.ui)
    requires NoStart(more)
    ensures var s := Execute(INITIAL, acts); var t := Execute(s, more);
      FutureCount(LastPoint(t)).Some? ==> FutureCount(LastPoint(t)) == FutureCount(LastPoint(s))
    decreases |more|
  {
    StaysExclusive(acts);
    if more != [] {
      var s := Execute(INITIAL, acts);
      CancelStopsSpawning(acts, more[..|more| - 1]);
      StaysCancelled(s, more[..|more| - 1]);
      CountStep(Execute(s, more[..|more| - 1]), more[|more| - 1]);
    }
  }

  lemma {:induction false} CountStep(s: Controller, a: Action)
    requires Cancelled(s) && !a.StartScan?
    ensures var t := Apply(s, a);
      FutureCount(LastPoint(t)).Some? ==> FutureCount(LastPoint(t)) == FutureCount(LastPoint(s))
  {
    if !(a.WorkerStep? && a.w == |s.workers| - 1) {
      OtherActions(s, a);
    }
  }
}
