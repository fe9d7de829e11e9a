/** A pool without workers: a run in which stop returns and leaves a task queued. */
module WorkerlessPools {
  import opened Outcomes
  import opened Queues
  import opened ThreadPools

  /** A state that the pool with one client and no worker can reach. */
  ghost predicate Reached(p: Pool) {
    exists events :: PoolInv(Start(0, 1)) && p == AfterEvents(Start(0, 1), events)
  }

  lemma ReachedNext(p: Pool, c: Choice)
    requires Reached(p)
    ensures PoolInv(p) && Reached(Step(p, 0, c))
  {
    hide Inv, Stops, Tasks, Runs, Step;
    var events :| PoolInv(Start(0, 1)) && p == AfterEvents(Start(0, 1), events);
    AfterOneEvent(Start(0, 1), events, Event(0, c));
    StepInv(p, 0, c);
  }

  /** The lone client is at this point, and these tasks are in the queue's history. */
  predicate AloneAt(p: Pool, point: Point, pc: Pc<nat>, pushed: seq<nat>) {
    p.workers == 0 && p.points == [point] && p.queue.pcs == [pc] && p.queue.pushed == pushed
  }

  /** Nobody else can hold a lock. */
  lemma AloneLocks(p: Pool)
    requires PoolInv(p) && |p.points| == 1
    ensures p.queue.tailLock == (if HoldsTail(p.queue.pcs[0]) then Some(0) else None)
    ensures p.stopLock == (if InStop(p.points[0]) then Some(0) else None)
  {
    hide Tasks, Runs, AllHeld, Queued;
    assert InSection(p.queue.pcs[0], p.queue.tailLock, 0, HoldsTail(p.queue.pcs[0]));
  }

  /** The program points of an accepted push of task 0, in order. */
  function PushPoint(k: nat): Pc<nat> {
    match k
    case 0 => PushCheck(0)
    case 1 => PushAllocate(0)
    case 2 => PushLock(0, 1)
    case 3 => PushRecheck(0, 1)
    case 4 => PushData(0, 1)
    case 5 => PushLink(0, 1)
    case 6 => PushTail(0, 1)
    case 7 => PushUnlock(0, true)
    case _ => Idle(Accepted(0))
  }

  lemma AlonePushStep(s: State<nat>, k: nat)
    requires k < 8 && s.pcs == [PushPoint(k)] && !s.closed && s.tail < |s.nodes| && (k <= 1 ==> |s.nodes| == 1)
    requires HoldsTail(s.pcs[0]) || s.tailLock == None
    ensures var r := PushStep(s, 0);
      && r.pcs == [PushPoint(k + 1)] && !r.closed && (k < 1 ==> |r.nodes| == 1)
      && r.pushed == if k == 6 then s.pushed + [0] else s.pushed
  {
  }

  lemma AlonePush(p: Pool, k: nat)
    requires PoolInv(p) && k < 8 && AloneAt(p, SubmitPush(0, None), PushPoint(k), if k <= 6 then [] else [0])
    requires !p.queue.closed && !p.stopped && (k <= 1 ==> |p.queue.nodes| == 1)
    ensures var r := Step(p, 0, Run);
      && AloneAt(r, SubmitPush(0, None), PushPoint(k + 1), if k + 1 <= 6 then [] else [0])
      && !r.queue.closed && !r.stopped && (k < 1 ==> |r.queue.nodes| == 1)
  {
    hide Inv, Stops, Tasks, Runs, PushStep, ThreadOk, TakeSafe, InSection, Next;
    LengthsOf(p);
    hide Calls;
    AloneLocks(p);
    ThreadFacts(p.queue, 0);
    AlonePushStep(p.queue, k);
    PushesNext(p.queue, k);
    hide PushPoint;
  }

  lemma PushesNext(s: State<nat>, k: nat)
    requires Inv(s) && k < 8 && s.pcs == [PushPoint(k)]
    ensures s.tail < |s.nodes| && Next(s, 0, Go) == PushStep(s, 0) && !PushPoint(k).Idle?
  {
    hide Inv, PushStep;
    ThreadFacts(s, 0);
  }

  lemma AloneStart()
    ensures Reached(Start(0, 1))
  {
    StartInv(0, 1);
    hide PoolInv, Start;
    assert AfterEvents(Start(0, 1), []) == Start(0, 1);
  }

  lemma AloneChecks() returns (p: Pool)
    ensures Reached(p) && p.workers == 0 && p.points == [SubmitCheck(None)] && p.queue == Init(1)
    ensures p.made == 0 && !p.stopped
  {
    hide Inv, Stops, Tasks, Runs;
    AloneStart();
    ReachedNext(Start(0, 1), Submit);
    p := Step(Start(0, 1), 0, Submit);
  }

  lemma AloneEnters() returns (p: Pool)
    ensures Reached(p) && AloneAt(p, SubmitPush(0, None), PushPoint(0), [])
    ensures !p.queue.closed && !p.stopped && |p.queue.nodes| == 1
  {
    hide Inv, Calls, Stops, Tasks, Runs;
    var q := AloneChecks();
    ReachedNext(q, Run);
    p := Step(q, 0, Run);
  }

  lemma AloneSubmits() returns (p: Pool)
    ensures Reached(p) && AloneAt(p, SubmitPush(0, None), PushPoint(8), [0]) && !p.stopped
  {
    hide Inv, Stops, Closes, Tasks, Runs, Step, PushPoint;
    p := AloneEnters();
    for k := 0 to 8
      invariant Reached(p) && AloneAt(p, SubmitPush(0, None), PushPoint(k), if k <= 6 then [] else [0])
      invariant !p.queue.closed && !p.stopped && (k <= 1 ==> |p.queue.nodes| == 1)
    {
      ReachedNext(p, Run);
      AlonePush(p, k);
      p := Step(p, 0, Run);
    }
  }

  /** The points of the lone client from there to the end of its call of stop. */
  function StopPoint(k: nat): Point {
    match k
    case 0 => SubmitPush(0, None)
    case 1 => Client
    case 2 => StopEnter
    case 3 => StopCheck
    case 4 => StopStore
    case 5 => StopClose
    case 6 => StopJoin(0)
    case 7 => StopUnlock
    case _ => Client
  }

  lemma AloneCloses(p: Pool, k: nat)
    requires PoolInv(p) && 4 <= k <= 5 && p.workers == 0 && p.points == [StopPoint(k)] && |p.queue.pcs| == 1
    ensures var r := Step(p, 0, Run);
      && r.workers == 0 && r.points == [StopPoint(k + 1)] && |r.queue.pcs| == 1 && r.queue.pushed == p.queue.pushed
  {
    hide Inv, Stops, Tasks, Runs, Next, InWait, InPush, PopsAlike;
    CallFacts(p, 0);
    LengthsOf(p);
    hide Calls;
    QueueStepped(p.queue, 0, if k == 4 then BeginClose else Go);
  }

  lemma AloneStopStep(p: Pool, k: nat)
    requires PoolInv(p) && k < 8 && p.workers == 0 && p.points == [StopPoint(k)] && |p.queue.pcs| == 1
    requires p.queue.pushed == [0] && (k == 0 ==> p.queue.pcs[0] == PushPoint(8)) && (k <= 4 ==> !p.stopped)
    ensures var r := Step(p, 0, if k == 1 then Stop else Run);
      && r.workers == 0 && r.points == [StopPoint(k + 1)] && |r.queue.pcs| == 1 && r.queue.pushed == [0]
      && (k < 4 ==> !r.stopped) && (k == 7 ==> r.stopReturned)
  {
    AloneLocks(p);
    hide Inv, Calls, Stops, Tasks, Runs;
    if 4 <= k <= 5 {
      hide StopPoint, Step;
      AloneCloses(p, k);
    }
  }

  lemma StopPoints()
    ensures StopPoint(0) == SubmitPush(0, None)
  {
  }

  /** Without workers, stop returns although the one task submitted is still queued. */
  lemma NoWorkerLeavesTask()
    ensures exists p :: Reached(p) && PoolInv(p) && p.stopReturned && Queued(p.queue) == [0] && p.finished == []
  {
    var p := AloneSubmits();
    hide Inv, Stops, Closes, Tasks, Runs, Step, StopPoint, PushPoint;
    StopPoints();
    for k := 0 to 8
      invariant Reached(p) && p.workers == 0 && p.points == [StopPoint(k)] && |p.queue.pcs| == 1
      invariant p.queue.pushed == [0] && (k == 0 ==> p.queue.pcs[0] == PushPoint(8)) && (k <= 4 ==> !p.stopped)
      invariant k == 8 ==> p.stopReturned
    {
      var c := if k == 1 then Stop else Run;
      ReachedNext(p, c);
      AloneStopStep(p, k);
      p := Step(p, 0, c);
    }
    ReachedNext(p, Run);
    NoWorkerNoRun(p);
    NoWorkerQueues(p);
  }

  lemma NoWorkerQueues(p: Pool)
    requires PoolInv(p) && p.workers == 0
    ensures Queued(p.queue) == p.queue.pushed
  {
    ExitedHoldNothing(p);
    Books(p.queue);
    hide Inv, Calls, Stops, Tasks, AllRunning, AllHeld, Queued;
    NothingIn(p.queue.popped, AllHeld(p.queue.nodes, p.queue.pcs), AllRunning(p.points, p.queue.pcs));
  }

  lemma NothingIn(s: seq<nat>, a: multiset<nat>, b: multiset<nat>)
    requires a + b == multiset{}
    ensures multiset(s) == multiset([]) + a ==> s == []
  {
    assert |a + b| == |a| + |b|;
    assert |multiset(s)| == |s|;
  }

  lemma Books(s: State<nat>)
    requires Inv(s)
    ensures s.pushed == s.popped + Queued(s)
    ensures multiset(s.popped) == multiset(s.returned) + AllHeld(s.nodes, s.pcs)
  {
  }
}
