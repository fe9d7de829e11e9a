/** Draining a closed pool: every step that moves a thread uses up a bounded amount of work,
    beginning a new call adds a bounded amount, and some thread can move until all calls have
    returned and all workers have exited. */
module PoolDrains {
  import opened Outcomes
  import opened Queues
  import opened ThreadPools

  /** What one queued task may cost: popping it, running it, and asking for the next. */
  const ITEM: nat := 20

  /** A bound on a thread's steps inside the queue, once it is closed. A push that is past its
      check also answers for the task it is about to add. */
  function PcRank(pc: Pc<nat>): nat {
    match pc
    case PushCheck(_) => 26
    case PushAllocate(_) => 25
    case PushLock(_, _) => 24
    case PushRecheck(_, _) => 23
    case PushData(_, _) => 22 + ITEM
    case PushLink(_, _) => 21 + ITEM
    case PushTail(_, _) => 20 + ITEM
    case PushUnlock(_, _) => 19
    case PopUnlock(_) => 20
    case PopValue(_) => 19
    case TailLock(_, final) => if final then 8 else 15
    case TailRead(_, final) => if final then 7 else 14
    case TailUnlock(_, final, _) => if final then 6 else 13
    case Compare(_, final, _) => if final then 5 else 12
    case PopSleep(_) => 11
    case PopLock(_) => 10
    case PopPredicate(_) => 9
    case PopTake => 4
    case PopAdvance(_) => 3
    case PopGiveUp(_) => 2
    case CloseStore => 2
    case Idle(o) => if o.Got? || o.Accepted? || o.Rejected? then 18 else 1
  }

  function Rank(point: Point, pc: Pc<nat>, workers: nat): nat {
    match point
    case Client => 0
    case SubmitCheck(_) => 18
    case SubmitPush(_, _) => PcRank(pc)
    case StopEnter => workers + 6
    case StopCheck => workers + 5
    case StopStore => workers + 4
    case StopClose => workers + 3
    case StopJoin(i) => if i < workers then workers - i + 2 else 2
    case StopUnlock => 1
    case WorkerLoop => 16
    case WorkerPop => PcRank(pc)
    case WorkerRun(_) => 17
    case WorkerExited => 0
  }

  function TotalRank(points: seq<Point>, pcs: seq<Pc<nat>>, workers: nat): nat
    requires |points| == |pcs|
  {
    if points == [] then 0
    else
      var n := |points| - 1;
      TotalRank(points[..n], pcs[..n], workers) + Rank(points[n], pcs[n], workers)
  }

  /** The work left: the tasks queued and the steps of every thread. */
  function Work(p: Pool): nat
    requires |p.points| == |p.queue.pcs|
  {
    ITEM * |p.queue.chain| + TotalRank(p.points, p.queue.pcs, p.workers)
  }

  lemma {:induction false} RankUpdate(points: seq<Point>, pcs: seq<Pc<nat>>, workers: nat, t: nat, point: Point,
                                      pc: Pc<nat>)
    requires t < |points| == |pcs|
    ensures TotalRank(points[t := point], pcs[t := pc], workers) + Rank(points[t], pcs[t], workers)
         == TotalRank(points, pcs, workers) + Rank(point, pc, workers)
  {
    hide Rank;
    var n, ps, qs := |points| - 1, points[t := point], pcs[t := pc];
    if t < n {
      RankUpdate(points[..n], pcs[..n], workers, t, point, pc);
      assert ps[..n] == points[..n][t := point] && qs[..n] == pcs[..n][t := pc];
    } else {
      assert ps[..n] == points[..n] && qs[..n] == pcs[..n];
    }
  }

  // ---- steps use up work ----

  /** The queue and thread t's call on it have less left to do in r than in s. */
  predicate Spends(s: State<nat>, r: State<nat>, t: nat) {
    && t < |s.pcs| == |r.pcs|
    && ITEM * |r.chain| + PcRank(r.pcs[t]) < ITEM * |s.chain| + PcRank(s.pcs[t])
  }

  lemma PushSpends(s: State<nat>, t: nat)
    requires t < |s.pcs| && s.tail < |s.nodes| && s.closed
    requires Unpushed(s.pcs[t]) || s.pcs[t].PushUnlock?
    ensures PushStep(s, t) == s || Spends(s, PushStep(s, t), t)
  {
  }

  lemma WaitSpends(s: State<nat>, t: nat, m: Move<nat>)
    requires t < |s.pcs| && s.closed && !s.pcs[t].Idle? && !s.pcs[t].CloseStore?
    requires !Unpushed(s.pcs[t]) && !s.pcs[t].PushUnlock?
    requires !s.pcs[t].PopTake? && !s.pcs[t].PopAdvance? && !s.pcs[t].PopUnlock? && !s.pcs[t].PopValue?
    requires s.pcs[t].PopGiveUp? ==> PcRank(Idle(s.pcs[t].outcome)) == 1
    ensures WaitStep(s, t, m) == s || Spends(s, WaitStep(s, t, m), t)
  {
    WaitRanks(s, t, m);
    WaitKeepsQueue(s, t, m);
    hide WaitStep, PcRank;
  }

  lemma WaitRanks(s: State<nat>, t: nat, m: Move<nat>)
    requires t < |s.pcs| && s.closed
    requires s.pcs[t].PopGiveUp? ==> PcRank(Idle(s.pcs[t].outcome)) == 1
    ensures WaitStep(s, t, m) == s || PcRank(WaitStep(s, t, m).pcs[t]) < PcRank(s.pcs[t])
  {
    match s.pcs[t]
    case PopGiveUp(_) => hide PcRank; GiveUpRank(s, t, m);
    case PopLock(k) => assert WaitStep(s, t, m) == s || s.headLock == None;
    case TailLock(k, _) => assert WaitStep(s, t, m) == s || s.tailLock == None;
    case _ =>
  }

  lemma GiveUpRank(s: State<nat>, t: nat, m: Move<nat>)
    requires t < |s.pcs| && s.pcs[t].PopGiveUp?
    ensures WaitStep(s, t, m).pcs[t] == Idle(s.pcs[t].outcome) && PcRank(s.pcs[t]) == 2
  {
  }

  lemma TakeSpends(s: State<nat>, t: nat)
    requires t < |s.pcs| && TakeSafe(s, s.pcs[t])
    requires s.pcs[t].PopTake? || s.pcs[t].PopAdvance? || s.pcs[t].PopUnlock? || s.pcs[t].PopValue?
    ensures Spends(s, TakeStep(s, t), t)
  {
  }

  lemma GivesUpCheaply(s: State<nat>, pc: Pc<nat>)
    requires ThreadOk(s, pc)
    ensures pc.PopGiveUp? ==> PcRank(Idle(pc.outcome)) == 1
  {
  }

  lemma QueueSpends(s: State<nat>, t: nat)
    requires Inv(s) && t < |s.pcs| && s.closed && !s.pcs[t].Idle?
    ensures Next(s, t, Go) == s || Spends(s, Next(s, t, Go), t)
  {
    hide Inv, PushStep, WaitStep, TakeStep, TakeSafe, ThreadOk;
    ThreadFacts(s, t);
    GivesUpCheaply(s, s.pcs[t]);
    var pc := s.pcs[t];
    if Unpushed(pc) || pc.PushUnlock? { PushSpends(s, t); }
    else if pc.PopTake? || pc.PopAdvance? || pc.PopUnlock? || pc.PopValue? { TakeSpends(s, t); }
    else if !pc.CloseStore? { WaitSpends(s, t, Go); }
  }

  lemma IdleKeepsChain(s: State<nat>, t: nat, m: Move<nat>)
    requires Inv(s) && t < |s.pcs| && (s.pcs[t].Idle? || s.pcs[t].CloseStore?)
    ensures Next(s, t, m).chain == s.chain
  {
    hide Inv;
  }

  /** Thread t has less left to do in r than in p, counting the tasks queued. */
  predicate Progress(p: Pool, r: Pool, t: nat) {
    && t < |p.points| == |p.queue.pcs| == |r.points| == |r.queue.pcs|
    && ITEM * |r.queue.chain| + Rank(r.points[t], r.queue.pcs[t], p.workers)
     < ITEM * |p.queue.chain| + Rank(p.points[t], p.queue.pcs[t], p.workers)
  }

  lemma SubmitProgress(p: Pool, t: nat)
    requires Inv(p.queue) && Calls(p) && Closes(p) && p.queue.closed && t < |p.points|
    requires p.points[t].SubmitCheck? || p.points[t].SubmitPush?
    ensures SubmitStep(p, t) == p || Progress(p, SubmitStep(p, t), t)
  {
    hide Inv, Next, Calls;
    CallFacts(p, t);
    if !p.queue.pcs[t].Idle? { QueueSpends(p.queue, t); }
    hide PcRank;
    PushedRank(p.queue.pcs[t]);
  }

  lemma PushedRank(pc: Pc<nat>)
    ensures pc.Idle? && (pc.outcome.Accepted? || pc.outcome.Rejected?) ==> PcRank(pc) == 18
  {
  }

  lemma StopProgress(p: Pool, t: nat)
    requires Inv(p.queue) && Calls(p) && p.queue.closed && t < |p.points|
    requires InStop(p.points[t]) || p.points[t].StopEnter?
    ensures StopStep(p, t) == p || Progress(p, StopStep(p, t), t)
  {
    hide Inv, Next, Calls, PcRank;
    CallFacts(p, t);
    if p.points[t].StopStore? || p.points[t].StopClose? {
      var m := if p.points[t].StopStore? then BeginClose else Go;
      QueueStepped(p.queue, t, m);
      IdleKeepsChain(p.queue, t, m);
    }
  }

  lemma WorkerProgress(p: Pool, t: nat)
    requires Inv(p.queue) && Calls(p) && p.queue.closed && t < |p.points| && IsWorker(p.points[t])
    requires !p.points[t].SubmitCheck? && !p.points[t].SubmitPush?
    ensures WorkerStep(p, t, EndTask) == p || Progress(p, WorkerStep(p, t, EndTask), t)
  {
    hide Inv, Next, Calls, PushesAlike, PopsAlike;
    CallFacts(p, t);
    if p.points[t].WorkerLoop? {
      QueueStepped(p.queue, t, BeginPop(Wait));
      IdleKeepsChain(p.queue, t, BeginPop(Wait));
    }
    if p.points[t].WorkerPop? && !p.queue.pcs[t].Idle? { QueueSpends(p.queue, t); }
  }

  lemma StepProgress(p: Pool, t: nat)
    requires Inv(p.queue) && Calls(p) && Closes(p) && p.queue.closed && t < |p.points|
    ensures Step(p, t, EndTask) == p || Progress(p, Step(p, t, EndTask), t)
  {
    hide Inv, SubmitStep, StopStep, WorkerStep, Progress;
    LengthsOf(p);
    if p.points[t].SubmitCheck? || p.points[t].SubmitPush? { SubmitProgress(p, t); }
    else if InStop(p.points[t]) || p.points[t].StopEnter? { StopProgress(p, t); }
    else if IsWorker(p.points[t]) { WorkerProgress(p, t); }
  }

  /** In a closed pool, every step that changes anything uses up work, as long as running tasks
      do nothing but end. */
  lemma StepUsesWork(p: Pool, t: nat)
    requires PoolInv(p) && p.queue.closed
    ensures var r := Step(p, t, EndTask);
      r == p || (|r.points| == |r.queue.pcs| && Work(r) < Work(p))
  {
    hide Inv, Stops, Tasks, Runs, Step;
    LengthsOf(p);
    if t < |p.points| {
      var r := Step(p, t, EndTask);
      StepCalls(p, t, EndTask);
      StepProgress(p, t);
      hide Rank, Calls;
      RankUpdate(p.points, p.queue.pcs, p.workers, t, r.points[t], r.queue.pcs[t]);
    } else {
      OffTheEnd(p, t);
    }
  }

  lemma OffTheEnd(p: Pool, t: nat)
    requires PoolInv(p) && t >= |p.points|
    ensures Step(p, t, EndTask) == p
  {
  }

  lemma StaysClosed(p: Pool, t: nat, c: Choice)
    requires Inv(p.queue) && Calls(p) && t < |p.points|
    ensures p.queue.closed ==> Step(p, t, c).queue.closed
  {
    hide Inv, Next, Calls;
    CallFacts(p, t);
    StepInQueue(p, t, c);
    NextCloses(p.queue, t, Go);
    NextCloses(p.queue, t, BeginPush(p.made));
    NextCloses(p.queue, t, BeginPop(Wait));
    NextCloses(p.queue, t, BeginClose);
    hide Step;
  }

  // ---- no deadlock ----

  ghost predicate Stirs(p: Pool, t: nat)
    requires PoolInv(p)
  {
    Step(p, t, EndTask) != p
  }

  /** No call is under way and every worker has exited. */
  predicate Settled(p: Pool) {
    forall t :: 0 <= t < |p.points| ==> p.points[t].Client? || p.points[t].WorkerExited?
  }

  /** A thread inside a call on the queue that can move there can move in the pool. */
  lemma InCallStirs(p: Pool, t: nat)
    requires PoolInv(p) && t < |p.queue.pcs| && Unblocked(p.queue, t)
    ensures Stirs(p, t)
  {
    UnblockedMoves(p.queue, t);
    CallFacts(p, t);
    hide Inv, Stops, Tasks, Runs, Next, Calls;
    if p.points[t].StopClose? { assert Step(p, t, EndTask).points[t] == StopJoin(0); }
  }

  /** With the locks of the queue free, a thread can move unless it is at rest, or stop waits. */
  lemma FreeStirs(p: Pool, t: nat)
    requires PoolInv(p) && t < |p.points| && p.queue.tailLock == None && p.queue.headLock == None
    requires !p.points[t].Client? && !p.points[t].WorkerExited? && !p.points[t].StopEnter? && !p.points[t].StopJoin?
    ensures Stirs(p, t)
  {
    CallFacts(p, t);
    if !p.queue.pcs[t].Idle? {
      InCallStirs(p, t);
    } else {
      hide Inv, Stops, Tasks, Runs, Next, Calls;
      assert Step(p, t, EndTask).points[t] != p.points[t];
    }
  }

  /** A thread inside stop waits for a worker or for the owner of the stop lock at most. */
  lemma StopStirs(p: Pool, t: nat)
    requires PoolInv(p) && t < |p.points| && p.queue.tailLock == None && p.queue.headLock == None
    requires p.points[t].StopJoin?
    ensures exists u :: Stirs(p, u)
  {
    var i := p.points[t].joined;
    if i < p.workers && !p.points[i].WorkerExited? {
      FreeStirs(p, i);
    } else {
      hide Inv, Stops, Tasks, Runs, Calls;
      assert Step(p, t, EndTask).points[t] != p.points[t];
      assert Stirs(p, t);
    }
  }

  /** In every reachable state, closed or not: unless all calls have returned and all workers
      have exited, some thread can move. */
  lemma SomeoneStirs(p: Pool)
    requires PoolInv(p) && !Settled(p)
    ensures exists u :: Stirs(p, u)
  {
    if p.queue.tailLock.Some? || p.queue.headLock.Some? {
      SomeoneMoves(p.queue);
      InCallStirs(p, Blocker(p.queue));
    } else {
      var t: nat :| t < |p.points| && !p.points[t].Client? && !p.points[t].WorkerExited?;
      if p.points[t].StopEnter? && p.stopLock.Some? {
        t := p.stopLock.value;
      }
      if p.points[t].StopJoin? {
        StopStirs(p, t);
      } else if p.points[t].StopEnter? {
        assert Step(p, t, EndTask).points[t] != p.points[t];
        assert Stirs(p, t);
      } else {
        FreeStirs(p, t);
      }
    }
  }

  // ---- new calls ----

  /** A client begins submit or stop, or a running task begins submit. */
  predicate BeginsCall(p: Pool, e: Event) {
    && e.thread < |p.points|
    && if p.points[e.thread].Client? then e.choice == Submit || e.choice == Stop
       else p.points[e.thread].WorkerRun? && e.choice == Submit
  }

  /** Any other choice does what ending the task does, or nothing. */
  lemma OtherChoices(p: Pool, e: Event)
    requires Inv(p.queue) && Calls(p) && !BeginsCall(p, e)
    ensures Step(p, e.thread, e.choice) == Step(p, e.thread, EndTask) || Step(p, e.thread, e.choice) == p
  {
    hide Inv, SubmitStep, StopStep, InQueue, Calls;
    LengthsOf(p);
  }

  lemma BeginningCosts(p: Pool, e: Event)
    requires Inv(p.queue) && Calls(p) && BeginsCall(p, e)
    ensures var r := Step(p, e.thread, e.choice);
      |r.points| == |r.queue.pcs| && |p.points| == |p.queue.pcs| && Work(r) <= Work(p) + p.workers + 18
  {
    var t, r := e.thread, Step(p, e.thread, e.choice);
    BeginningMoves(p, e);
    LengthsOf(p);
    hide Inv, Calls, Step, TotalRank;
    assert p.queue.pcs[t := p.queue.pcs[t]] == p.queue.pcs;
    RankUpdate(p.points, p.queue.pcs, p.workers, t, r.points[t], p.queue.pcs[t]);
  }

  lemma BeginningMoves(p: Pool, e: Event)
    requires Inv(p.queue) && Calls(p) && BeginsCall(p, e)
    ensures var r, t := Step(p, e.thread, e.choice), e.thread;
      && |r.points| == |p.points| && r.queue == p.queue && r.workers == p.workers
      && r.points == p.points[t := r.points[t]]
      && (r.points[t].StopEnter? || (r.points[t].SubmitCheck? && !p.points[t].StopEnter?))
  {
    hide Inv, Calls;
    LengthsOf(p);
  }

  /** Any event at all: it changes nothing, or uses up work, or begins a call. */
  lemma EventUsesWork(p: Pool, e: Event)
    requires PoolInv(p) && p.queue.closed
    ensures var r := Step(p, e.thread, e.choice);
      && |p.points| == |p.queue.pcs| && |r.points| == |r.queue.pcs| && r.queue.closed && r.workers == p.workers
      && (r == p || Work(r) < Work(p) + if BeginsCall(p, e) then p.workers + 19 else 0)
  {
    hide Inv, Stops, Tasks, Runs, Step, BeginsCall, Calls;
    LengthsOf(p);
    StepInv(p, e.thread, e.choice);
    LengthsOf(Step(p, e.thread, e.choice));
    StepWhenStopped(p, e.thread, e.choice);
    RunsOnClosed(p, e);
    if BeginsCall(p, e) {
      BeginningCosts(p, e);
    } else {
      OtherChoices(p, e);
      StepUsesWork(p, e.thread);
    }
  }

  lemma RunsOnClosed(p: Pool, e: Event)
    requires PoolInv(p) && p.queue.closed
    ensures Step(p, e.thread, e.choice).queue.closed
  {
    hide Inv, Stops, Tasks, Runs;
    LengthsOf(p);
    if e.thread < |p.points| {
      hide Step;
      StaysClosed(p, e.thread, e.choice);
    } else {
      hide Calls;
    }
  }

  // ---- draining ends, and ends well ----

  /** Each event changes something. */
  ghost predicate Effective(p: Pool, events: seq<Event>)
    requires PoolInv(p)
    decreases |events|
  {
    events != [] ==>
      && Step(p, events[0].thread, events[0].choice) != p
      && (StepInv(p, events[0].thread, events[0].choice);
          Effective(Step(p, events[0].thread, events[0].choice), events[1..]))
  }

  /** How many of the events begin a call. */
  ghost function CallsBegun(p: Pool, events: seq<Event>): nat
    requires PoolInv(p)
    decreases |events|
  {
    if events == [] then 0
    else
      StepInv(p, events[0].thread, events[0].choice);
      (if BeginsCall(p, events[0]) then 1 else 0)
      + CallsBegun(Step(p, events[0].thread, events[0].choice), events[1..])
  }

  /** The steps a closed pool may still make: the work left, and as much again as one thread
      can have to do for each call begun. */
  ghost function Allowance(p: Pool, events: seq<Event>): nat
    requires PoolInv(p)
  {
    LengthsOf(p);
    Work(p) + Times(CallsBegun(p, events), p.workers + 19)
  }

  function Times(n: nat, price: nat): nat {
    n * price
  }

  lemma TimesNext(n: nat, price: nat)
    ensures Times(n + 1, price) == Times(n, price) + price
  {
  }

  lemma AllowanceDrops(p: Pool, events: seq<Event>)
    requires PoolInv(p) && p.queue.closed && events != []
    requires Step(p, events[0].thread, events[0].choice) != p
    ensures var r := Step(p, events[0].thread, events[0].choice);
      && PoolInv(r) && r.queue.closed && r.workers == p.workers
      && Allowance(r, events[1..]) < Allowance(p, events)
  {
    hide Inv, Calls, Stops, Tasks, Runs, Step, BeginsCall, Work, Times;
    var e := events[0];
    LengthsOf(p);
    StepInv(p, e.thread, e.choice);
    EventUsesWork(p, e);
    TimesNext(CallsBegun(Step(p, e.thread, e.choice), events[1..]), p.workers + 19);
  }

  /** However the threads are scheduled and whatever they choose, a closed pool makes no more
      steps than its allowance. */
  lemma {:induction false} DrainIsBounded(p: Pool, events: seq<Event>)
    requires PoolInv(p) && p.queue.closed && Effective(p, events)
    ensures |events| <= Allowance(p, events)
    ensures AfterEvents(p, events).queue.closed && AfterEvents(p, events).workers == p.workers
    decreases |events|
  {
    if events != [] {
      hide Inv, Stops, Tasks, Runs, Step, Allowance;
      AllowanceDrops(p, events);
      DrainIsBounded(Step(p, events[0].thread, events[0].choice), events[1..]);
    }
  }

  lemma SettledIsFinished(p: Pool)
    requires PoolInv(p) && p.queue.closed && Settled(p)
    ensures AllExited(p)
    ensures p.workers > 0 ==> multiset(p.finished) == multiset(p.queue.pushed)
  {
    assert AllExited(p);
    ExitedIsFinished(p);
  }

  /** A way to rest: events that only end tasks and move threads on, no more of them than the
      work left, after which no call is under way and all workers have exited. */
  ghost predicate ComesToRest(p: Pool, more: seq<Event>)
    requires PoolInv(p)
  {
    && (forall k :: 0 <= k < |more| ==> more[k].choice == EndTask)
    && Effective(p, more) && |p.points| == |p.queue.pcs| && |more| <= Work(p)
    && Settled(AfterEvents(p, more))
  }

  /** A thread that can move leaves a closed pool with less work. */
  lemma StirringUsesWork(p: Pool, t: nat)
    requires PoolInv(p) && p.queue.closed && Stirs(p, t)
    ensures |p.points| == |p.queue.pcs|
    ensures var r := Step(p, t, EndTask);
      PoolInv(r) && r.queue.closed && |r.points| == |r.queue.pcs| && Work(r) < Work(p)
  {
    hide Inv, Calls, Stops, Tasks, Runs, Step, Work;
    LengthsOf(p);
    StepInv(p, t, EndTask);
    StepUsesWork(p, t);
    RunsOnClosed(p, Event(t, EndTask));
  }

  lemma RestFirst(p: Pool, t: nat, rest: seq<Event>)
    requires PoolInv(p) && p.queue.closed && Stirs(p, t)
    requires PoolInv(Step(p, t, EndTask)) && ComesToRest(Step(p, t, EndTask), rest)
    ensures ComesToRest(p, [Event(t, EndTask)] + rest)
  {
    hide Inv, Stops, Tasks, Runs, Step, Settled, Work;
    StirringUsesWork(p, t);
    var more := [Event(t, EndTask)] + rest;
    assert more[0] == Event(t, EndTask) && more[1..] == rest;
  }

  lemma AtRest(p: Pool)
    requires PoolInv(p) && Settled(p)
    ensures ComesToRest(p, [])
  {
    hide Inv, Stops, Tasks, Runs, Settled;
    LengthsOf(p);
    assert AfterEvents(p, []) == p;
  }

  /** From every state of a closed pool there is a way to rest. */
  lemma {:induction false} RestIsReachable(p: Pool)
    requires PoolInv(p) && p.queue.closed
    ensures exists more :: ComesToRest(p, more)
    decreases if |p.points| == |p.queue.pcs| then Work(p) else 0
  {
    hide Inv, Stops, Tasks, Runs, Step, Stirs, Settled, Work, ComesToRest;
    if Settled(p) {
      AtRest(p);
    } else {
      SomeoneStirs(p);
      var t: nat :| Stirs(p, t);
      StirringUsesWork(p, t);
      RestIsReachable(Step(p, t, EndTask));
      var rest :| ComesToRest(Step(p, t, EndTask), rest);
      RestFirst(p, t, rest);
    }
  }

  /** Once the pool is closed, stop returns unless threads begin calls for ever: every schedule
      is bounded by the work that was left and the calls begun since; after it a schedule
      without new calls leads to rest; and at rest, in a pool with workers, each task pushed
      has been run exactly once. */
  lemma DrainCompletes(p: Pool, events: seq<Event>)
    requires PoolInv(p) && p.queue.closed && Effective(p, events)
    ensures |events| <= Allowance(p, events)
    ensures var r := AfterEvents(p, events);
      && (exists more :: ComesToRest(r, more))
      && forall more :: ComesToRest(r, more) && p.workers > 0 ==>
           var q := AfterEvents(r, more);
           AllExited(q) && multiset(q.finished) == multiset(q.queue.pushed)
  {
    hide Inv, Stops, Tasks, Runs, Step, Settled, Stirs, ComesToRest;
    DrainIsBounded(p, events);
    var r := AfterEvents(p, events);
    RestIsReachable(r);
    forall more | ComesToRest(r, more)
      ensures var q := AfterEvents(r, more);
        q.workers == r.workers && AllExited(q) && (r.workers > 0 ==> multiset(q.finished) == multiset(q.queue.pushed))
    {
      RestIsFinished(r, more);
    }
  }

  lemma RestIsFinished(p: Pool, more: seq<Event>)
    requires PoolInv(p) && p.queue.closed && ComesToRest(p, more)
    ensures var q := AfterEvents(p, more);
      q.workers == p.workers && AllExited(q) && (p.workers > 0 ==> multiset(q.finished) == multiset(q.queue.pushed))
  {
    hide Inv, Stops, Tasks, Runs, Step, Settled, Work, Allowance;
    DrainIsBounded(p, more);
    SettledIsFinished(AfterEvents(p, more));
  }
}
