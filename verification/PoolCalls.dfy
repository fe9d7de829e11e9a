/** What single calls on the pool do: when submit may refuse, and how submit, stop and a worker
    end when their thread alone moves. */
module PoolCalls {
  import opened Outcomes
  import opened Queues
  import opened QueueCalls
  import opened ThreadPools

  // ---- when submit refuses ----

  /** The first check of submit turns away exactly when the pool is stopped. */
  lemma FirstCheck(p: Pool, t: nat, c: Choice)
    requires PoolInv(p) && t < |p.points| && p.points[t].SubmitCheck?
    ensures var r, w := Step(p, t, c), p.points[t].within;
      && t < |r.points| && r.accepted == p.accepted && r.queue.pushed == p.queue.pushed
      && r.points[t] == if p.stopped then Back(w) else SubmitPush(p.made, w)
  {
    hide Inv, Next, Stops, Tasks, Runs;
    CallFacts(p, t);
    hide Calls;
    QueueStepped(p.queue, t, BeginPush(p.made));
  }

  /** A thread that leaves the push of its task has a future for it, or the pool is stopped. */
  lemma LeavesPush(p: Pool, t: nat, c: Choice)
    requires PoolInv(p) && t < |p.points| && p.points[t].SubmitPush?
    ensures var r, v := Step(p, t, c), p.points[t].task;
      && t < |r.points|
      && (r.points[t] != p.points[t] ==>
            && r.points[t] == Back(p.points[t].within)
            && if p.queue.pcs[t] == Idle(Accepted(v)) then r.accepted == p.accepted + [v] && v in p.queue.pushed
               else p.stopped && r.accepted == p.accepted)
  {
    hide Inv, Next, Stops, Tasks, Runs;
    CallFacts(p, t);
    hide Calls;
    ThreadFacts(p.queue, t);
  }

  // ---- events of one thread ----

  /** Thread t makes a choice and then n steps. */
  function SoloEvents(t: nat, c: Choice, n: nat): seq<Event> {
    [Event(t, c)] + seq(n, _ => Event(t, Run))
  }

  lemma SoloEventNext(p: Pool, t: nat, c: Choice, n: nat)
    requires PoolInv(p)
    ensures PoolInv(AfterEvents(p, SoloEvents(t, c, n)))
    ensures AfterEvents(p, SoloEvents(t, c, n + 1)) == Step(AfterEvents(p, SoloEvents(t, c, n)), t, Run)
  {
    hide Inv, Stops, Tasks, Runs, Step;
    assert SoloEvents(t, c, n + 1) == SoloEvents(t, c, n) + [Event(t, Run)];
    AfterOneEvent(p, SoloEvents(t, c, n), Event(t, Run));
  }

  lemma SoloEventFirst(p: Pool, t: nat, c: Choice)
    requires PoolInv(p)
    ensures AfterEvents(p, SoloEvents(t, c, 0)) == Step(p, t, c)
  {
    hide Inv, Stops, Tasks, Runs, Step;
    assert SoloEvents(t, c, 0) == [] + [Event(t, c)];
    AfterOneEvent(p, [], Event(t, c));
    assert AfterEvents(p, []) == p;
  }

  // ---- submit ----

  function SubmitSteps(point: Point, pc: Pc<nat>): nat {
    if point.SubmitCheck? then 10 else if point.SubmitPush? then PushSteps(pc) + 1 else 0
  }

  /** Where a submit of thread t may be that began in p and alone has moved since. */
  ghost predicate SoloSubmit(p: Pool, r: Pool, t: nat, w: Option<nat>) {
    && t < |r.points| == |r.queue.pcs| && r.stopped == p.stopped
    && match r.points[t]
       case SubmitCheck(x) =>
         x == w && r.queue == p.queue && r.made == p.made && r.accepted == p.accepted
       case SubmitPush(v, x) =>
         x == w && v == p.made && !p.stopped && SoloPush(p.queue, r.queue, t, v) && r.accepted == p.accepted
       case _ => SubmitEnds(p, r, t, w)
  }

  /** Turned away by a stopped pool; else returned with a future for the task now in the queue. */
  ghost predicate SubmitEnds(p: Pool, r: Pool, t: nat, w: Option<nat>) {
    && t < |r.points| && r.points[t] == Back(w)
    && r.accepted == (if p.stopped then p.accepted else p.accepted + [p.made])
    && r.queue.pushed == (if p.stopped then p.queue.pushed else p.queue.pushed + [p.made])
  }

  lemma SoloSubmitStep(p: Pool, r: Pool, t: nat, w: Option<nat>)
    requires Closes(p) && PoolInv(r) && SoloSubmit(p, r, t, w) && p.queue.tailLock == None
    requires r.points[t].SubmitCheck? || r.points[t].SubmitPush?
    ensures var q := Step(r, t, Run);
      && SoloSubmit(p, q, t, w)
      && SubmitSteps(q.points[t], q.queue.pcs[t]) < SubmitSteps(r.points[t], r.queue.pcs[t])
  {
    hide Inv, Next, Stops, Tasks, Runs, SoloPush, PushSteps;
    CallFacts(r, t);
    LengthsOf(r);
    hide Calls;
    if r.points[t].SubmitCheck? {
      if !r.stopped { CheckPasses(r, t); }
    } else {
      PushGoes(p, r, t);
    }
  }

  lemma CheckPasses(r: Pool, t: nat)
    requires Inv(r.queue) && t < |r.queue.pcs| && r.queue.pcs[t].Idle? && r.queue.tailLock == None
    ensures var q := Next(r.queue, t, BeginPush(r.made));
      && SoloPush(r.queue, q, t, r.made) && |q.pcs| == |r.queue.pcs| && PushSteps(q.pcs[t]) == 8
  {
    hide Inv, SoloPush, Next;
    SoloPushBegins(r.queue, t, r.made);
    ChainMoves(r.queue, t, BeginPush(r.made));
  }

  lemma PushGoes(p: Pool, r: Pool, t: nat)
    requires Inv(r.queue) && t < |r.queue.pcs| && SoloPush(p.queue, r.queue, t, p.made)
    ensures if r.queue.pcs[t].Idle?
            then r.queue.pcs[t].outcome == (if p.queue.closed then Rejected(p.made) else Accepted(p.made))
                 && PushDone(p.queue, r.queue, p.made)
            else var q := Next(r.queue, t, Go);
                 && SoloPush(p.queue, q, t, p.made) && |q.pcs| == |r.queue.pcs|
                 && PushSteps(q.pcs[t]) < PushSteps(r.queue.pcs[t])
  {
    if !r.queue.pcs[t].Idle? {
      hide Inv, SoloPush, Next;
      SoloPushNext(p.queue, r.queue, t, p.made);
      ChainMoves(r.queue, t, Go);
    }
  }

  /** A client at rest, or a worker running a task, may submit. */
  predicate MaySubmit(point: Point) {
    point.Client? || point.WorkerRun?
  }

  function Within(point: Point): Option<nat> {
    if point.WorkerRun? then Some(point.running) else None
  }

  lemma SubmitBegins(p: Pool, t: nat)
    requires PoolInv(p) && t < |p.points| && MaySubmit(p.points[t])
    ensures var r, w := Step(p, t, Submit), Within(p.points[t]);
      SoloSubmit(p, r, t, w) && r.points[t].SubmitCheck?
  {
    hide Inv, Stops, Tasks, Runs;
    LengthsOf(p);
    hide Calls;
  }

  lemma SubmitSettles(p: Pool, r: Pool, t: nat, w: Option<nat>)
    requires SoloSubmit(p, r, t, w)
    ensures t < |r.points| == |r.queue.pcs|
    ensures !r.points[t].SubmitCheck? && !r.points[t].SubmitPush? ==> SubmitEnds(p, r, t, w)
    ensures SubmitSteps(r.points[t], r.queue.pcs[t]) <= 10
  {
  }

  /** From any state with the tail lock of the queue free, a submit whose thread alone moves is
      turned away by a stopped pool, which stays as it was; else it returns a future for a new
      task, which is then in the queue. */
  lemma SubmitAlone(p: Pool, t: nat)
    requires PoolInv(p) && t < |p.points| && MaySubmit(p.points[t]) && p.queue.tailLock == None
    ensures exists n: nat :: n <= 10 && SubmitEnds(p, AfterEvents(p, SoloEvents(t, Submit, n)), t, Within(p.points[t]))
  {
    hide Inv, Stops, Tasks, Runs, Step, SoloSubmit, SubmitEnds, SubmitSteps;
    var w, n := Within(p.points[t]), 0;
    SoloEventFirst(p, t, Submit);
    SubmitBegins(p, t);
    var r := Step(p, t, Submit);
    SubmitSettles(p, r, t, w);
    while r.points[t].SubmitCheck? || r.points[t].SubmitPush?
      invariant r == AfterEvents(p, SoloEvents(t, Submit, n)) && SoloSubmit(p, r, t, w)
      invariant t < |r.points| == |r.queue.pcs| && SubmitSteps(r.points[t], r.queue.pcs[t]) + n <= 10
      invariant !r.points[t].SubmitCheck? && !r.points[t].SubmitPush? ==> SubmitEnds(p, r, t, w)
      decreases 10 - n
    {
      SoloEventNext(p, t, Submit, n);
      SoloSubmitStep(p, r, t, w);
      r := Step(r, t, Run);
      SubmitSettles(p, r, t, w);
      n := n + 1;
    }
  }

  // ---- stop ----

  /** The calls of stop by one thread, up to the joins. */
  lemma StopStepAlone(p: Pool, t: nat)
    requires PoolInv(p) && t < |p.points|
    requires p.points[t].StopCheck? || p.points[t].StopStore? || p.points[t].StopClose?
    ensures var r := Step(p, t, Run);
      && t < |r.points|
      && r.points[t] == (if p.points[t].StopCheck? then if p.stopped then StopUnlock else StopStore
                         else if p.points[t].StopStore? then StopClose else StopJoin(0))
      && r.stopped == (p.stopped || p.points[t].StopStore?)
      && (p.points[t].StopClose? ==> r.queue.closed)
  {
    hide Inv, Next, Stops, Tasks, Runs;
    CallFacts(p, t);
    hide Calls;
    if p.points[t].StopClose? { NextCloses(p.queue, t, Go); }
  }

  lemma StopEnters(p: Pool, t: nat)
    requires PoolInv(p) && t < |p.points| && p.points[t].Client? && p.stopLock == None
    ensures var q := Step(p, t, Stop);
      && PoolInv(q) && t < |q.points| && q.points[t].StopEnter?
      && var r := Step(q, t, Run); t < |r.points| && r.points[t].StopCheck? && r.stopped == p.stopped
  {
    StepInv(p, t, Stop);
    hide Inv, Stops, Tasks, Runs;
    LengthsOf(p);
  }

  /** A thread waiting to join goes on past a worker that has exited, and returns after the
      last one. */
  lemma JoinsExited(p: Pool, t: nat)
    requires PoolInv(p) && t < |p.points| && p.points[t].StopJoin?
    ensures var i, r := p.points[t].joined, Step(p, t, Run);
      && t < |r.points|
      && if i >= p.workers then r.points[t] == StopUnlock
         else r.points[t] == if p.points[i].WorkerExited? then StopJoin(i + 1) else StopJoin(i)
  {
    hide Inv, Stops, Tasks, Runs;
    LengthsOf(p);
    hide Calls;
  }

  lemma UnlocksAndReturns(p: Pool, t: nat)
    requires PoolInv(p) && t < |p.points| && p.points[t].StopUnlock?
    ensures var r := Step(p, t, Run);
      t < |r.points| && r.points[t] == Client && r.stopReturned && r.stopLock == None
  {
    hide Inv, Stops, Tasks, Runs;
    LengthsOf(p);
    hide Calls;
  }

  /** From any state with the stop lock free, a call of stop whose thread alone moves has stopped
      the pool and closed the queue after four steps, and goes on to join; on a pool that is
      stopped already it returns after three. */
  lemma StopAlone(p: Pool, t: nat)
    requires PoolInv(p) && t < |p.points| && p.points[t].Client? && p.stopLock == None
    ensures var r := AfterEvents(p, SoloEvents(t, Stop, if p.stopped then 3 else 4));
      && t < |r.points| && r.stopped
      && if p.stopped then r.points[t] == Client && r.stopReturned else r.points[t] == StopJoin(0) && r.queue.closed
  {
    hide Inv, Calls, Stops, Tasks, Runs, Step;
    SoloEventFirst(p, t, Stop);
    SoloEventNext(p, t, Stop, 0);
    SoloEventNext(p, t, Stop, 1);
    SoloEventNext(p, t, Stop, 2);
    SoloEventNext(p, t, Stop, 3);
    StopEnters(p, t);
    StopStepAlone(AfterEvents(p, SoloEvents(t, Stop, 1)), t);
    if p.stopped {
      UnlocksAndReturns(AfterEvents(p, SoloEvents(t, Stop, 2)), t);
      StoppedStays(AfterEvents(p, SoloEvents(t, Stop, 2)), t, Run);
    } else {
      StopStepAlone(AfterEvents(p, SoloEvents(t, Stop, 2)), t);
      StopStepAlone(AfterEvents(p, SoloEvents(t, Stop, 3)), t);
    }
  }

  lemma StoppedStays(p: Pool, t: nat, c: Choice)
    requires PoolInv(p) && t < |p.points| && p.stopped
    ensures Step(p, t, c).stopped
  {
    hide Inv, Stops, Tasks, Runs;
    LengthsOf(p);
    StepKeepsStopped(p, t, c);
  }

  // ---- a worker ----

  function WorkSteps(point: Point, pc: Pc<nat>): nat {
    if point.WorkerLoop? then 16 else if point.WorkerPop? then PopSteps(pc) + 1 else 0
  }

  /** Where worker t may be that asked for a task in p and alone has moved since. */
  ghost predicate SoloWork(p: Pool, r: Pool, t: nat)
    requires Inv(p.queue)
  {
    && Chained(p.queue) && t < |r.points| == |r.queue.pcs| && r.finished == p.finished
    && match r.points[t]
       case WorkerLoop => r.queue == p.queue
       case WorkerPop => SoloPop(p.queue, r.queue, t, Wait)
       case _ => WorkEnds(p, r, t)
  }

  /** Running the task that was first in the queue, or gone when there was none. */
  ghost predicate WorkEnds(p: Pool, r: Pool, t: nat)
    requires Inv(p.queue)
  {
    && Chained(p.queue) && t < |r.points|
    && r.points[t] == if Queued(p.queue) != [] then WorkerRun(Queued(p.queue)[0]) else WorkerExited
  }

  /** There is a task to take, or none and no more to come. */
  ghost predicate Decided(p: Pool)
    requires Inv(p.queue)
  {
    Chained(p.queue) && (Queued(p.queue) != [] || p.queue.closed)
  }

  lemma LoopGoes(p: Pool, t: nat)
    requires Inv(p.queue) && Chained(p.queue) && t < |p.queue.pcs| && p.queue.pcs[t].Idle?
    requires p.queue.headLock == None && p.queue.tailLock == None
    ensures var q := Next(p.queue, t, BeginPop(Wait));
      && SoloPop(p.queue, q, t, Wait) && |q.pcs| == |p.queue.pcs| && PopSteps(q.pcs[t]) == 14
  {
    hide Inv, SoloPop, Next;
    PopBegins(p.queue, t, Wait);
    ChainMoves(p.queue, t, BeginPop(Wait));
  }

  /** A pop of a decided queue never sleeps, and ends with the first task or "drained". */
  lemma PopGoes(p: Pool, r: Pool, t: nat)
    requires Inv(p.queue) && Decided(p) && Inv(r.queue) && t < |r.queue.pcs| && SoloPop(p.queue, r.queue, t, Wait)
    ensures if r.queue.pcs[t].Idle?
            then r.queue.pcs[t].outcome == if Queued(p.queue) != [] then Got(Queued(p.queue)[0]) else Drained
            else var q := Next(r.queue, t, Go);
                 && SoloPop(p.queue, q, t, Wait) && |q.pcs| == |r.queue.pcs|
                 && PopSteps(q.pcs[t]) < PopSteps(r.queue.pcs[t])
  {
    if !r.queue.pcs[t].Idle? {
      assert !r.queue.pcs[t].PopSleep?;
      hide Inv, SoloPop, Next;
      SoloPopStep(p.queue, r.queue, t, Wait);
      ChainMoves(r.queue, t, Go);
    }
  }

  lemma SoloWorkStep(p: Pool, r: Pool, t: nat)
    requires Inv(p.queue) && Decided(p) && p.queue.headLock == None && p.queue.tailLock == None
    requires PoolInv(r) && SoloWork(p, r, t) && (r.points[t].WorkerLoop? || r.points[t].WorkerPop?)
    ensures var q := Step(r, t, Run);
      && SoloWork(p, q, t)
      && WorkSteps(q.points[t], q.queue.pcs[t]) < WorkSteps(r.points[t], r.queue.pcs[t])
  {
    hide Inv, Next, Stops, Tasks, Runs, SoloPop, PopSteps;
    CallFacts(r, t);
    LengthsOf(r);
    hide Calls;
    if r.points[t].WorkerLoop? { LoopGoes(p, t); } else { PopGoes(p, r, t); }
  }

  lemma WorkSettles(p: Pool, r: Pool, t: nat)
    requires Inv(p.queue) && SoloWork(p, r, t)
    ensures t < |r.points| == |r.queue.pcs| && r.finished == p.finished
    ensures !r.points[t].WorkerLoop? && !r.points[t].WorkerPop? ==> WorkEnds(p, r, t)
    ensures WorkSteps(r.points[t], r.queue.pcs[t]) <= 16
  {
  }

  /** n steps of thread t. */
  function SoloRun(t: nat, n: nat): seq<Event> {
    seq(n, _ => Event(t, Run))
  }

  lemma SoloRunNext(p: Pool, t: nat, n: nat)
    requires PoolInv(p)
    ensures PoolInv(AfterEvents(p, SoloRun(t, n)))
    ensures AfterEvents(p, SoloRun(t, n + 1)) == Step(AfterEvents(p, SoloRun(t, n)), t, Run)
    ensures AfterEvents(p, SoloRun(t, 0)) == p
  {
    hide Inv, Stops, Tasks, Runs, Step;
    assert SoloRun(t, n + 1) == SoloRun(t, n) + [Event(t, Run)];
    AfterOneEvent(p, SoloRun(t, n), Event(t, Run));
  }

  lemma WorkBegins(p: Pool, t: nat)
    requires PoolInv(p) && t < |p.points| && p.points[t].WorkerLoop?
    ensures SoloWork(p, p, t)
  {
    LengthsOf(p);
    ChainedOf(p.queue);
    hide Inv, Calls;
  }

  ghost function AfterRun(p: Pool, t: nat, n: nat): (r: Pool)
    requires PoolInv(p)
    ensures PoolInv(r)
  {
    AfterEvents(p, SoloRun(t, n))
  }

  /** After n steps the worker is on its way, with so many steps left at most. */
  ghost predicate WorkingOn(p: Pool, t: nat, n: nat, left: nat)
    requires PoolInv(p)
  {
    var r := AfterRun(p, t, n);
    SoloWork(p, r, t) && WorkSteps(r.points[t], r.queue.pcs[t]) == left
  }

  lemma WorkAdvances(p: Pool, t: nat, n: nat, left: nat) returns (less: nat)
    requires PoolInv(p) && Decided(p) && p.queue.headLock == None && p.queue.tailLock == None
    requires WorkingOn(p, t, n, left) && left > 0
    ensures less < left && WorkingOn(p, t, n + 1, less)
  {
    hide Inv, Stops, Tasks, Runs, Step, SoloWork, Decided, PopSteps;
    var r := AfterRun(p, t, n);
    WorkSettles(p, r, t);
    SoloRunNext(p, t, n);
    SoloWorkStep(p, r, t);
    var q := AfterRun(p, t, n + 1);
    WorkSettles(p, q, t);
    less := WorkSteps(q.points[t], q.queue.pcs[t]);
  }

  lemma WorkStarts(p: Pool, t: nat)
    requires PoolInv(p) && t < |p.points| && p.points[t].WorkerLoop?
    ensures WorkingOn(p, t, 0, 16)
  {
    hide Inv, Stops, Tasks, Runs, Step, SoloWork;
    SoloRunNext(p, t, 0);
    WorkBegins(p, t);
  }

  lemma WorkStops(p: Pool, t: nat, n: nat)
    requires PoolInv(p) && WorkingOn(p, t, n, 0)
    ensures WorkEnds(p, AfterRun(p, t, n), t)
  {
    hide Inv, Stops, Tasks, Runs, SoloWork;
    WorkSettles(p, AfterRun(p, t, n), t);
  }

  /** From any state with both locks of the queue free, a worker that asks for a task and alone
      moves is soon running the first one queued, or has exited when the queue is closed and
      holds none. */
  lemma WorkerAlone(p: Pool, t: nat)
    requires PoolInv(p) && t < |p.points| && p.points[t].WorkerLoop? && Decided(p)
    requires p.queue.headLock == None && p.queue.tailLock == None
    ensures exists n: nat :: n <= 16 && WorkEnds(p, AfterRun(p, t, n), t)
  {
    hide PoolInv, WorkingOn, WorkEnds, Decided;
    var n, left: nat := 0, 16;
    WorkStarts(p, t);
    while left > 0
      invariant WorkingOn(p, t, n, left) && left + n <= 16
      decreases left
    {
      left := WorkAdvances(p, t, n, left);
      n := n + 1;
    }
    WorkStops(p, t, n);
  }

  /** When its task ends, it is finished, and the worker asks for the next. */
  lemma TaskEnds(p: Pool, t: nat)
    requires PoolInv(p) && t < |p.points| && p.points[t].WorkerRun?
    ensures var r := Step(p, t, EndTask);
      && t < |r.points| && r.points[t].WorkerLoop? && r.queue == p.queue
      && r.finished == p.finished + [p.points[t].running]
  {
    hide Inv, Stops, Tasks, Runs;
    LengthsOf(p);
  }
}
