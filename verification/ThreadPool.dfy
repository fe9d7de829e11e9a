/** The thread pool as a step system over the queue: workers loop on wait_and_pop, clients and
    running tasks submit, and clients stop the pool. Tasks are numbered as they are made. */
module ThreadPools {
  import opened Outcomes
  import opened Sequences
  import opened Queues

  /** Where a thread is in the pool's code; while it is inside a call on the queue, its program
      counter there says the rest. `within` is the task that a submitting worker is running. */
  datatype Point =
    | Client
    | SubmitCheck(within: Option<nat>)
    | SubmitPush(task: nat, within: Option<nat>)
    | StopEnter
    | StopCheck
    | StopStore
    | StopClose
    | StopJoin(joined: nat)
    | StopUnlock
    | WorkerLoop
    | WorkerPop
    | WorkerRun(running: nat)
    | WorkerExited

  /** accepted lists the tasks whose submit has returned a future, finished those that have
      been run, and stopReturned records that some call of stop has returned. Threads below
      `workers` are the workers. */
  datatype Pool = Pool(
    queue: State<nat>, workers: nat, points: seq<Point>, stopped: bool, stopLock: Option<nat>,
    made: nat, accepted: seq<nat>, finished: seq<nat>, stopReturned: bool)

  datatype Choice = Run | Submit | Stop | EndTask

  function Start(workers: nat, clients: nat): Pool {
    Pool(Init(workers + clients), workers, seq(workers + clients, t => if t < workers then WorkerLoop else Client),
         false, None, 0, [], [], false)
  }

  // ---- invariant ----

  /** Inside wait_and_pop, or just returned from it. */
  predicate InWait(pc: Pc<nat>) {
    match pc
    case PopLock(k) => k == Wait
    case PopPredicate(k) => k == Wait
    case TailLock(k, _) => k == Wait
    case TailRead(k, _) => k == Wait
    case TailUnlock(k, _, _) => k == Wait
    case Compare(k, _, _) => k == Wait
    case PopSleep(k) => k == Wait
    case PopTake => true
    case PopAdvance(_) => true
    case PopUnlock(_) => true
    case PopValue(_) => true
    case PopGiveUp(o) => o == Drained
    case Idle(o) => o.Got? || o.Drained?
    case _ => false
  }

  /** Inside push, before its task is in the queue. */
  predicate Unpushed(pc: Pc<nat>) {
    pc.PushCheck? || pc.PushAllocate? || HasMade(pc)
  }

  /** Inside push of v, or just returned from it. */
  predicate InPush(pc: Pc<nat>, v: nat) {
    || ((Unpushed(pc) || pc.PushUnlock?) && pc.value == v)
    || pc == Idle(Accepted(v)) || pc == Idle(Rejected(v))
  }

  predicate IsWorker(point: Point) {
    || point.WorkerLoop? || point.WorkerPop? || point.WorkerRun? || point.WorkerExited?
    || (point.SubmitCheck? && point.within.Some?) || (point.SubmitPush? && point.within.Some?)
  }

  predicate InStop(point: Point) {
    point.StopCheck? || point.StopStore? || point.StopClose? || point.StopJoin? || point.StopUnlock?
  }

  predicate CallOk(point: Point, pc: Pc<nat>, drained: bool) {
    match point
    case WorkerPop => InWait(pc) && (pc == Idle(Drained) ==> drained)
    case SubmitPush(v, _) => InPush(pc, v)
    case StopClose => pc == CloseStore
    case WorkerExited => pc.Idle? && drained
    case _ => pc.Idle?
  }

  /** Each thread is where its role allows, in the pool and in the queue. */
  predicate Calls(p: Pool) {
    && |p.points| == |p.queue.pcs| && p.workers <= |p.points|
    && (forall t :: 0 <= t < |p.points| ==>
          (t < p.workers <==> IsWorker(p.points[t])) && CallOk(p.points[t], p.queue.pcs[t], p.queue.drained))
  }

  predicate AllExited(p: Pool)
    requires p.workers <= |p.points|
  {
    forall j :: 0 <= j < p.workers ==> p.points[j].WorkerExited?
  }

  function StopOwner(p: Pool): Point {
    if p.stopLock.Some? && p.stopLock.value < |p.points| then p.points[p.stopLock.value] else Client
  }

  /** The stop lock is held by the thread inside stop; whoever holds it with stopped set is
      still closing and joining, or all workers have exited. */
  predicate Stops(p: Pool)
    requires p.workers <= |p.points|
  {
    && (forall t :: 0 <= t < |p.points| ==> (InStop(p.points[t]) <==> p.stopLock == Some(t)))
    && (p.stopLock.Some? ==> p.stopLock.value < |p.points|)
    && (p.stopped && !AllExited(p) ==> StopOwner(p).StopClose? || StopOwner(p).StopJoin?)
    && (StopOwner(p).StopUnlock? ==> p.stopped && AllExited(p))
    && (StopOwner(p).StopJoin? ==> StopOwner(p).joined <= p.workers && p.stopped)
    && (StopOwner(p).StopClose? ==> p.stopped)
    && (StopOwner(p).StopJoin? ==> forall j :: 0 <= j < StopOwner(p).joined ==> p.points[j].WorkerExited?)
    && (p.stopReturned ==> p.stopped && AllExited(p))
  }

  /** No task is in two hands before it is in the queue, or enters the queue twice. */
  predicate Tasks(p: Pool)
    requires |p.points| == |p.queue.pcs|
  {
    && (forall t :: 0 <= t < |p.points| && p.points[t].SubmitPush? ==> TaskNew(p, p.points[t].task, p.queue.pcs[t]))
    && (forall t, u :: 0 <= t < u < |p.points| && p.points[t].SubmitPush? && p.points[u].SubmitPush? ==>
          p.points[t].task != p.points[u].task)
    && Distinct(p.queue.pushed) && Distinct(p.accepted)
    && (forall v :: v in p.accepted ==> v in p.queue.pushed)
    && (forall v :: v in p.queue.pushed ==> v < p.made)
  }

  predicate TaskNew(p: Pool, task: nat, pc: Pc<nat>) {
    task < p.made && task !in p.accepted && (Unpushed(pc) ==> task !in p.queue.pushed)
  }

  /** The task a worker has popped and not finished. */
  function Holding(point: Point, pc: Pc<nat>): Option<nat> {
    match point
    case WorkerRun(v) => Some(v)
    case SubmitCheck(w) => w
    case SubmitPush(_, w) => w
    case WorkerPop => if pc.Idle? && pc.outcome.Got? then Some(pc.outcome.value) else None
    case _ => None
  }

  ghost function Running(point: Point, pc: Pc<nat>): multiset<nat> {
    var task := Holding(point, pc);
    if task.Some? then multiset{task.value} else multiset{}
  }

  ghost function AllRunning(points: seq<Point>, pcs: seq<Pc<nat>>): multiset<nat>
    requires |points| == |pcs|
  {
    if points == [] then multiset{}
    else
      var n := |points| - 1;
      AllRunning(points[..n], pcs[..n]) + Running(points[n], pcs[n])
  }

  ghost predicate Runs(p: Pool)
    requires |p.points| == |p.queue.pcs|
  {
    && multiset(p.queue.returned) == multiset(p.finished) + AllRunning(p.points, p.queue.pcs)
    && (p.workers == 0 ==> p.queue.returned == [])
  }

  /** Only stop closes the queue, and it sets the flag first. */
  predicate Closes(p: Pool) {
    p.queue.closed ==> p.stopped
  }

  ghost predicate PoolInv(p: Pool) {
    Inv(p.queue) && Calls(p) && Stops(p) && Closes(p) && Tasks(p) && Runs(p)
  }

  lemma StartInv(workers: nat, clients: nat)
    ensures PoolInv(Start(workers, clients))
  {
    hide Inv, AllRunning, Running;
    InitInv<nat>(workers + clients);
    StartRunsNothing(workers, clients);
  }

  lemma StartRunsNothing(workers: nat, clients: nat)
    ensures var p := Start(workers, clients);
      |p.points| == |p.queue.pcs| && AllRunning(p.points, p.queue.pcs) == multiset{}
  {
    NoneRunning(Start(workers, clients).points, Start(workers, clients).queue.pcs);
  }

  lemma {:induction false} NoneRunning(points: seq<Point>, pcs: seq<Pc<nat>>)
    requires |points| == |pcs| && forall t :: 0 <= t < |points| ==> Running(points[t], pcs[t]) == multiset{}
    ensures AllRunning(points, pcs) == multiset{}
  {
    if points != [] { NoneRunning(points[..|points| - 1], pcs[..|pcs| - 1]); }
  }

  // ---- steps ----

  function Back(within: Option<nat>): Point {
    if within.Some? then WorkerRun(within.value) else Client
  }

  function AtPoint(p: Pool, t: nat, point: Point): Pool
    requires t < |p.points|
  {
    p.(points := p.points[t := point])
  }

  /** Thread t makes a step inside the queue. */
  function InQueue(p: Pool, t: nat, m: Move<nat>): Pool
    requires Inv(p.queue)
  {
    p.(queue := Next(p.queue, t, m))
  }

  function SubmitStep(p: Pool, t: nat): Pool
    requires Inv(p.queue) && t < |p.points| == |p.queue.pcs|
  {
    match p.points[t]
    case SubmitCheck(w) =>
      if p.stopped then AtPoint(p, t, Back(w))
      else AtPoint(InQueue(p, t, BeginPush(p.made)).(made := p.made + 1), t, SubmitPush(p.made, w))
    case SubmitPush(v, w) =>
      if p.queue.pcs[t] == Idle(Accepted(v)) then AtPoint(p.(accepted := p.accepted + [v]), t, Back(w))
      else if p.queue.pcs[t].Idle? then AtPoint(p, t, Back(w))
      else InQueue(p, t, Go)
    case _ => p
  }

  function StopStep(p: Pool, t: nat): Pool
    requires Inv(p.queue) && t < |p.points| && p.workers <= |p.points|
  {
    match p.points[t]
    case StopEnter => if p.stopLock == None then AtPoint(p.(stopLock := Some(t)), t, StopCheck) else p
    case StopCheck => AtPoint(p, t, if p.stopped then StopUnlock else StopStore)
    case StopStore => AtPoint(InQueue(p, t, BeginClose).(stopped := true), t, StopClose)
    case StopClose => AtPoint(InQueue(p, t, Go), t, StopJoin(0))
    case StopJoin(i) =>
      if i >= p.workers then AtPoint(p, t, StopUnlock)
      else if p.points[i].WorkerExited? then AtPoint(p, t, StopJoin(i + 1))
      else p
    case StopUnlock => AtPoint(p.(stopLock := None, stopReturned := true), t, Client)
    case _ => p
  }

  function WorkerStep(p: Pool, t: nat, c: Choice): Pool
    requires Inv(p.queue) && t < |p.points| == |p.queue.pcs|
  {
    match p.points[t]
    case WorkerLoop => AtPoint(InQueue(p, t, BeginPop(Wait)), t, WorkerPop)
    case WorkerPop =>
      (match p.queue.pcs[t]
       case Idle(Got(v)) => AtPoint(p, t, WorkerRun(v))
       case Idle(_) => AtPoint(p, t, WorkerExited)
       case _ => InQueue(p, t, Go))
    case WorkerRun(v) =>
      if c == EndTask then AtPoint(p.(finished := p.finished + [v]), t, WorkerLoop)
      else if c == Submit then AtPoint(p, t, SubmitCheck(Some(v)))
      else p
    case _ => p
  }

  /** One step of thread t: c is what a client at rest or a running task does next. */
  function Step(p: Pool, t: nat, c: Choice): Pool
    requires Inv(p.queue) && |p.points| == |p.queue.pcs| && p.workers <= |p.points|
  {
    if t >= |p.points| then p
    else
      match p.points[t]
      case Client =>
        if c == Submit then AtPoint(p, t, SubmitCheck(None))
        else if c == Stop then AtPoint(p, t, StopEnter)
        else p
      case SubmitCheck(_) => SubmitStep(p, t)
      case SubmitPush(_, _) => SubmitStep(p, t)
      case _ => if IsWorker(p.points[t]) then WorkerStep(p, t, c) else StopStep(p, t)
  }

  // ---- what a step of the queue does ----

  /** The pool's view of a step q to r of thread t in the queue. */
  ghost predicate Stepped(q: State<nat>, r: State<nat>, t: nat, m: Move<nat>) {
    && t < |q.pcs| == |r.pcs| && r.pcs == q.pcs[t := r.pcs[t]]
    && PushesAlike(q, r, q.pcs[t], r.pcs[t]) && PopsAlike(q, r, q.pcs[t], r.pcs[t])
    && (q.pcs[t].CloseStore? ==> r.pcs[t].Idle?)
    && (q.pcs[t].Idle? ==> Begins(q.pcs[t], r.pcs[t], m))
  }

  predicate Begins(pc: Pc<nat>, now: Pc<nat>, m: Move<nat>) {
    match m
    case BeginPush(v) => now == PushCheck(v)
    case BeginPop(k) => now == PopLock(k)
    case BeginClose => now == CloseStore
    case _ => now == pc
  }

  predicate PushesAlike(q: State<nat>, r: State<nat>, pc: Pc<nat>, now: Pc<nat>) {
    && r.pushed == (if pc.PushTail? then q.pushed + [pc.value] else q.pushed)
    && (pc.PushTail? ==> !Unpushed(now))
    && (Unpushed(now) ==> Unpushed(pc) || pc.Idle?)
    && (!pc.Idle? && (Unpushed(pc) || pc.PushUnlock?) ==> InPush(now, pc.value))
  }

  predicate PopsAlike(q: State<nat>, r: State<nat>, pc: Pc<nat>, now: Pc<nat>) {
    && (q.drained ==> r.drained) && (now == Idle(Drained) && !pc.Idle? ==> r.drained)
    && (!pc.Idle? && InWait(pc) ==> InWait(now))
    && if pc.PopValue? then now.Idle? && now.outcome.Got? && r.returned == q.returned + [now.outcome.value]
       else r.returned == q.returned && (!pc.Idle? && now.Idle? ==> !now.outcome.Got?)
  }

  lemma PushStepped(s: State<nat>, t: nat)
    requires t < |s.pcs| && s.tail < |s.nodes|
    requires Unpushed(s.pcs[t]) || s.pcs[t].PushUnlock?
    ensures Stepped(s, PushStep(s, t), t, Go)
  {
  }

  lemma WaitStepped(s: State<nat>, t: nat, m: Move<nat>)
    requires t < |s.pcs| && !s.pcs[t].Idle? && !s.pcs[t].CloseStore? && !Unpushed(s.pcs[t]) && !s.pcs[t].PushUnlock?
    requires !s.pcs[t].PopValue? && (s.pcs[t].PopGiveUp? ==> !s.pcs[t].outcome.Got?)
    ensures Stepped(s, WaitStep(s, t, m), t, m)
  {
    WaitKeepsLogs(s, t, m);
    WaitLeads(s, t, m);
    hide WaitStep;
  }

  lemma WaitKeepsLogs(s: State<nat>, t: nat, m: Move<nat>)
    requires t < |s.pcs|
    ensures var r := WaitStep(s, t, m);
      && r.pcs == s.pcs[t := r.pcs[t]] && r.pushed == s.pushed && r.returned == s.returned
      && r.drained == (s.drained || (s.pcs[t].PopGiveUp? && s.pcs[t].outcome.Drained?))
  {
  }

  /** From one program point of a wait to the next. */
  predicate LeadsOn(pc: Pc<nat>, now: Pc<nat>) {
    && (now == pc || (!Unpushed(now) && !now.PushUnlock?))
    && (InWait(pc) ==> InWait(now))
    && (now.Idle? ==> pc.PopGiveUp? && now.outcome == pc.outcome)
  }

  lemma WaitLeads(s: State<nat>, t: nat, m: Move<nat>)
    requires t < |s.pcs| && !s.pcs[t].Idle?
    ensures LeadsOn(s.pcs[t], WaitStep(s, t, m).pcs[t])
  {
    match s.pcs[t] {
      case TailLock(_, _) => TailLeads(s, t, m);
      case TailRead(_, _) => TailLeads(s, t, m);
      case TailUnlock(_, _, _) => TailLeads(s, t, m);
      case Compare(_, _, _) => CompareLeadsOn(s, t, m);
      case PopLock(_) => HeadLeads(s, t, m);
      case PopPredicate(_) => HeadLeads(s, t, m);
      case PopSleep(_) => HeadLeads(s, t, m);
      case PopGiveUp(_) => HeadLeads(s, t, m);
      case _ =>
    }
  }

  lemma TailLeads(s: State<nat>, t: nat, m: Move<nat>)
    requires t < |s.pcs| && (s.pcs[t].TailLock? || s.pcs[t].TailRead? || s.pcs[t].TailUnlock?)
    ensures LeadsOn(s.pcs[t], WaitStep(s, t, m).pcs[t])
  {
  }

  lemma CompareLeadsOn(s: State<nat>, t: nat, m: Move<nat>)
    requires t < |s.pcs| && s.pcs[t].Compare?
    ensures LeadsOn(s.pcs[t], WaitStep(s, t, m).pcs[t])
  {
  }

  lemma HeadLeads(s: State<nat>, t: nat, m: Move<nat>)
    requires t < |s.pcs|
    requires s.pcs[t].PopLock? || s.pcs[t].PopPredicate? || s.pcs[t].PopSleep? || s.pcs[t].PopGiveUp?
    ensures LeadsOn(s.pcs[t], WaitStep(s, t, m).pcs[t])
  {
  }

  lemma TakeStepped(s: State<nat>, t: nat)
    requires t < |s.pcs| && TakeSafe(s, s.pcs[t])
    requires s.pcs[t].PopTake? || s.pcs[t].PopAdvance? || s.pcs[t].PopUnlock? || s.pcs[t].PopValue?
    ensures Stepped(s, TakeStep(s, t), t, Go)
  {
  }

  lemma GivesUpWithout(s: State<nat>, pc: Pc<nat>)
    requires ThreadOk(s, pc)
    ensures pc.PopGiveUp? ==> !pc.outcome.Got?
  {
  }

  lemma QueueStepped(s: State<nat>, t: nat, m: Move<nat>)
    requires Inv(s) && t < |s.pcs|
    ensures Stepped(s, Next(s, t, m), t, m) && Inv(Next(s, t, m))
  {
    hide Inv, PushStep, WaitStep, TakeStep, TakeSafe, ThreadOk;
    InvNext(s, t, m);
    ThreadFacts(s, t);
    GivesUpWithout(s, s.pcs[t]);
    var pc := s.pcs[t];
    if Unpushed(pc) || pc.PushUnlock? { PushStepped(s, t); }
    else if pc.PopTake? || pc.PopAdvance? || pc.PopUnlock? || pc.PopValue? { TakeStepped(s, t); }
    else if !pc.Idle? && !pc.CloseStore? { WaitStepped(s, t, m); }
  }

  // ---- every step of the pool keeps the invariant ----

  /** One step of thread t: only its own point and program counter move. */
  ghost predicate OneMoves(p: Pool, r: Pool, t: nat) {
    && |p.points| == |p.queue.pcs| && t < |p.points| && r.workers == p.workers <= |p.points|
    && |r.points| == |p.points| && |r.queue.pcs| == |p.queue.pcs|
    && r.points == p.points[t := r.points[t]] && r.queue.pcs == p.queue.pcs[t := r.queue.pcs[t]]
    && (p.queue.drained ==> r.queue.drained)
  }

  lemma CallFacts(p: Pool, t: nat)
    requires Calls(p) && t < |p.points|
    ensures |p.points| == |p.queue.pcs| && p.workers <= |p.points|
    ensures CallOk(p.points[t], p.queue.pcs[t], p.queue.drained)
  {
  }

  lemma CallsKept(p: Pool, r: Pool, t: nat)
    requires Calls(p) && OneMoves(p, r, t)
    requires IsWorker(r.points[t]) == IsWorker(p.points[t])
    requires CallOk(r.points[t], r.queue.pcs[t], r.queue.drained)
    ensures Calls(r)
  {
  }

  lemma SubmitCalls(p: Pool, t: nat)
    requires Inv(p.queue) && Calls(p) && t < |p.points| && (p.points[t].SubmitCheck? || p.points[t].SubmitPush?)
    ensures OneMoves(p, SubmitStep(p, t), t) && Calls(SubmitStep(p, t))
  {
    hide Inv, Next, Calls, InWait;
    CallFacts(p, t);
    if p.points[t].SubmitCheck? { QueueStepped(p.queue, t, BeginPush(p.made)); } else { QueueStepped(p.queue, t, Go); }
    CallsKept(p, SubmitStep(p, t), t);
  }

  lemma StopCalls(p: Pool, t: nat)
    requires Inv(p.queue) && Calls(p) && t < |p.points| && (InStop(p.points[t]) || p.points[t].StopEnter?)
    ensures OneMoves(p, StopStep(p, t), t) && Calls(StopStep(p, t))
  {
    hide Inv, Next, Calls, InWait, InPush, PushesAlike, PopsAlike;
    CallFacts(p, t);
    if p.points[t].StopStore? || p.points[t].StopClose? { CloseCalls(p, t); }
    hide Stepped;
    CallsKept(p, StopStep(p, t), t);
  }

  lemma CloseCalls(p: Pool, t: nat)
    requires Inv(p.queue) && Calls(p) && t < |p.points| && (p.points[t].StopStore? || p.points[t].StopClose?)
    ensures |p.points| == |p.queue.pcs| && p.workers <= |p.points| && OneMoves(p, StopStep(p, t), t)
    ensures CallOk(StopStep(p, t).points[t], StopStep(p, t).queue.pcs[t], StopStep(p, t).queue.drained)
  {
    hide Inv, Next, Calls, InWait, InPush, PushesAlike;
    CallFacts(p, t);
    QueueStepped(p.queue, t, if p.points[t].StopStore? then BeginClose else Go);
  }

  lemma WorkerCalls(p: Pool, t: nat, c: Choice)
    requires Inv(p.queue) && Calls(p) && t < |p.points|
    ensures OneMoves(p, WorkerStep(p, t, c), t) && Calls(WorkerStep(p, t, c))
  {
    hide Inv, Next, Calls, InPush, PushesAlike, PopsAlike;
    CallFacts(p, t);
    if p.points[t].WorkerPop? {
      PopCalls(p, t, c);
    } else {
      if p.points[t].WorkerLoop? { LoopCalls(p, t); }
      CallsKept(p, WorkerStep(p, t, c), t);
    }
  }

  lemma LoopCalls(p: Pool, t: nat)
    requires Inv(p.queue) && Calls(p) && t < |p.points| && p.points[t].WorkerLoop?
    ensures |p.points| == |p.queue.pcs| && OneMoves(p, WorkerStep(p, t, Run), t)
    ensures InWait(WorkerStep(p, t, Run).queue.pcs[t])
    ensures !WorkerStep(p, t, Run).queue.pcs[t].Idle?
  {
    hide Inv, Next, Calls, InPush, PushesAlike;
    CallFacts(p, t);
    QueueStepped(p.queue, t, BeginPop(Wait));
  }

  lemma PopCalls(p: Pool, t: nat, c: Choice)
    requires Inv(p.queue) && Calls(p) && t < |p.points| && p.points[t].WorkerPop?
    ensures OneMoves(p, WorkerStep(p, t, c), t) && Calls(WorkerStep(p, t, c))
  {
    hide Inv, Next, Calls, InPush, PushesAlike;
    CallFacts(p, t);
    QueueStepped(p.queue, t, Go);
    CallsKept(p, WorkerStep(p, t, c), t);
  }

  lemma StepCalls(p: Pool, t: nat, c: Choice)
    requires Inv(p.queue) && Calls(p) && t < |p.points|
    ensures OneMoves(p, Step(p, t, c), t) && Calls(Step(p, t, c))
  {
    hide Inv, SubmitStep, StopStep, WorkerStep;
    if p.points[t].SubmitCheck? || p.points[t].SubmitPush? { SubmitCalls(p, t); }
    else if InStop(p.points[t]) || p.points[t].StopEnter? { StopCalls(p, t); }
    else if IsWorker(p.points[t]) { WorkerCalls(p, t, c); }
  }

  // the stop lock and the joins

  /** Thread t is outside stop and stays outside. */
  predicate StopAlike(p: Pool, r: Pool, t: nat) {
    && t < |p.points| == |r.points| && !InStop(p.points[t]) && !InStop(r.points[t])
    && (p.points[t].WorkerExited? ==> r.points[t].WorkerExited?)
    && r.stopped == p.stopped && r.stopLock == p.stopLock && r.stopReturned == p.stopReturned
  }

  lemma StopsFramed(p: Pool, r: Pool, t: nat)
    requires OneMoves(p, r, t) && Stops(p) && StopAlike(p, r, t)
    ensures Stops(r)
  {
    assert StopOwner(r) == StopOwner(p);
  }

  lemma OutsideStop(p: Pool, t: nat, c: Choice)
    requires Inv(p.queue) && t < |p.points| == |p.queue.pcs| && p.workers <= |p.points|
    requires !InStop(p.points[t]) && !p.points[t].StopEnter?
    ensures StopAlike(p, Step(p, t, c), t)
  {
    hide Inv, Next, SubmitStep, WorkerStep, StopStep;
    if p.points[t].SubmitCheck? || p.points[t].SubmitPush? {
      SubmitOutsideStop(p, t);
    } else if IsWorker(p.points[t]) {
      WorkerOutsideStop(p, t, c);
    }
  }

  lemma SubmitOutsideStop(p: Pool, t: nat)
    requires Inv(p.queue) && t < |p.points| == |p.queue.pcs| && (p.points[t].SubmitCheck? || p.points[t].SubmitPush?)
    ensures StopAlike(p, SubmitStep(p, t), t)
  {
    hide Inv, Next;
  }

  lemma WorkerOutsideStop(p: Pool, t: nat, c: Choice)
    requires Inv(p.queue) && t < |p.points| == |p.queue.pcs| && !InStop(p.points[t])
    ensures StopAlike(p, WorkerStep(p, t, c), t)
  {
    hide Inv, Next;
  }

  lemma StopsMoved(p: Pool, t: nat)
    requires Inv(p.queue) && Calls(p) && Stops(p) && t < |p.points| && (InStop(p.points[t]) || p.points[t].StopEnter?)
    ensures StopStep(p, t).workers == p.workers && |StopStep(p, t).points| == |p.points| && Stops(StopStep(p, t))
  {
    hide Inv, Next;
    assert CallOk(p.points[t], p.queue.pcs[t], p.queue.drained);
    hide Calls;
    assert InStop(p.points[t]) ==> StopOwner(p) == p.points[t];
  }

  lemma StepStops(p: Pool, t: nat, c: Choice)
    requires Inv(p.queue) && Calls(p) && Stops(p) && t < |p.points|
    ensures Step(p, t, c).workers == p.workers && |Step(p, t, c).points| == |p.points| && Stops(Step(p, t, c))
  {
    hide Inv, Next, Stops, SubmitStep, StopStep, WorkerStep;
    if InStop(p.points[t]) || p.points[t].StopEnter? {
      StopsMoved(p, t);
    } else {
      StepCalls(p, t, c);
      OutsideStop(p, t, c);
      hide Calls, Step, StopAlike;
      StopsFramed(p, Step(p, t, c), t);
    }
  }

  lemma NextCloses(s: State<nat>, t: nat, m: Move<nat>)
    requires Inv(s) && t < |s.pcs|
    ensures Next(s, t, m).closed == (s.closed || s.pcs[t].CloseStore?)
  {
    hide Inv, PushStep, WaitStep;
    ThreadFacts(s, t);
    PushLeavesFlag(s, t);
    WaitLeavesFlag(s, t, m);
  }

  lemma PushLeavesFlag(s: State<nat>, t: nat)
    requires t < |s.pcs| && s.tail < |s.nodes|
    ensures PushStep(s, t).closed == s.closed
  {
  }

  lemma WaitLeavesFlag(s: State<nat>, t: nat, m: Move<nat>)
    requires t < |s.pcs|
    ensures WaitStep(s, t, m).closed == s.closed
  {
  }

  lemma StepCloses(p: Pool, t: nat, c: Choice)
    requires Inv(p.queue) && Calls(p) && Stops(p) && Closes(p) && t < |p.points|
    ensures Closes(Step(p, t, c))
  {
    hide Inv, Next, Calls, Stops;
    CallFacts(p, t);
    if p.queue.pcs[t].CloseStore? { CloserIsStop(p, t); }
    StepKeepsStopped(p, t, c);
    StepInQueue(p, t, c);
    NextCloses(p.queue, t, Go);
    NextCloses(p.queue, t, BeginPush(p.made));
    NextCloses(p.queue, t, BeginPop(Wait));
    NextCloses(p.queue, t, BeginClose);
    hide Step;
  }

  lemma CloserIsStop(p: Pool, t: nat)
    requires Calls(p) && Stops(p) && t < |p.points| && p.queue.pcs[t].CloseStore?
    ensures p.stopped
  {
    CallFacts(p, t);
    assert p.points[t].StopClose?;
    assert StopOwner(p) == p.points[t];
  }

  lemma StepKeepsStopped(p: Pool, t: nat, c: Choice)
    requires Inv(p.queue) && t < |p.points| == |p.queue.pcs| && p.workers <= |p.points|
    ensures p.stopped ==> Step(p, t, c).stopped
  {
    hide Inv, Next;
  }

  // outside submit

  /** A step outside submit neither pushes nor accepts. */
  predicate NoTasks(p: Pool, r: Pool, t: nat) {
    && t < |p.points| == |p.queue.pcs| == |r.points| == |r.queue.pcs|
    && r.made == p.made && r.accepted == p.accepted && r.queue.pushed == p.queue.pushed && !r.points[t].SubmitPush?
  }

  lemma StopMoves(p: Pool, t: nat)
    requires Inv(p.queue) && Calls(p) && t < |p.points| && (InStop(p.points[t]) || p.points[t].StopEnter?)
    ensures NoTasks(p, StopStep(p, t), t) && RunMove(p, StopStep(p, t), t)
  {
    hide Inv, Next, Calls, InWait, InPush;
    CallFacts(p, t);
    if p.points[t].StopStore? || p.points[t].StopClose? {
      QueueStepped(p.queue, t, if p.points[t].StopStore? then BeginClose else Go);
    }
  }

  lemma PopMoves(p: Pool, t: nat, c: Choice)
    requires Inv(p.queue) && Calls(p) && t < |p.points| && p.points[t].WorkerPop? && p.workers > 0
    ensures NoTasks(p, WorkerStep(p, t, c), t) && RunMove(p, WorkerStep(p, t, c), t)
  {
    hide Inv, Next, Calls, InPush;
    CallFacts(p, t);
    QueueStepped(p.queue, t, Go);
  }

  lemma LoopMoves(p: Pool, t: nat, c: Choice)
    requires Inv(p.queue) && Calls(p) && t < |p.points| && p.points[t].WorkerLoop? && p.workers > 0
    ensures NoTasks(p, WorkerStep(p, t, c), t) && RunMove(p, WorkerStep(p, t, c), t)
  {
    hide Inv, Next, Calls, InPush, InWait;
    CallFacts(p, t);
    QueueStepped(p.queue, t, BeginPop(Wait));
  }

  lemma WorkerMoves(p: Pool, t: nat, c: Choice)
    requires Inv(p.queue) && Calls(p) && t < |p.points| && IsWorker(p.points[t])
    requires !p.points[t].SubmitCheck? && !p.points[t].SubmitPush?
    ensures NoTasks(p, WorkerStep(p, t, c), t) && RunMove(p, WorkerStep(p, t, c), t)
  {
    hide Inv, Next, InPush, InWait, NoTasks, RunMove;
    assert p.workers > 0;
    if p.points[t].WorkerPop? { PopMoves(p, t, c); }
    else if p.points[t].WorkerLoop? { LoopMoves(p, t, c); }
    else { RunMoves(p, t, c); }
  }

  lemma RunMoves(p: Pool, t: nat, c: Choice)
    requires Inv(p.queue) && Calls(p) && t < |p.points| && (p.points[t].WorkerRun? || p.points[t].WorkerExited?)
    ensures NoTasks(p, WorkerStep(p, t, c), t) && RunMove(p, WorkerStep(p, t, c), t)
  {
    hide Inv, Next, InPush, InWait, Calls;
    CallFacts(p, t);
  }

  // the tasks

  lemma PushedBy(p: Pool, t: nat)
    requires Inv(p.queue) && Calls(p) && t < |p.points| && p.points[t].SubmitPush?
    requires p.queue.pcs[t] == Idle(Accepted(p.points[t].task))
    ensures p.points[t].task in p.queue.pushed
  {
    hide Inv;
    ThreadFacts(p.queue, t);
  }

  /** What one step of thread t may do to the tasks: it accepts or pushes its own task, which
      it has held since that task was made. */
  predicate TaskMove(p: Pool, r: Pool, t: nat) {
    && t < |p.points| == |p.queue.pcs| == |r.points| == |r.queue.pcs| && p.made <= r.made
    && TaskAccepted(p, r, p.points[t], r.points[t])
    && (|| r.queue.pushed == p.queue.pushed
        || (p.points[t].SubmitPush? && Unpushed(p.queue.pcs[t]) && !Unpushed(r.queue.pcs[t])
            && r.queue.pushed == p.queue.pushed + [p.points[t].task]))
    && (r.points[t].SubmitPush? ==> TaskHeld(p, r, t))
  }

  predicate TaskAccepted(p: Pool, r: Pool, was: Point, now: Point) {
    || r.accepted == p.accepted
    || (was.SubmitPush? && !now.SubmitPush? && was.task in p.queue.pushed && r.accepted == p.accepted + [was.task])
  }

  predicate TaskHeld(p: Pool, r: Pool, t: nat)
    requires t < |p.points| == |p.queue.pcs| == |r.points| == |r.queue.pcs| && r.points[t].SubmitPush?
  {
    if p.points[t].SubmitPush?
    then r.points[t].task == p.points[t].task && (Unpushed(r.queue.pcs[t]) ==> Unpushed(p.queue.pcs[t]))
    else r.points[t].task == p.made < r.made && r.queue.pushed == p.queue.pushed
  }

  lemma TasksKept(p: Pool, r: Pool, t: nat)
    requires OneMoves(p, r, t) && Tasks(p) && TaskMove(p, r, t)
    ensures Tasks(r)
  {
    if p.points[t].SubmitPush? {
      assert TaskNew(p, p.points[t].task, p.queue.pcs[t]);
      if r.accepted != p.accepted { AppendKeepsDistinct(p.accepted, p.points[t].task); }
      if r.queue.pushed != p.queue.pushed { AppendKeepsDistinct(p.queue.pushed, p.points[t].task); }
    }
    forall u | 0 <= u < |r.points| && r.points[u].SubmitPush? ensures TaskNew(r, r.points[u].task, r.queue.pcs[u]) {
      if u != t { assert TaskNew(p, p.points[u].task, p.queue.pcs[u]); }
    }
  }

  lemma SubmitTaskMove(p: Pool, t: nat)
    requires Inv(p.queue) && Calls(p) && t < |p.points| && (p.points[t].SubmitCheck? || p.points[t].SubmitPush?)
    ensures TaskMove(p, SubmitStep(p, t), t)
  {
    hide Inv, Next, Calls, InWait, PopsAlike;
    CallFacts(p, t);
    if p.points[t].SubmitCheck? {
      QueueStepped(p.queue, t, BeginPush(p.made));
    } else if p.queue.pcs[t] == Idle(Accepted(p.points[t].task)) {
      PushedBy(p, t);
    } else {
      QueueStepped(p.queue, t, Go);
    }
  }

  /** Outside submit, no task is made, pushed or accepted. */
  lemma OtherTaskMove(p: Pool, t: nat, c: Choice)
    requires Inv(p.queue) && Calls(p) && t < |p.points| && !p.points[t].SubmitCheck? && !p.points[t].SubmitPush?
    ensures TaskMove(p, Step(p, t, c), t)
  {
    hide Inv, SubmitStep, StopStep, WorkerStep, InWait;
    CallFacts(p, t);
    hide Calls;
    if IsWorker(p.points[t]) { WorkerMoves(p, t, c); } else if p.points[t] != Client { StopMoves(p, t); }
  }

  lemma StepTasks(p: Pool, t: nat, c: Choice)
    requires Inv(p.queue) && Calls(p) && Tasks(p) && t < |p.points|
    ensures |Step(p, t, c).points| == |Step(p, t, c).queue.pcs| && Tasks(Step(p, t, c))
  {
    hide Inv, SubmitStep, StopStep, WorkerStep, Tasks, TaskMove;
    StepCalls(p, t, c);
    if p.points[t].SubmitCheck? || p.points[t].SubmitPush? { SubmitTaskMove(p, t); } else { OtherTaskMove(p, t, c); }
    hide Calls;
    assert TaskMove(p, Step(p, t, c), t);
    hide Step;
    TasksKept(p, Step(p, t, c), t);
  }

  // the runs

  lemma {:induction false} RunningUpdate(points: seq<Point>, pcs: seq<Pc<nat>>, t: nat, point: Point, pc: Pc<nat>)
    requires t < |points| == |pcs|
    ensures AllRunning(points[t := point], pcs[t := pc]) + Running(points[t], pcs[t])
         == AllRunning(points, pcs) + Running(point, pc)
  {
    hide Running;
    var n, ps, qs := |points| - 1, points[t := point], pcs[t := pc];
    if t < n {
      RunningUpdate(points[..n], pcs[..n], t, point, pc);
      assert ps[..n] == points[..n][t := point] && qs[..n] == pcs[..n][t := pc];
      assert ps[n] == points[n] && qs[n] == pcs[n];
    } else {
      assert ps[..n] == points[..n] && qs[..n] == pcs[..n];
    }
    Exchange(AllRunning(ps[..n], qs[..n]), Running(points[t], pcs[t]), AllRunning(points[..n], pcs[..n]),
             Running(point, pc), Running(points[n], pcs[n]));
  }

  /** One step of thread t takes a task out of the queue, finishes the one it holds, or
      does neither. */
  predicate RunMove(p: Pool, r: Pool, t: nat) {
    && t < |p.points| == |p.queue.pcs| == |r.points| == |r.queue.pcs|
    && (p.workers == 0 ==> r.queue.returned == p.queue.returned)
    && RunOne(p, r, Holding(p.points[t], p.queue.pcs[t]), Holding(r.points[t], r.queue.pcs[t]))
  }

  predicate RunOne(p: Pool, r: Pool, was: Option<nat>, now: Option<nat>) {
    if r.queue.returned != p.queue.returned
    then was == None && now.Some? && r.queue.returned == p.queue.returned + [now.value] && r.finished == p.finished
    else if r.finished != p.finished
    then was.Some? && now == None && r.finished == p.finished + [was.value]
    else was == now
  }

  lemma RunBalance(p: Pool, r: Pool, t: nat)
    requires RunMove(p, r, t)
    ensures multiset(r.queue.returned) + Running(p.points[t], p.queue.pcs[t]) + multiset(p.finished)
         == multiset(p.queue.returned) + Running(r.points[t], r.queue.pcs[t]) + multiset(r.finished)
  {
    hide Holding;
  }

  lemma RunsKept(p: Pool, r: Pool, t: nat)
    requires OneMoves(p, r, t) && Runs(p) && RunMove(p, r, t)
    ensures Runs(r)
  {
    RunBalance(p, r, t);
    hide Running, RunMove;
    RunningUpdate(p.points, p.queue.pcs, t, r.points[t], r.queue.pcs[t]);
    Balance(multiset(p.queue.returned), multiset(r.queue.returned), multiset(p.finished), multiset(r.finished),
            AllRunning(p.points, p.queue.pcs), AllRunning(r.points, r.queue.pcs),
            Running(p.points[t], p.queue.pcs[t]), Running(r.points[t], r.queue.pcs[t]));
  }

  lemma SubmitRunMove(p: Pool, t: nat)
    requires Inv(p.queue) && Calls(p) && t < |p.points| && (p.points[t].SubmitCheck? || p.points[t].SubmitPush?)
    ensures RunMove(p, SubmitStep(p, t), t)
  {
    hide Inv, Next, Calls, InWait, PushesAlike;
    CallFacts(p, t);
    if p.points[t].SubmitCheck? { QueueStepped(p.queue, t, BeginPush(p.made)); } else { QueueStepped(p.queue, t, Go); }
  }

  lemma StepRunMove(p: Pool, t: nat, c: Choice)
    requires Inv(p.queue) && Calls(p) && t < |p.points|
    ensures RunMove(p, Step(p, t, c), t)
  {
    hide Inv, SubmitStep, StopStep, WorkerStep, RunOne;
    CallFacts(p, t);
    if p.points[t].SubmitCheck? || p.points[t].SubmitPush? { SubmitRunMove(p, t); }
    else if InStop(p.points[t]) || p.points[t].StopEnter? { StopMoves(p, t); }
    else if IsWorker(p.points[t]) { WorkerMoves(p, t, c); }
    else { assert p.points[t] == Client; ClientRuns(p, t, c); }
  }

  lemma ClientRuns(p: Pool, t: nat, c: Choice)
    requires Inv(p.queue) && t < |p.points| == |p.queue.pcs| && p.workers <= |p.points| && p.points[t] == Client
    ensures RunMove(p, Step(p, t, c), t)
  {
    hide Inv;
  }

  lemma StepRuns(p: Pool, t: nat, c: Choice)
    requires Inv(p.queue) && Calls(p) && Runs(p) && t < |p.points|
    ensures |Step(p, t, c).points| == |Step(p, t, c).queue.pcs| && Runs(Step(p, t, c))
  {
    hide Inv, Step, RunMove;
    StepCalls(p, t, c);
    StepRunMove(p, t, c);
    RunsKept(p, Step(p, t, c), t);
  }

  lemma StepInv(p: Pool, t: nat, c: Choice)
    requires PoolInv(p)
    ensures PoolInv(Step(p, t, c))
  {
    if t < |p.points| {
      StepQueue(p, t, c);
      hide Inv, Stops, Tasks, Runs, Step;
      StepCalls(p, t, c);
      StepStops(p, t, c);
      StepCloses(p, t, c);
      StepTasks(p, t, c);
      StepRuns(p, t, c);
    }
  }

  lemma StepQueue(p: Pool, t: nat, c: Choice)
    requires Inv(p.queue) && Calls(p) && t < |p.points|
    ensures Inv(Step(p, t, c).queue)
  {
    hide Inv, Next, Step;
    StepInQueue(p, t, c);
    InvNext(p.queue, t, BeginPush(p.made));
    InvNext(p.queue, t, BeginPop(Wait));
    InvNext(p.queue, t, BeginClose);
    InvNext(p.queue, t, Go);
  }

  /** A step of the pool leaves the queue alone or makes one step in it. */
  lemma StepInQueue(p: Pool, t: nat, c: Choice)
    requires Inv(p.queue) && Calls(p) && t < |p.points|
    ensures var q := Step(p, t, c).queue;
      || q == p.queue || q == Next(p.queue, t, Go) || q == Next(p.queue, t, BeginPush(p.made))
      || q == Next(p.queue, t, BeginPop(Wait)) || q == Next(p.queue, t, BeginClose)
  {
    hide Inv, Next, Calls;
    CallFacts(p, t);
  }

  // ---- runs ----

  /** One entry of a schedule: which thread moves, and its choice. */
  datatype Event = Event(thread: nat, choice: Choice)

  ghost function AfterEvents(p: Pool, events: seq<Event>): (r: Pool)
    requires PoolInv(p)
    ensures PoolInv(r)
    decreases |events|
  {
    if events == [] then p
    else
      StepInv(p, events[0].thread, events[0].choice);
      AfterEvents(Step(p, events[0].thread, events[0].choice), events[1..])
  }

  lemma {:induction false} AfterOneEvent(p: Pool, events: seq<Event>, e: Event)
    requires PoolInv(p)
    ensures var q := AfterEvents(p, events);
      PoolInv(q) && AfterEvents(p, events + [e]) == Step(q, e.thread, e.choice)
    decreases |events|
  {
    hide Inv, Stops, Tasks, Runs, Step;
    var more := events + [e];
    if events == [] {
      assert more[0] == e && more[1..] == [];
      StepInv(p, e.thread, e.choice);
      assert AfterEvents(Step(p, e.thread, e.choice), []) == Step(p, e.thread, e.choice);
    } else {
      StepInv(p, events[0].thread, events[0].choice);
      AfterOneEvent(Step(p, events[0].thread, events[0].choice), events[1..], e);
      assert more[0] == events[0] && more[1..] == events[1..] + [e];
    }
  }

  /** The tasks that workers have taken from the queue and not finished. */
  ghost function InHand(p: Pool): multiset<nat>
    requires |p.points| == |p.queue.pcs|
  {
    AllHeld(p.queue.nodes, p.queue.pcs) + AllRunning(p.points, p.queue.pcs)
  }

  /** The places where a task may be, counted together. */
  ghost function Everywhere(p: Pool): multiset<nat>
    requires Inv(p.queue) && |p.points| == |p.queue.pcs|
  {
    multiset(p.finished) + InHand(p) + multiset(Queued(p.queue))
  }

  lemma PushedIsEverywhere(p: Pool)
    requires PoolInv(p)
    ensures multiset(p.queue.pushed) == Everywhere(p)
  {
    hide Calls, Stops, Tasks, AllRunning;
  }

  lemma {:induction false} DistinctOnce(s: seq<nat>, v: nat)
    requires Distinct(s) && v in s
    ensures multiset(s)[v] == 1
  {
    var n := |s| - 1;
    assert s == s[..n] + [s[n]];
    if v == s[n] {
      assert v !in s[..n];
    } else {
      DistinctOnce(s[..n], v);
    }
  }

  /** In every run: each task whose submit returned a future is in exactly one place, queued,
      in the hands of a worker, or finished, and is there once. */
  lemma AcceptedInOnePlace(workers: nat, clients: nat, events: seq<Event>, v: nat)
    ensures PoolInv(Start(workers, clients))
    ensures var p := AfterEvents(Start(workers, clients), events);
      v in p.accepted ==>
        multiset(p.finished)[v] + InHand(p)[v] + multiset(Queued(p.queue))[v] == 1
  {
    StartInv(workers, clients);
    var p := AfterEvents(Start(workers, clients), events);
    PushedIsEverywhere(p);
    hide Inv, AllRunning, AllHeld;
    if v in p.accepted {
      DistinctOnce(p.queue.pushed, v);
      assert Everywhere(p)[v] == 1;
    }
  }

  /** submit throws thread_pool_stopped only once the pool is stopped, also when the push was
      refused after the first check had passed. */
  lemma RefusedMeansStopped(workers: nat, clients: nat, events: seq<Event>, t: nat)
    ensures PoolInv(Start(workers, clients))
    ensures var p := AfterEvents(Start(workers, clients), events);
      t < |p.points| == |p.queue.pcs| && p.points[t].SubmitPush? && p.queue.pcs[t].Idle? ==>
        p.queue.pcs[t] == Idle(Accepted(p.points[t].task)) || p.stopped
  {
    StartInv(workers, clients);
    var p := AfterEvents(Start(workers, clients), events);
    hide Inv, Stops, Tasks, Runs;
    if t < |p.points| {
      CallFacts(p, t);
      ThreadFacts(p.queue, t);
    }
  }

  // ---- stopping ----

  lemma ExitedHoldNothing(p: Pool)
    requires PoolInv(p) && AllExited(p)
    ensures InHand(p) == multiset{}
  {
    hide Inv, Stops, Tasks, Runs;
    forall t | 0 <= t < |p.points|
      ensures Running(p.points[t], p.queue.pcs[t]) == multiset{} && !HasTaken(p.queue.pcs[t])
    {
      CallFacts(p, t);
      assert !p.points[t].WorkerPop?;
    }
    NoneRunning(p.points, p.queue.pcs);
    NoneHeld(p.queue.nodes, p.queue.pcs);
  }

  lemma ExitedMeansDrained(p: Pool)
    requires PoolInv(p) && AllExited(p) && p.workers > 0
    ensures p.queue.drained && Queued(p.queue) == []
  {
    CallFacts(p, 0);
    hide Calls, Stops, Tasks, Runs;
    DrainedMeansSealed(p.queue);
  }

  lemma NoWorkerNoRun(p: Pool)
    requires PoolInv(p) && p.workers == 0
    ensures p.finished == []
  {
    hide Inv, Stops, Tasks;
    assert |multiset(p.queue.returned)| == |multiset(p.finished)| + |AllRunning(p.points, p.queue.pcs)|;
    assert |multiset(p.finished)| == |p.finished|;
  }

  /** Once all workers have exited: the tasks pushed have all been run, each once, exactly if
      the pool has a worker or there were none. */
  lemma ExitedIsFinished(p: Pool)
    requires PoolInv(p) && AllExited(p)
    ensures multiset(p.finished) == multiset(p.queue.pushed) <==> p.workers > 0 || p.queue.pushed == []
    ensures p.workers > 0 ==> Queued(p.queue) == [] && InHand(p) == multiset{}
    ensures p.workers > 0 ==> forall v :: v in p.accepted ==> multiset(p.finished)[v] == 1
  {
    PushedIsEverywhere(p);
    ExitedHoldNothing(p);
    if p.workers > 0 { ExitedMeansDrained(p); } else { NoWorkerNoRun(p); }
    hide Inv, Calls, Runs, Everywhere;
    assert p.workers > 0 ==> multiset(p.finished) == multiset(p.queue.pushed);
    assert |multiset(p.queue.pushed)| == |p.queue.pushed| && |multiset(p.finished)| == |p.finished|;
    forall v | v in p.accepted ensures multiset(p.queue.pushed)[v] == 1 { DistinctOnce(p.queue.pushed, v); }
  }

  /** So it is whenever any call of stop has returned, the first or a later one. */
  lemma StoppedIsFinished(p: Pool)
    requires PoolInv(p) && p.stopReturned
    ensures p.stopped && AllExited(p)
    ensures multiset(p.finished) == multiset(p.queue.pushed) <==> p.workers > 0 || p.queue.pushed == []
    ensures p.workers > 0 ==> Queued(p.queue) == [] && InHand(p) == multiset{}
    ensures p.workers > 0 ==> forall v :: v in p.accepted ==> multiset(p.finished)[v] == 1
  {
    ExitedIsFinished(p);
  }

  lemma QueueAfterDrain(p: Pool, t: nat, c: Choice)
    requires PoolInv(p) && p.queue.drained
    ensures Step(p, t, c).queue.drained && Step(p, t, c).queue.pushed == p.queue.pushed
  {
    DrainedMeansSealed(p.queue);
    hide Inv, Next, Stops, Tasks, Runs, Sealed;
    if t < |p.points| {
      StepInQueue(p, t, c);
      SealedStays(p.queue, t, BeginPush(p.made));
      SealedStays(p.queue, t, BeginPop(Wait));
      SealedStays(p.queue, t, BeginClose);
      SealedStays(p.queue, t, Go);
      hide Step, Calls;
    }
  }

  lemma StepWhenStopped(p: Pool, t: nat, c: Choice)
    requires Inv(p.queue) && Calls(p) && p.stopped
    ensures var r := Step(p, t, c);
      r.workers == p.workers && r.made == p.made && (p.stopReturned ==> r.stopReturned)
  {
    hide Inv, Next, Calls;
    LengthsOf(p);
  }

  lemma LengthsOf(p: Pool)
    requires Calls(p)
    ensures |p.points| == |p.queue.pcs| && p.workers <= |p.points|
  {
  }

  lemma StepFinished(p: Pool, t: nat, c: Choice)
    requires Inv(p.queue) && Calls(p)
    ensures var r := Step(p, t, c);
      r.finished == p.finished || exists v: nat :: r.finished == p.finished + [v]
  {
    hide Inv, Holding;
    LengthsOf(p);
    if t < |p.points| {
      StepRunMove(p, t, c);
      hide Calls, Step;
      assert RunOne(p, Step(p, t, c), Holding(p.points[t], p.queue.pcs[t]),
                    Holding(Step(p, t, c).points[t], Step(p, t, c).queue.pcs[t]));
    }
  }

  /** After a call of stop has returned, in a pool with a worker: whatever the threads still
      do, no task is made, pushed or run again, and every future handed out, even by a submit
      that was still returning, is of a finished task. */
  lemma {:induction false} StopIsFinal(p: Pool, events: seq<Event>)
    requires PoolInv(p) && p.stopReturned && p.workers > 0
    ensures var r := AfterEvents(p, events);
      && r.stopReturned && r.made == p.made && r.queue.pushed == p.queue.pushed && r.finished == p.finished
      && forall v :: v in r.accepted ==> multiset(p.finished)[v] == 1
    decreases |events|
  {
    StoppedIsFinished(p);
    ExitedMeansDrained(p);
    if events != [] {
      hide Inv, Calls, Stops, Tasks, Runs, Step;
      var t, c := events[0].thread, events[0].choice;
      var r := Step(p, t, c);
      StepInv(p, t, c);
      QueueAfterDrain(p, t, c);
      StepWhenStopped(p, t, c);
      StepFinished(p, t, c);
      StoppedIsFinished(r);
      assert |multiset(r.finished)| == |multiset(p.finished)|;
      StopIsFinal(r, events[1..]);
    }
  }
}
