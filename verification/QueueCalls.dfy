/** What single calls on the queue answer: what an empty-handed pop has seen, in any schedule,
    and what a call answers when its thread alone moves. */
module QueueCalls {
  import opened Outcomes
  import opened Queues

  // ---- a pop that finds nothing was right at some moment of its call ----

  /** About to answer that nothing was there: an equal head and tail read, or what follows. */
  predicate FoundNothing<T>(s: State<T>, pc: Pc<T>)
    requires |s.chain| >= 1
  {
    || ((pc.TailUnlock? || pc.Compare?) && pc.seen == s.chain[0])
    || pc.PopSleep?
    || (pc.PopGiveUp? && (pc.outcome.Empty? || pc.outcome.TimedOut?))
  }

  lemma ChainMoves<T>(s: State<T>, u: nat, m: Move<T>)
    requires Inv(s) && u < |s.pcs|
    ensures var r := Next(s, u, m);
      && |s.chain| >= 1 && |r.pcs| == |s.pcs| && r.pcs == s.pcs[u := r.pcs[u]]
      && r.chain == (if s.pcs[u].PushTail? then s.chain + [s.pcs[u].made]
                     else if s.pcs[u].PopAdvance? then s.chain[1..] else s.chain)
  {
    hide Inv, PushStep, WaitStep, TakeStep, TakeSafe;
    ThreadFacts(s, u);
    if Committed(s.pcs[u]) { PushMovesChain(s, u); }
    else if s.pcs[u].PopTake? || s.pcs[u].PopAdvance? { TakeMovesChain(s, u); }
    else { OthersKeepQueue(s, u, m); }
  }

  lemma PushMovesChain<T>(s: State<T>, u: nat)
    requires u < |s.pcs| && s.tail < |s.nodes| && Committed(s.pcs[u])
    ensures var r := PushStep(s, u);
      && r.pcs == s.pcs[u := r.pcs[u]]
      && r.chain == if s.pcs[u].PushTail? then s.chain + [s.pcs[u].made] else s.chain
  {
  }

  lemma TakeMovesChain<T>(s: State<T>, u: nat)
    requires u < |s.pcs| && TakeSafe(s, s.pcs[u]) && (s.pcs[u].PopTake? || s.pcs[u].PopAdvance?)
    ensures var r := TakeStep(s, u);
      && r.pcs == s.pcs[u := r.pcs[u]]
      && r.chain == if s.pcs[u].PopAdvance? then s.chain[1..] else s.chain
  {
  }

  /** While a thread holds the head lock, the others leave the front alone. */
  lemma FrontHeld<T>(s: State<T>, t: nat, u: nat, m: Move<T>)
    requires Inv(s) && t < |s.pcs| && u < |s.pcs| && u != t && HoldsHead(s.pcs[t])
    ensures |s.chain| >= 1 && |Next(s, u, m).chain| >= 1 && Next(s, u, m).chain[0] == s.chain[0]
  {
    hide Inv, Next;
    ThreadFacts(s, t);
    ThreadFacts(s, u);
    ChainMoves(s, u, m);
  }

  lemma FoundOwnStep<T>(s: State<T>, t: nat, m: Move<T>)
    requires Inv(s) && t < |s.pcs|
    ensures var r := Next(s, t, m);
      && t < |r.pcs| && |s.chain| >= 1 && |r.chain| >= 1
      && (FoundNothing(r, r.pcs[t]) ==> FoundNothing(s, s.pcs[t]) || (s.pcs[t].TailRead? && |r.chain| == 1))
  {
    hide Inv, PushStep, WaitStep, TakeStep, TakeSafe;
    ChainMoves(s, t, m);
    InvNext(s, t, m);
    ThreadFacts(s, t);
    ThreadFacts(Next(s, t, m), t);
    var pc := s.pcs[t];
    if pc.PopTake? || pc.PopAdvance? || pc.PopUnlock? || pc.PopValue? { TakeFindsNothing(s, t); }
    else if Pushing(pc) { PushFindsNothing(s, t); }
    else if !pc.Idle? && !pc.CloseStore? { WaitFindsNothing(s, t, m); }
  }

  predicate Pushing<T>(pc: Pc<T>) {
    pc.PushCheck? || pc.PushAllocate? || HasMade(pc) || pc.PushUnlock?
  }

  lemma WaitFindsNothing<T>(s: State<T>, t: nat, m: Move<T>)
    requires t < |s.pcs| && |s.chain| >= 1 && (s.tail == s.chain[0] ==> |s.chain| == 1)
    requires s.pcs[t].Compare? ==> s.head == Some(s.chain[0])
    ensures var r := WaitStep(s, t, m);
      && r.chain == s.chain
      && (FoundNothing(r, r.pcs[t]) ==> FoundNothing(s, s.pcs[t]) || (s.pcs[t].TailRead? && |s.chain| == 1))
  {
  }

  lemma PushFindsNothing<T>(s: State<T>, t: nat)
    requires t < |s.pcs| && s.tail < |s.nodes| && Pushing(s.pcs[t])
    ensures Pushing(PushStep(s, t).pcs[t]) || PushStep(s, t).pcs[t].Idle?
  {
  }

  lemma TakeFindsNothing<T>(s: State<T>, t: nat)
    requires t < |s.pcs| && TakeSafe(s, s.pcs[t])
    requires s.pcs[t].PopTake? || s.pcs[t].PopAdvance? || s.pcs[t].PopUnlock? || s.pcs[t].PopValue?
    ensures var pc := TakeStep(s, t).pcs[t];
      pc.PopAdvance? || pc.PopUnlock? || pc.PopValue? || pc.Idle?
  {
  }

  lemma FoundByOthers<T>(s: State<T>, t: nat, u: nat, m: Move<T>)
    requires Inv(s) && t < |s.pcs| && u != t
    ensures var r := Next(s, u, m);
      && t < |r.pcs| && r.pcs[t] == s.pcs[t] && |s.chain| >= 1 && |r.chain| >= 1
      && (FoundNothing(r, r.pcs[t]) ==> FoundNothing(s, s.pcs[t]))
  {
    hide Inv, Next;
    ThreadFacts(s, t);
    if u < |s.pcs| {
      ChainMoves(s, u, m);
      InvNext(s, u, m);
      ThreadFacts(Next(s, u, m), t);
      SeenUnderHead(s, t, u, m);
    } else {
      NoSuchThread(s, u, m);
    }
  }

  lemma NoSuchThread<T>(s: State<T>, u: nat, m: Move<T>)
    requires Inv(s) && u >= |s.pcs|
    ensures Next(s, u, m) == s
  {
  }

  lemma SeenUnderHead<T>(s: State<T>, t: nat, u: nat, m: Move<T>)
    requires Inv(s) && t < |s.pcs| && u < |s.pcs| && u != t
    ensures s.pcs[t].TailUnlock? || s.pcs[t].Compare? ==>
      |s.chain| >= 1 && |Next(s, u, m).chain| >= 1 && Next(s, u, m).chain[0] == s.chain[0]
  {
    hide Inv, Next;
    if HoldsHead(s.pcs[t]) { FrontHeld(s, t, u, m); }
  }

  /** The state after the first n turns. */
  ghost function StateAt<T>(s: State<T>, turns: seq<Turn<T>>, n: nat): (r: State<T>)
    requires Inv(s) && n <= |turns|
    ensures Inv(r)
  {
    After(s, turns[..n])
  }

  lemma StateAtNext<T>(s: State<T>, turns: seq<Turn<T>>, n: nat)
    requires Inv(s) && n < |turns|
    ensures StateAt(s, turns, n + 1) == Next(StateAt(s, turns, n), turns[n].thread, turns[n].move)
  {
    hide Inv, Next;
    assert turns[..n + 1] == turns[..n] + [turns[n]];
    AfterOneMore(s, turns[..n], turns[n]);
  }

  lemma Threads<T>(s: State<T>, turns: seq<Turn<T>>, n: nat)
    requires Inv(s) && n <= |turns|
    ensures |StateAt(s, turns, n).pcs| == |s.pcs|
  {
    hide Inv, Next;
    if n == 0 {
      assert turns[..0] == [];
    } else {
      Threads(s, turns, n - 1);
      StateAtNext(s, turns, n - 1);
      var q, turn := StateAt(s, turns, n - 1), turns[n - 1];
      if turn.thread < |q.pcs| {
        ChainMoves(q, turn.thread, turn.move);
      } else {
        NoSuchThread(q, turn.thread, turn.move);
      }
    }
  }

  /** Thread t is inside one call from turn m to turn n. */
  ghost predicate InCall<T>(s: State<T>, turns: seq<Turn<T>>, t: nat, m: nat, n: nat)
    requires Inv(s)
  {
    m <= n <= |turns| && forall k: nat :: m <= k <= n ==>
      t < |StateAt(s, turns, k).pcs| && !StateAt(s, turns, k).pcs[t].Idle?
  }

  /** At turn m no value was queued. */
  ghost predicate NothingQueued<T>(s: State<T>, turns: seq<Turn<T>>, m: nat)
    requires Inv(s) && m <= |turns|
  {
    Queued(StateAt(s, turns, m)) == []
  }

  lemma QueuedAlone<T>(s: State<T>)
    requires Inv(s) && |s.chain| == 1
    ensures Queued(s) == []
  {
  }

  /** A thread about to answer that nothing was there has been in this call since a moment at
      which no value was queued. */
  lemma {:induction false} FoundMeansEmpty<T>(s: State<T>, turns: seq<Turn<T>>, t: nat, n: nat)
    requires Inv(s) && n <= |turns| && t < |s.pcs| && (forall u :: 0 <= u < |s.pcs| ==> s.pcs[u].Idle?)
    ensures var q := StateAt(s, turns, n);
      && t < |q.pcs| && |q.chain| >= 1
      && (FoundNothing(q, q.pcs[t]) ==>
            exists m: nat :: m <= n && NothingQueued(s, turns, m) && InCall(s, turns, t, m, n))
  {
    hide Inv, Next, StateAt;
    Threads(s, turns, n);
    ThreadFacts(StateAt(s, turns, n), t);
    if n == 0 {
      StartsAt(s, turns);
    } else {
      var p, q, turn := StateAt(s, turns, n - 1), StateAt(s, turns, n), turns[n - 1];
      FoundMeansEmpty(s, turns, t, n - 1);
      StateAtNext(s, turns, n - 1);
      if turn.thread == t { FoundOwnStep(p, t, turn.move); } else { FoundByOthers(p, t, turn.thread, turn.move); }
      if FoundNothing(q, q.pcs[t]) {
        if FoundNothing(p, p.pcs[t]) {
          var m: nat :| m <= n - 1 && NothingQueued(s, turns, m) && InCall(s, turns, t, m, n - 1);
          assert InCall(s, turns, t, m, n);
        } else {
          QueuedAlone(q);
          assert NothingQueued(s, turns, n) && InCall(s, turns, t, n, n);
        }
      }
    }
  }

  lemma StartsAt<T>(s: State<T>, turns: seq<Turn<T>>)
    requires Inv(s)
    ensures StateAt(s, turns, 0) == s
  {
    assert turns[..0] == [];
  }

  /** From turn e to turn n thread t rests after a call that answered o. */
  ghost predicate RestsWith<T>(s: State<T>, turns: seq<Turn<T>>, t: nat, o: Outcome<T>, e: nat, n: nat)
    requires Inv(s)
  {
    e <= n <= |turns| && forall k: nat :: e <= k <= n ==>
      t < |StateAt(s, turns, k).pcs| && StateAt(s, turns, k).pcs[t] == Idle(o)
  }

  lemma AnswersOnce<T>(s: State<T>, t: nat, u: nat, m: Move<T>)
    requires Inv(s) && t < |s.pcs|
    ensures var r := Next(s, u, m);
      && |r.pcs| == |s.pcs|
      && (r.pcs[t].Idle? && (r.pcs[t].outcome.Empty? || r.pcs[t].outcome.TimedOut?) ==>
            r.pcs[t] == s.pcs[t] || (FoundNothingToSay(s.pcs[t]) && r.pcs[t].outcome == s.pcs[t].outcome))
  {
    hide Inv, PushStep, WaitStep, TakeStep, TakeSafe;
    if u < |s.pcs| {
      ChainMoves(s, u, m);
      ThreadFacts(s, u);
      if u == t {
        var pc := s.pcs[t];
        if pc.PopTake? || pc.PopAdvance? || pc.PopUnlock? || pc.PopValue? { TakeAnswers(s, t); }
        else if Pushing(pc) { PushAnswers(s, t); }
        else if !pc.Idle? && !pc.CloseStore? { WaitAnswers(s, t, m); }
      }
    } else {
      NoSuchThread(s, u, m);
    }
  }

  predicate FoundNothingToSay<T>(pc: Pc<T>) {
    pc.PopGiveUp? && (pc.outcome.Empty? || pc.outcome.TimedOut?)
  }

  lemma TakeAnswers<T>(s: State<T>, t: nat)
    requires t < |s.pcs| && TakeSafe(s, s.pcs[t])
    requires s.pcs[t].PopTake? || s.pcs[t].PopAdvance? || s.pcs[t].PopUnlock? || s.pcs[t].PopValue?
    ensures TakeStep(s, t).pcs[t].Idle? ==> TakeStep(s, t).pcs[t].outcome.Got?
  {
  }

  lemma PushAnswers<T>(s: State<T>, t: nat)
    requires t < |s.pcs| && s.tail < |s.nodes| && Pushing(s.pcs[t])
    ensures PushStep(s, t).pcs[t].Idle? ==>
      PushStep(s, t).pcs[t].outcome.Accepted? || PushStep(s, t).pcs[t].outcome.Rejected?
  {
  }

  lemma WaitAnswers<T>(s: State<T>, t: nat, m: Move<T>)
    requires t < |s.pcs| && !s.pcs[t].Idle?
    ensures WaitStep(s, t, m).pcs[t].Idle? ==> s.pcs[t] == PopGiveUp(WaitStep(s, t, m).pcs[t].outcome)
  {
  }

  /** In every schedule: when a call of pop has answered "empty" or "timed out", then between
      the beginning of that call, turn m or before, and its end, turn e, there was a moment
      at which no value was queued. */
  lemma {:induction false} EmptyAnswerIsTrue<T>(s: State<T>, turns: seq<Turn<T>>, t: nat, n: nat)
    requires Inv(s) && n <= |turns| && t < |s.pcs| && (forall u :: 0 <= u < |s.pcs| ==> s.pcs[u] == Idle(NoCall))
    ensures var q := StateAt(s, turns, n);
      && t < |q.pcs|
      && (q.pcs[t] == Idle(Empty) || q.pcs[t] == Idle(TimedOut) ==>
            exists m: nat, e: nat :: m < e <= n && NothingQueued(s, turns, m) && InCall(s, turns, t, m, e - 1)
              && RestsWith(s, turns, t, q.pcs[t].outcome, e, n))
  {
    hide Inv, Next, StateAt;
    Threads(s, turns, n);
    if n == 0 {
      StartsAt(s, turns);
    } else {
      var p, q, turn := StateAt(s, turns, n - 1), StateAt(s, turns, n), turns[n - 1];
      EmptyAnswerIsTrue(s, turns, t, n - 1);
      StateAtNext(s, turns, n - 1);
      AnswersOnce(p, t, turn.thread, turn.move);
      if q.pcs[t] == Idle(Empty) || q.pcs[t] == Idle(TimedOut) {
        var o := q.pcs[t].outcome;
        if p.pcs[t] == q.pcs[t] {
          var m: nat, e: nat :| m < e <= n - 1 && NothingQueued(s, turns, m) && InCall(s, turns, t, m, e - 1)
            && RestsWith(s, turns, t, o, e, n - 1);
          assert RestsWith(s, turns, t, o, e, n);
        } else {
          FoundMeansEmpty(s, turns, t, n - 1);
          var m: nat :| m <= n - 1 && NothingQueued(s, turns, m) && InCall(s, turns, t, m, n - 1);
          assert RestsWith(s, turns, t, o, n, n);
        }
      }
    }
  }

  // ---- a call whose thread alone moves ----

  /** Thread t begins a call and then makes n steps. */
  function Solo<T>(t: nat, begin: Move<T>, n: nat): seq<Turn<T>> {
    [Turn(t, begin)] + seq(n, _ => Turn(t, Go))
  }

  lemma SoloNext<T>(s: State<T>, t: nat, begin: Move<T>, n: nat)
    requires Inv(s)
    ensures After(s, Solo(t, begin, n + 1)) == Next(After(s, Solo(t, begin, n)), t, Go)
  {
    hide Inv, Next;
    assert Solo(t, begin, n + 1) == Solo(t, begin, n) + [Turn(t, Go)];
    AfterOneMore(s, Solo(t, begin, n), Turn(t, Go));
  }

  lemma SoloBegins<T>(s: State<T>, t: nat, begin: Move<T>)
    requires Inv(s)
    ensures Inv(Next(s, t, begin)) && After(s, Solo(t, begin, 0)) == Next(s, t, begin)
  {
    InvNext(s, t, begin);
    hide Inv, Next;
    var turns := Solo(t, begin, 0);
    assert turns[0] == Turn(t, begin) && turns[1..] == [];
    assert After(Next(s, t, begin), []) == Next(s, t, begin);
  }

  /** A lock is free, or thread t has it. */
  predicate OwnLock(lock: Option<nat>, t: nat, holds: bool) {
    lock == if holds then Some(t) else None
  }

  /** What a pop of this kind answers; None if it goes to sleep. */
  function PopAnswer<T>(s: State<T>, kind: Kind): Option<Outcome<T>>
    requires Chained(s)
  {
    if Queued(s) != [] then Some(Got(Queued(s)[0]))
    else if kind == Try then Some(Empty)
    else if s.closed then Some(Drained)
    else None
  }

  /** The steps a pop has left at most. */
  function PopSteps<T>(pc: Pc<T>): nat {
    match pc
    case PopLock(_) => 14
    case PopPredicate(_) => 13
    case TailLock(_, final) => if final then 8 else 12
    case TailRead(_, final) => if final then 7 else 11
    case TailUnlock(_, final, _) => if final then 6 else 10
    case Compare(_, final, _) => if final then 5 else 9
    case PopTake => 4
    case PopAdvance(_) => 3
    case PopUnlock(_) => 2
    case PopValue(_) => 1
    case PopGiveUp(_) => 1
    case _ => 0
  }

  /** Before the pop of t has changed anything, and where it may be then. */
  ghost predicate Looking<T>(s: State<T>, r: State<T>, t: nat, kind: Kind)
    requires Chained(s) && t < |r.pcs|
  {
    && r.chain == s.chain && r.nodes == s.nodes && r.closed == s.closed && r.popped == s.popped
    && match r.pcs[t]
       case PopLock(k) => k == kind
       case PopPredicate(k) => k == kind && k != Try
       case TailLock(k, final) => k == kind && FinalOk(s, kind, final)
       case TailRead(k, final) => k == kind && FinalOk(s, kind, final)
       case TailUnlock(k, final, seen) => k == kind && FinalOk(s, kind, final) && seen == s.tail
       case Compare(k, final, seen) => k == kind && FinalOk(s, kind, final) && seen == s.tail
       case PopSleep(k) => k == kind && PopAnswer(s, kind) == None
       case PopGiveUp(o) => Queued(s) == [] && PopAnswer(s, kind) == Some(o)
       case PopTake => Queued(s) != []
       case PopAdvance(n) => Queued(s) != [] && n == s.chain[0]
       case Idle(o) => Queued(s) == [] && PopAnswer(s, kind) == Some(o)
       case _ => false
  }

  ghost predicate FinalOk<T>(s: State<T>, kind: Kind, final: bool)
    requires Chained(s)
  {
    if final then kind == Try || s.closed || Queued(s) != [] else kind != Try && !s.closed
  }

  /** After it has taken the first value. */
  ghost predicate Taking<T>(s: State<T>, r: State<T>, t: nat)
    requires Chained(s) && t < |r.pcs|
  {
    && Queued(s) != [] && r.chain == s.chain[1..] && r.popped == s.popped + [Queued(s)[0]]
    && match r.pcs[t]
       case PopUnlock(n) => n < |r.nodes| && r.nodes[n].data == Some(Queued(s)[0])
       case PopValue(n) => n < |r.nodes| && r.nodes[n].data == Some(Queued(s)[0])
       case Idle(o) => o == Got(Queued(s)[0])
       case _ => false
  }

  ghost predicate SoloPop<T>(s: State<T>, r: State<T>, t: nat, kind: Kind)
    requires Chained(s)
  {
    && t < |r.pcs| && r.tail == s.tail && r.pushed == s.pushed
    && OwnLock(r.headLock, t, HoldsHead(r.pcs[t])) && OwnLock(r.tailLock, t, HoldsTail(r.pcs[t]))
    && (Looking(s, r, t, kind) || Taking(s, r, t))
  }

  lemma FrontFacts<T>(s: State<T>)
    requires Chained(s)
    ensures |Queued(s)| == |s.chain| - 1
    ensures s.tail == s.chain[0] <==> Queued(s) == []
    ensures Queued(s) != [] ==> s.chain[0] < |s.nodes| && s.nodes[s.chain[0]].data == Some(Queued(s)[0])
  {
    assert s.chain[|s.chain| - 1] == s.tail;
  }

  /** One step of a pop that is still looking. */
  ghost predicate LooksOn<T>(s: State<T>, r: State<T>, q: State<T>, t: nat, kind: Kind)
    requires Chained(s) && t < |r.pcs|
  {
    SoloPop(s, q, t, kind) && Looking(s, q, t, kind) && PopSteps(q.pcs[t]) < PopSteps(r.pcs[t])
  }

  lemma SoloHeadStep<T>(s: State<T>, r: State<T>, t: nat, kind: Kind)
    requires Chained(s) && SoloPop(s, r, t, kind) && Looking(s, r, t, kind)
    requires r.pcs[t].PopLock? || r.pcs[t].PopPredicate? || r.pcs[t].PopGiveUp?
    ensures LooksOn(s, r, WaitStep(r, t, Go), t, kind)
  {
    hide Chained, Queued;
  }

  lemma SoloTailStep<T>(s: State<T>, r: State<T>, t: nat, kind: Kind)
    requires Chained(s) && SoloPop(s, r, t, kind) && Looking(s, r, t, kind)
    requires r.pcs[t].TailLock? || r.pcs[t].TailRead? || r.pcs[t].TailUnlock?
    ensures LooksOn(s, r, WaitStep(r, t, Go), t, kind)
  {
    hide Chained, Queued, PopAnswer, FinalOk;
  }

  lemma SoloCompareStep<T>(s: State<T>, r: State<T>, t: nat, kind: Kind)
    requires Chained(s) && SoloPop(s, r, t, kind) && Looking(s, r, t, kind)
    requires r.head == Some(s.chain[0]) && r.pcs[t].Compare?
    ensures LooksOn(s, r, WaitStep(r, t, Go), t, kind)
  {
    FrontFacts(s);
    hide Chained, Queued;
  }

  lemma SoloTakes<T>(s: State<T>, r: State<T>, t: nat, kind: Kind)
    requires Chained(s) && SoloPop(s, r, t, kind) && TakeSafe(r, r.pcs[t])
    requires r.pcs[t].PopTake? ==> r.head == Some(s.chain[0])
    requires r.pcs[t].PopTake? || r.pcs[t].PopAdvance?
    ensures var q := TakeStep(r, t);
      SoloPop(s, q, t, kind) && PopSteps(q.pcs[t]) < PopSteps(r.pcs[t])
  {
    FrontFacts(s);
    hide Chained, Queued, PopAnswer, FinalOk;
  }

  lemma SoloReturns<T>(s: State<T>, r: State<T>, t: nat, kind: Kind)
    requires Chained(s) && SoloPop(s, r, t, kind) && TakeSafe(r, r.pcs[t])
    requires r.pcs[t].PopUnlock? || r.pcs[t].PopValue?
    ensures var q := TakeStep(r, t);
      SoloPop(s, q, t, kind) && PopSteps(q.pcs[t]) < PopSteps(r.pcs[t])
  {
    hide Chained, Queued, PopAnswer, FinalOk;
  }

  lemma SoloPopStep<T>(s: State<T>, r: State<T>, t: nat, kind: Kind)
    requires Chained(s) && Inv(r) && SoloPop(s, r, t, kind) && !r.pcs[t].Idle? && !r.pcs[t].PopSleep?
    ensures var q := Next(r, t, Go);
      SoloPop(s, q, t, kind) && PopSteps(q.pcs[t]) < PopSteps(r.pcs[t])
  {
    hide Inv, WaitStep, TakeStep, TakeSafe, Chained;
    ThreadFacts(r, t);
    var pc := r.pcs[t];
    if pc.PopTake? || pc.PopAdvance? { SoloTakes(s, r, t, kind); }
    else if pc.PopUnlock? || pc.PopValue? { SoloReturns(s, r, t, kind); }
    else if pc.Compare? { SoloCompareStep(s, r, t, kind); }
    else if pc.TailLock? || pc.TailRead? || pc.TailUnlock? { SoloTailStep(s, r, t, kind); }
    else { SoloHeadStep(s, r, t, kind); }
  }

  lemma ChainedOf<T>(s: State<T>)
    requires Inv(s)
    ensures Chained(s)
  {
  }

  /** Where the pop of t stands after n steps of its own. */
  ghost predicate PopReaches<T>(s: State<T>, t: nat, kind: Kind, n: nat)
    requires Inv(s)
  {
    SoloPop(s, After(s, Solo(t, BeginPop(kind), n)), t, kind)
  }

  lemma SoloPopBegins<T>(s: State<T>, t: nat, kind: Kind)
    requires Inv(s) && t < |s.pcs| && s.pcs[t].Idle? && s.headLock == None && s.tailLock == None
    ensures PopReaches(s, t, kind, 0) && After(s, Solo(t, BeginPop(kind), 0)).pcs[t] == PopLock(kind)
  {
    hide Inv, Next;
    ChainedOf(s);
    SoloBegins(s, t, BeginPop(kind));
    PopBegins(s, t, kind);
  }

  lemma PopBegins<T>(s: State<T>, t: nat, kind: Kind)
    requires Inv(s) && Chained(s) && t < |s.pcs| && s.pcs[t].Idle? && s.headLock == None && s.tailLock == None
    ensures SoloPop(s, Next(s, t, BeginPop(kind)), t, kind) && Next(s, t, BeginPop(kind)).pcs[t] == PopLock(kind)
  {
    hide Inv, Chained, Queued, PopAnswer, FinalOk;
  }

  /** From any state with both locks free, a pop whose thread alone moves takes the first value
      queued, if there is one; else try_pop answers "empty", a wait on a closed queue answers
      "closed and drained", and a wait on an open one goes to sleep. It pushes nothing and
      takes no other value. */
  lemma PopAlone<T>(s: State<T>, t: nat, kind: Kind)
    requires Inv(s) && t < |s.pcs| && s.pcs[t].Idle? && s.headLock == None && s.tailLock == None
    ensures exists n: nat :: n <= 14 && PopEnds(s, After(s, Solo(t, BeginPop(kind), n)), t, kind)
  {
    hide Inv, Next, Looking, Taking;
    ChainedOf(s);
    SoloPopBegins(s, t, kind);
    var n := 0;
    while !AtEnd(After(s, Solo(t, BeginPop(kind), n)), t)
      invariant PopReaches(s, t, kind, n) && PopSteps(After(s, Solo(t, BeginPop(kind), n)).pcs[t]) + n <= 14
      decreases 14 - n
    {
      SoloPopStep(s, After(s, Solo(t, BeginPop(kind), n)), t, kind);
      SoloNext(s, t, BeginPop(kind), n);
      n := n + 1;
    }
    EndOf(s, After(s, Solo(t, BeginPop(kind), n)), t, kind);
  }

  predicate AtEnd<T>(r: State<T>, t: nat) {
    t < |r.pcs| ==> r.pcs[t].Idle? || r.pcs[t].PopSleep?
  }

  ghost predicate PopEnds<T>(s: State<T>, r: State<T>, t: nat, kind: Kind)
    requires Inv(s) && Inv(r)
  {
    && t < |r.pcs| && r.pushed == s.pushed
    && (if PopAnswer(s, kind) == None then r.pcs[t] == PopSleep(kind) else r.pcs[t] == Idle(PopAnswer(s, kind).value))
    && r.popped == s.popped + (if Queued(s) == [] then [] else [Queued(s)[0]])
    && Queued(r) == if Queued(s) == [] then [] else Queued(s)[1..]
  }

  lemma EndOf<T>(s: State<T>, r: State<T>, t: nat, kind: Kind)
    requires Inv(s) && Inv(r) && SoloPop(s, r, t, kind) && AtEnd(r, t)
    ensures PopEnds(s, r, t, kind)
  {
    Books(s);
    Books(r);
    hide Inv, Queued, Chained, OwnLock;
    RestOf(s.popped, Queued(s), r.popped, Queued(r));
  }

  /** Two ways to cut the same sequence. */
  lemma RestOf<T>(a: seq<T>, b: seq<T>, c: seq<T>, d: seq<T>)
    requires a + b == c + d
    ensures c == a ==> d == b
    ensures b != [] && c == a + [b[0]] ==> d == b[1..]
  {
    assert d == (c + d)[|c|..] == (a + b)[|c|..];
    assert b == (a + b)[|a|..];
  }

  lemma Books<T>(s: State<T>)
    requires Inv(s)
    ensures Chained(s) && s.pushed == s.popped + Queued(s)
  {
  }

  /** A sleeping wait wakes to look again; a timed one may give up instead, and says so. */
  lemma SleepEnds<T>(s: State<T>, t: nat)
    requires Inv(s) && t < |s.pcs| && s.pcs[t].PopSleep?
    ensures Next(s, t, Go).pcs == s.pcs[t := PopLock(s.pcs[t].kind)] && Next(s, t, Go).headLock == None
    ensures s.pcs[t].kind == WaitFor ==> Next(s, t, TimeOut).pcs == s.pcs[t := PopGiveUp(TimedOut)]
  {
    hide Inv, PushStep, TakeStep, TakeSafe;
  }

  lemma GivingUpEnds<T>(s: State<T>, t: nat)
    requires Inv(s) && t < |s.pcs| && s.pcs[t].PopGiveUp?
    ensures Next(s, t, Go).pcs == s.pcs[t := Idle(s.pcs[t].outcome)] && Next(s, t, Go).headLock == None
  {
    hide Inv, PushStep, TakeStep, TakeSafe;
  }

  /** The steps a push has left at most. */
  function PushSteps<T>(pc: Pc<T>): nat {
    match pc
    case PushCheck(_) => 8
    case PushAllocate(_) => 7
    case PushLock(_, _) => 6
    case PushRecheck(_, _) => 5
    case PushData(_, _) => 4
    case PushLink(_, _) => 3
    case PushTail(_, _) => 2
    case PushUnlock(_, _) => 1
    case _ => 0
  }

  /** Where a push of v by t may be that began in s and alone has moved since. */
  ghost predicate SoloPush<T>(s: State<T>, r: State<T>, t: nat, v: T) {
    && t < |r.pcs| && OwnLock(r.tailLock, t, HoldsTail(r.pcs[t])) && r.closed == s.closed && r.popped == s.popped
    && match r.pcs[t]
       case Idle(o) => PushDone(s, r, v) && o == if s.closed then Rejected(v) else Accepted(v)
       case PushUnlock(w, ok) => w == v && ok == !s.closed && PushDone(s, r, v)
       case PushCheck(w) => w == v && r.pushed == s.pushed
       case _ => !s.closed && Pushing(r.pcs[t]) && r.pcs[t].value == v && r.pushed == s.pushed
  }

  ghost predicate PushDone<T>(s: State<T>, r: State<T>, v: T) {
    r.pushed == if s.closed then s.pushed else s.pushed + [v]
  }

  lemma SoloPushStep<T>(s: State<T>, r: State<T>, t: nat, v: T)
    requires SoloPush(s, r, t, v) && !r.pcs[t].Idle? && r.tail < |r.nodes|
    ensures var q := PushStep(r, t);
      SoloPush(s, q, t, v) && PushSteps(q.pcs[t]) < PushSteps(r.pcs[t])
  {
  }

  lemma SoloPushNext<T>(s: State<T>, r: State<T>, t: nat, v: T)
    requires Inv(r) && SoloPush(s, r, t, v) && !r.pcs[t].Idle?
    ensures var q := Next(r, t, Go);
      Inv(q) && SoloPush(s, q, t, v) && PushSteps(q.pcs[t]) < PushSteps(r.pcs[t])
  {
    hide Inv, PushStep;
    InvNext(r, t, Go);
    ThreadFacts(r, t);
    SoloPushStep(s, r, t, v);
  }

  lemma SoloPushBegins<T>(s: State<T>, t: nat, v: T)
    requires Inv(s) && t < |s.pcs| && s.pcs[t].Idle? && s.tailLock == None
    ensures SoloPush(s, Next(s, t, BeginPush(v)), t, v) && Next(s, t, BeginPush(v)).pcs[t] == PushCheck(v)
  {
    hide Inv;
  }

  ghost predicate PushEnds<T>(s: State<T>, r: State<T>, t: nat, v: T)
    requires Inv(s) && Inv(r)
  {
    && t < |r.pcs| && r.pcs[t] == Idle(if s.closed then Rejected(v) else Accepted(v))
    && Queued(r) == if s.closed then Queued(s) else Queued(s) + [v]
  }

  lemma PushEndOf<T>(s: State<T>, r: State<T>, t: nat, v: T)
    requires Inv(s) && Inv(r) && SoloPush(s, r, t, v) && r.pcs[t].Idle?
    ensures PushEnds(s, r, t, v)
  {
    Books(s);
    Books(r);
    hide Inv, Queued, Chained, OwnLock;
    assert s.popped + Queued(s) + [v] == s.popped + (Queued(s) + [v]);
    RestOf(s.popped, if s.closed then Queued(s) else Queued(s) + [v], r.popped, Queued(r));
  }

  /** From any state with the tail lock free, a push whose thread alone moves appends its value
      to an open queue and returns, and throws on a closed one, which stays as it was. */
  lemma PushAlone<T>(s: State<T>, t: nat, v: T)
    requires Inv(s) && t < |s.pcs| && s.pcs[t].Idle? && s.tailLock == None
    ensures exists n: nat :: n <= 8 && PushEnds(s, After(s, Solo(t, BeginPush(v), n)), t, v)
  {
    hide Inv, Next, SoloPush;
    SoloBegins(s, t, BeginPush(v));
    SoloPushBegins(s, t, v);
    SoloHas(s, Next(s, t, BeginPush(v)), t, v);
    var n := 0;
    while !After(s, Solo(t, BeginPush(v), n)).pcs[t].Idle?
      invariant SoloPush(s, After(s, Solo(t, BeginPush(v), n)), t, v)
      invariant t < |After(s, Solo(t, BeginPush(v), n)).pcs|
      invariant PushSteps(After(s, Solo(t, BeginPush(v), n)).pcs[t]) + n <= 8
      decreases 8 - n
    {
      SoloPushNext(s, After(s, Solo(t, BeginPush(v), n)), t, v);
      SoloNext(s, t, BeginPush(v), n);
      SoloHas(s, Next(After(s, Solo(t, BeginPush(v), n)), t, Go), t, v);
      n := n + 1;
    }
    PushEndOf(s, After(s, Solo(t, BeginPush(v), n)), t, v);
  }

  lemma SoloHas<T>(s: State<T>, r: State<T>, t: nat, v: T)
    requires SoloPush(s, r, t, v)
    ensures t < |r.pcs|
  {
  }
}
