/** The two-lock queue as a step system. Each thread has a program counter; one step is one
    atomic action of the source, steps are sequentially consistent, and a thread that waits
    for a lock does not move. A thread asleep on the condition variable may wake at any time. */
module Queues {
  import opened Outcomes
  import opened Sequences

  datatype Node<T> = Node(data: Option<T>, next: Option<nat>)

  /** The three ways to pop: wait_pop_head, wait_pop_head_for and try_pop_head. */
  datatype Kind = Wait | WaitFor | Try

  /** How a thread's last call ended. */
  datatype Outcome<T> = NoCall | Accepted(value: T) | Rejected(value: T) | Got(value: T)
                      | Drained | TimedOut | Empty | ClosedIt

  datatype Pc<T> =
    | Idle(outcome: Outcome<T>)
    // push
    | PushCheck(value: T)
    | PushAllocate(value: T)
    | PushLock(value: T, made: nat)
    | PushRecheck(value: T, made: nat)
    | PushData(value: T, made: nat)
    | PushLink(value: T, made: nat)
    | PushTail(value: T, made: nat)
    | PushUnlock(value: T, ok: bool)
    // close
    | CloseStore
    // pop; `final` tells the emptiness check after the wait from the one inside it
    | PopLock(kind: Kind)
    | PopPredicate(kind: Kind)
    | TailLock(kind: Kind, final: bool)
    | TailRead(kind: Kind, final: bool)
    | TailUnlock(kind: Kind, final: bool, seen: nat)
    | Compare(kind: Kind, final: bool, seen: nat)
    | PopSleep(kind: Kind)
    | PopTake
    | PopAdvance(taken: nat)
    | PopUnlock(taken: nat)
    | PopValue(taken: nat)
    | PopGiveUp(outcome: Outcome<T>)

  /** nodes, head, tail, the locks, closed and pcs are the program's state. chain lists the
      nodes the queue owns, front to tail; pushed, popped and returned record values in the
      order of tail updates, head updates and returns; drained records that some waiting pop
      has returned "closed and drained". */
  datatype State<T> = State(
    nodes: seq<Node<T>>, head: Option<nat>, tail: nat,
    headLock: Option<nat>, tailLock: Option<nat>, closed: bool, pcs: seq<Pc<T>>,
    chain: seq<nat>, pushed: seq<T>, popped: seq<T>, returned: seq<T>, drained: bool)

  /** What a scheduled thread is asked to do where it has a choice. */
  datatype Move<T> = Go | BeginPush(value: T) | BeginPop(kind: Kind) | BeginClose | TimeOut

  function Init<T>(threads: nat): State<T> {
    State([Node(None, None)], Some(0), 0, None, None, false, seq(threads, _ => Idle(NoCall)), [0], [], [], [], false)
  }

  // ---- invariant ----

  predicate HoldsHead<T>(pc: Pc<T>) {
    pc.PopPredicate? || pc.TailLock? || pc.TailRead? || pc.TailUnlock? || pc.Compare? || pc.PopSleep?
    || pc.PopTake? || pc.PopAdvance? || pc.PopUnlock? || pc.PopGiveUp?
  }

  predicate HoldsTail<T>(pc: Pc<T>) {
    pc.PushRecheck? || pc.PushData? || pc.PushLink? || pc.PushTail? || pc.PushUnlock? || pc.TailRead? || pc.TailUnlock?
  }

  /** Between the check of closed under the tail lock and the update of tail. */
  predicate Committed<T>(pc: Pc<T>) {
    pc.PushData? || pc.PushLink? || pc.PushTail?
  }

  /** Holding a node that no other thread can reach. */
  predicate HasMade<T>(pc: Pc<T>) {
    pc.PushLock? || pc.PushRecheck? || pc.PushData? || pc.PushLink? || pc.PushTail?
  }

  predicate HasTaken<T>(pc: Pc<T>) {
    pc.PopUnlock? || pc.PopValue?
  }

  predicate InSection<T>(pc: Pc<T>, lock: Option<nat>, t: nat, inside: bool) {
    inside <==> lock == Some(t)
  }

  /** A lock is held exactly by the thread inside its section. */
  predicate Locks<T>(s: State<T>) {
    && (forall t :: 0 <= t < |s.pcs| ==>
          && InSection(s.pcs[t], s.headLock, t, HoldsHead(s.pcs[t]))
          && InSection(s.pcs[t], s.tailLock, t, HoldsTail(s.pcs[t])))
    && (s.headLock.Some? ==> s.headLock.value < |s.pcs|)
    && (s.tailLock.Some? ==> s.tailLock.value < |s.pcs|)
  }

  function OwnerPc<T>(s: State<T>, lock: Option<nat>): Pc<T> {
    if lock.Some? && lock.value < |s.pcs| then s.pcs[lock.value] else Idle(NoCall)
  }

  /** Every node but the tail has a value and links to its successor. */
  predicate Chained<T>(s: State<T>) {
    && |s.chain| >= 1 && Distinct(s.chain)
    && (forall k :: 0 <= k < |s.chain| ==> s.chain[k] < |s.nodes|)
    && s.chain[|s.chain| - 1] == s.tail
    && (forall k {:trigger s.nodes[s.chain[k]]} :: 0 <= k < |s.chain| - 1 ==>
          s.nodes[s.chain[k]].data.Some? && s.nodes[s.chain[k]].next == Some(s.chain[k + 1]))
  }

  /** The tail node is blank, but for what a committed push has written so far. */
  ghost predicate TailNode<T>(s: State<T>)
    requires s.tail < |s.nodes|
  {
    match OwnerPc(s, s.tailLock)
    case PushLink(v, n) => s.nodes[s.tail] == Node(Some(v), None)
    case PushTail(v, n) => s.nodes[s.tail] == Node(Some(v), Some(n))
    case _ => s.nodes[s.tail] == Node(None, None)
  }

  /** head is the front, but for the moment a pop has moved it out. */
  predicate HeadNode<T>(s: State<T>)
    requires |s.chain| >= 1
  {
    match OwnerPc(s, s.headLock)
    case PopAdvance(n) => s.head == None && n == s.chain[0] && |s.chain| >= 2
    case _ => s.head == Some(s.chain[0])
  }

  /** Closed, empty, and no push past its check. */
  predicate Sealed<T>(s: State<T>) {
    s.closed && |s.chain| == 1 && !Committed(OwnerPc(s, s.tailLock))
  }

  /** What holds at each program point, for the thread there. */
  ghost predicate ThreadOk<T>(s: State<T>, pc: Pc<T>) {
    && (HasMade(pc) ==> pc.made < |s.nodes| && pc.made !in s.chain && s.nodes[pc.made] == Node(None, None))
    && (HasTaken(pc) ==> pc.taken < |s.nodes| && pc.taken !in s.chain && s.nodes[pc.taken].data.Some?)
    && match pc
       case PushUnlock(v, ok) => if ok then v in s.pushed else s.closed
       case Idle(o) => OutcomeOk(s, o)
       case TailLock(k, final) => final && k != Try ==> s.closed || |s.chain| >= 2
       case TailRead(k, final) => final && k != Try ==> s.closed || |s.chain| >= 2
       case TailUnlock(k, final, seen) => SeenOk(s, k, final, seen)
       case Compare(k, final, seen) => SeenOk(s, k, final, seen)
       case PopTake => |s.chain| >= 2
       case PopGiveUp(o) => !o.Accepted? && !o.Rejected? && !o.Got? && OutcomeOk(s, o)
       case _ => true
  }

  /** What the outcome of a call says of the queue, then and ever after. */
  ghost predicate OutcomeOk<T>(s: State<T>, o: Outcome<T>) {
    && (o.Accepted? ==> o.value in s.pushed)
    && (o.Rejected? ==> s.closed)
    && (o.Drained? ==> Sealed(s))
  }

  /** The tail just read was in the queue; reading the front itself on the final check of a
      wait means that the queue is sealed. */
  predicate SeenOk<T>(s: State<T>, k: Kind, final: bool, seen: nat) {
    seen in s.chain && (final && k != Try && seen == s.chain[0] ==> Sealed(s))
  }

  predicate MadeApart<T>(s: State<T>) {
    forall t, u :: 0 <= t < u < |s.pcs| && HasMade(s.pcs[t]) && HasMade(s.pcs[u]) ==> s.pcs[t].made != s.pcs[u].made
  }

  function Values<T>(nodes: seq<Node<T>>, ids: seq<nat>): (vs: seq<T>)
    requires forall k :: 0 <= k < |ids| ==> ids[k] < |nodes| && nodes[ids[k]].data.Some?
    ensures |vs| == |ids|
    ensures forall k :: 0 <= k < |ids| ==> vs[k] == nodes[ids[k]].data.value
  {
    seq(|ids|, k requires 0 <= k < |ids| => nodes[ids[k]].data.value)
  }

  /** The values queued. */
  function Queued<T>(s: State<T>): seq<T>
    requires Chained(s)
  {
    Values(s.nodes, s.chain[..|s.chain| - 1])
  }

  /** The value a pop has taken out of the queue and not yet returned. */
  ghost function Held<T>(nodes: seq<Node<T>>, pc: Pc<T>): multiset<T> {
    if HasTaken(pc) && pc.taken < |nodes| && nodes[pc.taken].data.Some?
    then multiset{nodes[pc.taken].data.value} else multiset{}
  }

  ghost function AllHeld<T>(nodes: seq<Node<T>>, pcs: seq<Pc<T>>): multiset<T> {
    if pcs == [] then multiset{} else AllHeld(nodes, pcs[..|pcs| - 1]) + Held(nodes, pcs[|pcs| - 1])
  }

  ghost predicate Inv<T>(s: State<T>) {
    && Locks(s) && Chained(s) && TailNode(s) && HeadNode(s) && MadeApart(s)
    && (forall t :: 0 <= t < |s.pcs| ==> ThreadOk(s, s.pcs[t]))
    && s.pushed == s.popped + Queued(s)
    && multiset(s.popped) == multiset(s.returned) + AllHeld(s.nodes, s.pcs)
    && (s.drained ==> Sealed(s))
  }

  lemma InitInv<T>(threads: nat)
    ensures Inv(Init<T>(threads))
  {
    NoneHeld<T>([Node(None, None)], Init<T>(threads).pcs);
  }

  lemma {:induction false} NoneHeld<T>(nodes: seq<Node<T>>, pcs: seq<Pc<T>>)
    requires forall t :: 0 <= t < |pcs| ==> !HasTaken(pcs[t])
    ensures AllHeld(nodes, pcs) == multiset{}
  {
    if pcs != [] { NoneHeld(nodes, pcs[..|pcs| - 1]); }
  }

  // ---- steps ----

  function At<T>(s: State<T>, t: nat, pc: Pc<T>): State<T>
    requires t < |s.pcs|
  {
    s.(pcs := s.pcs[t := pc])
  }

  /** Writes the field of a node through a pointer. */
  function SetNode<T>(s: State<T>, i: nat, n: Node<T>): State<T>
    requires i < |s.nodes|
  {
    s.(nodes := s.nodes[i := n])
  }

  function PushStep<T>(s: State<T>, t: nat): State<T>
    requires t < |s.pcs| && s.tail < |s.nodes|
  {
    match s.pcs[t]
    case PushCheck(v) => At(s, t, if s.closed then Idle(Rejected(v)) else PushAllocate(v))
    case PushAllocate(v) => At(s.(nodes := s.nodes + [Node(None, None)]), t, PushLock(v, |s.nodes|))
    case PushLock(v, n) => if s.tailLock == None then At(s.(tailLock := Some(t)), t, PushRecheck(v, n)) else s
    case PushRecheck(v, n) => At(s, t, if s.closed then PushUnlock(v, false) else PushData(v, n))
    case PushData(v, n) => At(SetNode(s, s.tail, s.nodes[s.tail].(data := Some(v))), t, PushLink(v, n))
    case PushLink(v, n) => At(SetNode(s, s.tail, s.nodes[s.tail].(next := Some(n))), t, PushTail(v, n))
    case PushTail(v, n) =>
      At(s.(tail := n, chain := s.chain + [n], pushed := s.pushed + [v]), t, PushUnlock(v, true))
    case PushUnlock(v, ok) => At(s.(tailLock := None), t, Idle(if ok then Accepted(v) else Rejected(v)))
    case _ => s
  }

  /** wait and is_empty: from taking the head lock to knowing whether to pop. */
  function WaitStep<T>(s: State<T>, t: nat, m: Move<T>): State<T>
    requires t < |s.pcs|
  {
    match s.pcs[t]
    case PopLock(k) =>
      if s.headLock != None then s
      else At(s.(headLock := Some(t)), t, if k == Try then TailLock(k, true) else PopPredicate(k))
    case PopPredicate(k) => At(s, t, TailLock(k, s.closed))
    case TailLock(k, final) => if s.tailLock == None then At(s.(tailLock := Some(t)), t, TailRead(k, final)) else s
    case TailRead(k, final) => At(s, t, TailUnlock(k, final, s.tail))
    case TailUnlock(k, final, seen) => At(s.(tailLock := None), t, Compare(k, final, seen))
    case Compare(k, final, seen) =>
      var empty := s.head == Some(seen);
      At(s, t, if !final then (if empty then PopSleep(k) else TailLock(k, true))
               else if !empty then PopTake
               else PopGiveUp(if k == Try then Empty else Drained))
    case PopSleep(k) =>
      if m == TimeOut && k == WaitFor then At(s, t, PopGiveUp(TimedOut))
      else At(s.(headLock := None), t, PopLock(k))
    case PopGiveUp(o) => At(s.(headLock := None, drained := s.drained || o.Drained?), t, Idle(o))
    case _ => s
  }

  /** The pointers a pop is about to follow are not null and lead to a value. */
  predicate TakeSafe<T>(s: State<T>, pc: Pc<T>) {
    && (pc.PopTake? ==> s.head.Some?)
    && (pc.PopAdvance? || pc.PopValue? ==> pc.taken < |s.nodes| && s.nodes[pc.taken].data.Some?)
    && (pc.PopAdvance? ==> |s.chain| >= 2 && pc.taken == s.chain[0])
  }

  /** pop_head and the use of the node it returns. */
  function TakeStep<T>(s: State<T>, t: nat): State<T>
    requires t < |s.pcs| && TakeSafe(s, s.pcs[t])
  {
    match s.pcs[t]
    case PopTake => At(s.(head := None), t, PopAdvance(s.head.value))
    case PopAdvance(n) =>
      var node := s.nodes[n];
      At(SetNode(s.(head := node.next, chain := s.chain[1..], popped := s.popped + [node.data.value]),
                 n, node.(next := None)), t, PopUnlock(n))
    case PopUnlock(n) => At(s.(headLock := None), t, PopValue(n))
    case PopValue(n) =>
      var v := s.nodes[n].data.value;
      At(s.(returned := s.returned + [v]), t, Idle(Got(v)))
    case _ => s
  }

  /** No pop ever follows a null pointer or reads a missing value. */
  lemma PopIsSafe<T>(s: State<T>, t: nat)
    requires Inv(s) && t < |s.pcs|
    ensures TakeSafe(s, s.pcs[t])
  {
    assert ThreadOk(s, s.pcs[t]);
    assert InSection(s.pcs[t], s.headLock, t, HoldsHead(s.pcs[t]));
    if s.pcs[t].PopAdvance? { assert s.nodes[s.chain[0]].data.Some?; }
  }

  /** One step of thread t; a blocked thread leaves the state as it is. */
  function Next<T>(s: State<T>, t: nat, m: Move<T>): State<T>
    requires Inv(s)
  {
    if t >= |s.pcs| then s
    else
      match s.pcs[t]
      case Idle(_) =>
        (match m
         case BeginPush(v) => At(s, t, PushCheck(v))
         case BeginPop(k) => At(s, t, PopLock(k))
         case BeginClose => At(s, t, CloseStore)
         case _ => s)
      case CloseStore => At(s.(closed := true), t, Idle(ClosedIt))
      case PopTake => PopIsSafe(s, t); TakeStep(s, t)
      case PopAdvance(_) => PopIsSafe(s, t); TakeStep(s, t)
      case PopUnlock(_) => PopIsSafe(s, t); TakeStep(s, t)
      case PopValue(_) => PopIsSafe(s, t); TakeStep(s, t)
      case _ => if s.pcs[t].PushCheck? || s.pcs[t].PushAllocate? || HasMade(s.pcs[t]) || s.pcs[t].PushUnlock?
                then PushStep(s, t) else WaitStep(s, t, m)
  }

  // ---- every step keeps the invariant ----

  /** How a lock may change when one thread moves. */
  predicate LockMoves(before: Option<nat>, after: Option<nat>, t: nat, was: bool, now: bool) {
    if was == now then after == before else if now then before == None && after == Some(t) else after == None
  }

  lemma LocksKept<T>(s: State<T>, r: State<T>, t: nat, pc: Pc<T>)
    requires Locks(s) && t < |s.pcs| && r.pcs == s.pcs[t := pc]
    requires LockMoves(s.headLock, r.headLock, t, HoldsHead(s.pcs[t]), HoldsHead(pc))
    requires LockMoves(s.tailLock, r.tailLock, t, HoldsTail(s.pcs[t]), HoldsTail(pc))
    ensures Locks(r)
  {
  }

  /** What one step of thread t may do to the facts other threads rely on. */
  ghost predicate Effect<T>(s: State<T>, r: State<T>, t: nat) {
    && t < |s.pcs| == |r.pcs| && |s.nodes| <= |r.nodes|
    && (forall i :: 0 <= i < |s.nodes| && i !in s.chain ==> r.nodes[i] == s.nodes[i])
    && (s.closed ==> r.closed) && (forall v :: v in s.pushed ==> v in r.pushed)
    && (|| r.chain == s.chain
        || (HasMade(s.pcs[t]) && r.chain == s.chain + [s.pcs[t].made])
        || (HoldsHead(s.pcs[t]) && |s.chain| >= 2 && r.chain == s.chain[1..]))
    && (Sealed(s) ==> Sealed(r))
  }

  lemma OthersOk<T>(s: State<T>, r: State<T>, t: nat, u: nat)
    requires Locks(s) && MadeApart(s) && |s.chain| >= 1 && Effect(s, r, t)
    requires u < |s.pcs| && u != t && r.pcs[u] == s.pcs[u]
    requires ThreadOk(s, s.pcs[t]) && ThreadOk(s, s.pcs[u])
    ensures ThreadOk(r, r.pcs[u])
  {
    var pc := s.pcs[u];
    if HasMade(s.pcs[t]) && r.chain == s.chain + [s.pcs[t].made] {
      assert HasMade(pc) ==> pc.made != s.pcs[t].made;
      assert forall x :: x in r.chain <==> x in s.chain || x == s.pcs[t].made;
    } else if r.chain != s.chain {
      assert HoldsHead(s.pcs[t]) ==> !HoldsHead(pc);
      assert forall x :: x in r.chain ==> x in s.chain;
    }
  }

  lemma AllThreadsOk<T>(s: State<T>, r: State<T>, t: nat, pc: Pc<T>)
    requires Locks(s) && MadeApart(s) && Chained(s) && Effect(s, r, t) && r.pcs == s.pcs[t := pc]
    requires forall u :: 0 <= u < |s.pcs| ==> ThreadOk(s, s.pcs[u])
    requires ThreadOk(r, pc)
    ensures forall u :: 0 <= u < |r.pcs| ==> ThreadOk(r, r.pcs[u])
  {
    forall u | 0 <= u < |r.pcs| ensures ThreadOk(r, r.pcs[u]) {
      if u != t { OthersOk(s, r, t, u); }
    }
  }

  lemma {:induction false} HeldUpdate<T>(nodes: seq<Node<T>>, pcs: seq<Pc<T>>, t: nat, pc: Pc<T>)
    requires t < |pcs|
    ensures AllHeld(nodes, pcs[t := pc]) + Held(nodes, pcs[t]) == AllHeld(nodes, pcs) + Held(nodes, pc)
  {
    hide Held;
    var n, qcs := |pcs| - 1, pcs[t := pc];
    if t < n {
      HeldUpdate(nodes, pcs[..n], t, pc);
      assert qcs[..n] == pcs[..n][t := pc] && qcs[n] == pcs[n];
    } else {
      assert qcs[..n] == pcs[..n] && qcs[n] == pc;
    }
    Exchange(AllHeld(nodes, qcs[..n]), Held(nodes, pcs[t]), AllHeld(nodes, pcs[..n]), Held(nodes, pc),
             Held(nodes, pcs[n]));
  }

  lemma Exchange<T>(a: multiset<T>, b: multiset<T>, c: multiset<T>, d: multiset<T>, e: multiset<T>)
    ensures a + b == c + d ==> (a + e) + b == (c + e) + d
    ensures a == c && b == e ==> (a + d) + b == (c + e) + d
  {
    if a + b == c + d {
      forall x ensures ((a + e) + b)[x] == ((c + e) + d)[x] { assert (a + b)[x] == (c + d)[x]; }
    }
  }

  lemma Cancel<T>(a: multiset<T>, b: multiset<T>, h: multiset<T>)
    requires a + h == b + h
    ensures a == b
  {
    forall x ensures a[x] == b[x] { assert (a + h)[x] == (b + h)[x]; }
  }

  lemma {:induction false} HeldFramed<T>(before: seq<Node<T>>, after: seq<Node<T>>, pcs: seq<Pc<T>>)
    requires forall t :: 0 <= t < |pcs| ==> Held(after, pcs[t]) == Held(before, pcs[t])
    ensures AllHeld(after, pcs) == AllHeld(before, pcs)
  {
    if pcs != [] { HeldFramed(before, after, pcs[..|pcs| - 1]); }
  }

  /** Program points at which a node is half written or head is moved out. */
  predicate Delicate<T>(pc: Pc<T>) {
    pc.PushLink? || pc.PushTail? || pc.PopAdvance?
  }

  function MoveLock(lock: Option<nat>, t: nat, was: bool, now: bool): Option<nat> {
    if was == now then lock else if now then Some(t) else None
  }

  /** A step that moves only locks, flags and the program counter. */
  function Quiet<T>(s: State<T>, t: nat, pc: Pc<T>, closed: bool, drained: bool): State<T>
    requires t < |s.pcs|
  {
    s.(pcs := s.pcs[t := pc], closed := closed, drained := drained,
       headLock := MoveLock(s.headLock, t, HoldsHead(s.pcs[t]), HoldsHead(pc)),
       tailLock := MoveLock(s.tailLock, t, HoldsTail(s.pcs[t]), HoldsTail(pc)))
  }

  lemma QuietStep<T>(s: State<T>, t: nat, pc: Pc<T>, closed: bool, drained: bool)
    requires Inv(s) && t < |s.pcs|
    requires HoldsHead(pc) && !HoldsHead(s.pcs[t]) ==> s.headLock == None
    requires HoldsTail(pc) && !HoldsTail(s.pcs[t]) ==> s.tailLock == None
    requires !Delicate(s.pcs[t]) && !Delicate(pc)
    requires HasMade(pc) ==> HasMade(s.pcs[t]) && pc.made == s.pcs[t].made
    requires Held(s.nodes, pc) == Held(s.nodes, s.pcs[t])
    requires (s.closed ==> closed) && (Committed(pc) ==> !s.closed)
    requires (drained ==> s.drained || pc == Idle(Drained)) && (pc == Idle(Drained) ==> Sealed(s))
    requires ThreadOk(Quiet(s, t, pc, closed, drained), pc)
    ensures Inv(Quiet(s, t, pc, closed, drained))
  {
    hide ThreadOk, Locks, Chained, MadeApart, TailNode, HeadNode, Sealed, Held, AllHeld;
    var r := Quiet(s, t, pc, closed, drained);
    LocksKept(s, r, t, pc);
    SealedKept(s, r, t, pc);
    AllThreadsOk(s, r, t, pc);
    HeldUpdate(s.nodes, s.pcs, t, pc);
    QuietShape(s, r, t, pc);
    QueuedSame(s, r);
    Cancel(AllHeld(r.nodes, r.pcs), AllHeld(s.nodes, s.pcs), Held(s.nodes, pc));
  }

  lemma SealedKept<T>(s: State<T>, r: State<T>, t: nat, pc: Pc<T>)
    requires Locks(s) && Locks(r) && t < |s.pcs| && r.pcs == s.pcs[t := pc]
    requires r.chain == s.chain && (s.closed ==> r.closed) && (Committed(pc) ==> !s.closed)
    ensures Sealed(s) ==> Sealed(r)
  {
    if r.tailLock.Some? && r.tailLock.value != t {
      var u := r.tailLock.value;
      assert InSection(r.pcs[u], r.tailLock, u, HoldsTail(r.pcs[u]));
      assert InSection(s.pcs[u], s.tailLock, u, HoldsTail(s.pcs[u]));
    }
  }

  lemma QueuedSame<T>(s: State<T>, r: State<T>)
    requires Chained(s) && Chained(r) && r.nodes == s.nodes && r.chain == s.chain
    ensures Queued(r) == Queued(s)
  {
  }

  lemma QuietShape<T>(s: State<T>, r: State<T>, t: nat, pc: Pc<T>)
    requires Locks(s) && Locks(r) && Chained(s) && TailNode(s) && HeadNode(s) && MadeApart(s)
    requires t < |s.pcs| && r.pcs == s.pcs[t := pc]
    requires r.nodes == s.nodes && r.head == s.head && r.tail == s.tail && r.chain == s.chain
    requires !Delicate(s.pcs[t]) && !Delicate(pc)
    requires HasMade(pc) ==> HasMade(s.pcs[t]) && pc.made == s.pcs[t].made
    ensures Chained(r) && TailNode(r) && HeadNode(r) && MadeApart(r)
  {
    OwnerDelicate(s, r, t, pc);
  }

  /** A step between program points that are not delicate leaves delicate owners as they are. */
  lemma OwnerDelicate<T>(s: State<T>, r: State<T>, t: nat, pc: Pc<T>)
    requires Locks(s) && Locks(r) && t < |s.pcs| && r.pcs == s.pcs[t := pc]
    requires !Delicate(s.pcs[t]) && !Delicate(pc)
    ensures Delicate(OwnerPc(s, s.tailLock)) || Delicate(OwnerPc(r, r.tailLock)) ==>
      OwnerPc(r, r.tailLock) == OwnerPc(s, s.tailLock)
    ensures Delicate(OwnerPc(s, s.headLock)) || Delicate(OwnerPc(r, r.headLock)) ==>
      OwnerPc(r, r.headLock) == OwnerPc(s, s.headLock)
  {
    if s.tailLock.Some? && s.tailLock.value != t {
      assert r.pcs[s.tailLock.value] == s.pcs[s.tailLock.value];
    }
    if s.headLock.Some? && s.headLock.value != t {
      assert r.pcs[s.headLock.value] == s.pcs[s.headLock.value];
    }
    if r.tailLock.Some? { assert HoldsTail(r.pcs[r.tailLock.value]); }
    if r.headLock.Some? { assert HoldsHead(r.pcs[r.headLock.value]); }
  }

  /** What the invariant says to the thread about to move. */
  lemma ThreadFacts<T>(s: State<T>, t: nat)
    requires Inv(s) && t < |s.pcs|
    ensures ThreadOk(s, s.pcs[t])
    ensures InSection(s.pcs[t], s.headLock, t, HoldsHead(s.pcs[t]))
    ensures InSection(s.pcs[t], s.tailLock, t, HoldsTail(s.pcs[t]))
    ensures |s.chain| >= 1 && s.tail < |s.nodes| && s.tail in s.chain && (s.tail == s.chain[0] ==> |s.chain| == 1)
    ensures HoldsHead(s.pcs[t]) && !s.pcs[t].PopAdvance? ==> s.head == Some(s.chain[0])
    ensures HoldsTail(s.pcs[t]) ==> OwnerPc(s, s.tailLock) == s.pcs[t]
    ensures TakeSafe(s, s.pcs[t]) && (forall i :: i in s.chain ==> i < |s.nodes|)
  {
    PopIsSafe(s, t);
  }

  /** A push that only reads closed or moves the tail lock. */
  lemma InvPushQuiet<T>(s: State<T>, t: nat)
    requires Inv(s) && t < |s.pcs|
    requires s.pcs[t].PushCheck? || s.pcs[t].PushLock? || s.pcs[t].PushRecheck? || s.pcs[t].PushUnlock?
    ensures s.tail < |s.nodes| && Inv(PushStep(s, t))
  {
    hide Inv, Sealed;
    ThreadFacts(s, t);
    PushLeads(s, t);
    var r := PushStep(s, t);
    hide PushStep;
    if r.pcs != s.pcs { QuietStep(s, t, r.pcs[t], s.closed, s.drained); }
  }

  lemma PushLeads<T>(s: State<T>, t: nat)
    requires t < |s.pcs| && s.tail < |s.nodes|
    requires s.pcs[t].PushCheck? || s.pcs[t].PushLock? || s.pcs[t].PushRecheck? || s.pcs[t].PushUnlock?
    ensures var r := PushStep(s, t);
      var at, pc := s.pcs[t], r.pcs[t];
      && (r == s || r == Quiet(s, t, pc, s.closed, s.drained))
      && match at
         case PushCheck(v) => pc == Idle(Rejected(v)) || pc == PushAllocate(v)
         case PushLock(v, n) => if s.tailLock == None then pc == PushRecheck(v, n) else r == s
         case PushRecheck(v, n) => pc == if s.closed then PushUnlock(v, false) else PushData(v, n)
         case PushUnlock(v, ok) => pc == Idle(if ok then Accepted(v) else Rejected(v))
         case _ => true
  {
  }

  lemma InvPopLock<T>(s: State<T>, t: nat, m: Move<T>)
    requires Inv(s) && t < |s.pcs| && (s.pcs[t].PopLock? || s.pcs[t].PopPredicate? || s.pcs[t].TailLock?)
    ensures Inv(WaitStep(s, t, m))
  {
    hide Inv, Sealed;
    ThreadFacts(s, t);
    var r := WaitStep(s, t, m);
    if r.pcs != s.pcs { QuietStep(s, t, r.pcs[t], s.closed, s.drained); }
  }

  lemma InvPopSleep<T>(s: State<T>, t: nat, m: Move<T>)
    requires Inv(s) && t < |s.pcs| && s.pcs[t].PopSleep?
    ensures Inv(WaitStep(s, t, m))
  {
    hide Inv, Sealed;
    ThreadFacts(s, t);
    SleepLeads(s, t, m);
    var pc := WaitStep(s, t, m).pcs[t];
    hide WaitStep;
    QuietStep(s, t, pc, s.closed, s.drained);
  }

  lemma SleepLeads<T>(s: State<T>, t: nat, m: Move<T>)
    requires t < |s.pcs| && s.pcs[t].PopSleep?
    ensures var pc, k := WaitStep(s, t, m).pcs[t], s.pcs[t].kind;
      && WaitStep(s, t, m) == Quiet(s, t, pc, s.closed, s.drained)
      && (pc == PopLock(k) || pc == PopGiveUp(TimedOut))
  {
  }

  lemma InvPopGiveUp<T>(s: State<T>, t: nat, m: Move<T>)
    requires Inv(s) && t < |s.pcs| && s.pcs[t].PopGiveUp?
    ensures Inv(WaitStep(s, t, m))
  {
    hide Inv;
    ThreadFacts(s, t);
    var r := WaitStep(s, t, m);
    QuietStep(s, t, r.pcs[t], s.closed, r.drained);
  }

  /** Reading the tail under its lock: finding the front there on the final check of a wait
      means closed was seen and no push can be past its own check. */
  lemma InvTailRead<T>(s: State<T>, t: nat, m: Move<T>)
    requires Inv(s) && t < |s.pcs| && s.pcs[t].TailRead?
    ensures Inv(WaitStep(s, t, m))
  {
    hide Inv;
    ThreadFacts(s, t);
    var r := WaitStep(s, t, m);
    QuietStep(s, t, r.pcs[t], s.closed, s.drained);
  }

  lemma InvTailUnlock<T>(s: State<T>, t: nat, m: Move<T>)
    requires Inv(s) && t < |s.pcs| && s.pcs[t].TailUnlock?
    ensures Inv(WaitStep(s, t, m))
  {
    hide Inv;
    ThreadFacts(s, t);
    var at := s.pcs[t];
    var pc := Compare(at.kind, at.final, at.seen);
    UnlockLeads(s, t, m);
    UnlockKeepsSealed(s, Quiet(s, t, pc, s.closed, s.drained), t, pc);
    hide WaitStep, Sealed;
    QuietStep(s, t, pc, s.closed, s.drained);
  }

  lemma UnlockLeads<T>(s: State<T>, t: nat, m: Move<T>)
    requires t < |s.pcs| && s.pcs[t].TailUnlock?
    ensures var at := s.pcs[t];
      WaitStep(s, t, m) == Quiet(s, t, Compare(at.kind, at.final, at.seen), s.closed, s.drained)
  {
  }

  lemma UnlockKeepsSealed<T>(s: State<T>, r: State<T>, t: nat, pc: Pc<T>)
    requires t < |s.pcs| && r.pcs == s.pcs[t := pc] && r.tailLock == None
    requires r.chain == s.chain && r.closed == s.closed
    ensures Sealed(s) ==> Sealed(r)
  {
  }

  lemma InvCompare<T>(s: State<T>, t: nat, m: Move<T>)
    requires Inv(s) && t < |s.pcs| && s.pcs[t].Compare?
    ensures Inv(WaitStep(s, t, m))
  {
    hide Inv, Sealed;
    ThreadFacts(s, t);
    SeenFrontOrMore(s, s.pcs[t].seen);
    CompareLeads(s, t, m);
    var pc := WaitStep(s, t, m).pcs[t];
    SealedAlike(s, Quiet(s, t, pc, s.closed, s.drained), t, pc);
    hide WaitStep;
    QuietStep(s, t, pc, s.closed, s.drained);
  }

  lemma SealedAlike<T>(s: State<T>, r: State<T>, t: nat, pc: Pc<T>)
    requires t < |s.pcs| && r.pcs == s.pcs[t := pc] && r.chain == s.chain && r.closed == s.closed
    requires r.tailLock == s.tailLock != Some(t)
    ensures Sealed(r) == Sealed(s)
  {
  }

  lemma SeenFrontOrMore<T>(s: State<T>, seen: nat)
    requires seen in s.chain
    ensures seen == s.chain[0] || |s.chain| >= 2
  {
  }

  /** Where the comparison of head and tail leads. */
  lemma CompareLeads<T>(s: State<T>, t: nat, m: Move<T>)
    requires t < |s.pcs| && s.pcs[t].Compare? && |s.chain| >= 1 && s.head == Some(s.chain[0])
    ensures var pc, at := WaitStep(s, t, m).pcs[t], s.pcs[t];
      && WaitStep(s, t, m) == Quiet(s, t, pc, s.closed, s.drained)
      && if !at.final then pc == (if at.seen == s.chain[0] then PopSleep(at.kind) else TailLock(at.kind, true))
         else if at.seen != s.chain[0] then pc == PopTake
         else pc == PopGiveUp(if at.kind == Try then Empty else Drained)
  {
  }

  lemma InvPopUnlock<T>(s: State<T>, t: nat)
    requires Inv(s) && t < |s.pcs| && TakeSafe(s, s.pcs[t]) && s.pcs[t].PopUnlock?
    ensures Inv(TakeStep(s, t))
  {
    hide Inv, Sealed;
    ThreadFacts(s, t);
    QuietStep(s, t, TakeStep(s, t).pcs[t], s.closed, s.drained);
  }

  // ---- steps that write nodes, head or tail ----

  /** The pieces of the invariant, put together for a step of thread t to program point pc. */
  lemma Assemble<T>(s: State<T>, r: State<T>, t: nat, pc: Pc<T>)
    requires Inv(s) && t < |s.pcs| && r.pcs == s.pcs[t := pc]
    requires LockMoves(s.headLock, r.headLock, t, HoldsHead(s.pcs[t]), HoldsHead(pc))
    requires LockMoves(s.tailLock, r.tailLock, t, HoldsTail(s.pcs[t]), HoldsTail(pc))
    requires Effect(s, r, t) && ThreadOk(r, pc) && NodesOk(r)
    requires HasMade(pc) ==> if HasMade(s.pcs[t]) then pc.made == s.pcs[t].made else pc.made >= |s.nodes|
    requires forall u :: 0 <= u < |s.pcs| ==> Held(r.nodes, s.pcs[u]) == Held(s.nodes, s.pcs[u])
    requires multiset(r.popped) + Held(s.nodes, s.pcs[t]) + multiset(s.returned)
          == multiset(s.popped) + Held(r.nodes, pc) + multiset(r.returned)
    requires r.drained == s.drained
    ensures Inv(r)
  {
    hide ThreadOk, Chained, TailNode, HeadNode, Sealed, Held, AllHeld, Queued;
    LocksKept(s, r, t, pc);
    AllThreadsOk(s, r, t, pc);
    MadeStaysApart(s, r, t, pc);
    HeldFramed(s.nodes, r.nodes, s.pcs);
    HeldUpdate(r.nodes, s.pcs, t, pc);
    Balance(multiset(s.popped), multiset(r.popped), multiset(s.returned), multiset(r.returned),
            AllHeld(s.nodes, s.pcs), AllHeld(r.nodes, r.pcs), Held(s.nodes, s.pcs[t]), Held(r.nodes, pc));
  }

  lemma MadeStaysApart<T>(s: State<T>, r: State<T>, t: nat, pc: Pc<T>)
    requires MadeApart(s) && t < |s.pcs| && r.pcs == s.pcs[t := pc]
    requires forall u :: 0 <= u < |s.pcs| ==> ThreadOk(s, s.pcs[u])
    requires HasMade(pc) ==> if HasMade(s.pcs[t]) then pc.made == s.pcs[t].made else pc.made >= |s.nodes|
    ensures MadeApart(r)
  {
    forall u | 0 <= u < |s.pcs| && HasMade(s.pcs[u]) ensures s.pcs[u].made < |s.nodes| {
      assert ThreadOk(s, s.pcs[u]);
    }
  }

  lemma Balance<T>(p: multiset<T>, q: multiset<T>, v: multiset<T>, w: multiset<T>,
                   a: multiset<T>, b: multiset<T>, h: multiset<T>, k: multiset<T>)
    requires p == v + a && b + h == a + k && q + h + v == p + k + w
    ensures q == w + b
  {
    forall x ensures q[x] == (w + b)[x] {
      assert (b + h)[x] == (a + k)[x] && (q + h + v)[x] == (p + k + w)[x] && p[x] == (v + a)[x];
    }
  }

  /** Nodes that pops have taken are not in the chain, so writes to the chain miss them. */
  lemma HeldUntouched<T>(s: State<T>, nodes: seq<Node<T>>)
    requires |s.nodes| <= |nodes|
    requires forall u :: 0 <= u < |s.pcs| ==> ThreadOk(s, s.pcs[u])
    requires forall i :: 0 <= i < |s.nodes| && i !in s.chain ==> nodes[i] == s.nodes[i]
    ensures forall u :: 0 <= u < |s.pcs| ==> Held(nodes, s.pcs[u]) == Held(s.nodes, s.pcs[u])
  {
    forall u | 0 <= u < |s.pcs| ensures Held(nodes, s.pcs[u]) == Held(s.nodes, s.pcs[u]) {
      assert ThreadOk(s, s.pcs[u]);
    }
  }

  /** The part of the invariant that speaks of the nodes. */
  ghost predicate NodesOk<T>(s: State<T>) {
    Chained(s) && TailNode(s) && HeadNode(s) && s.pushed == s.popped + Queued(s)
  }

  lemma AllocateShape<T>(s: State<T>, t: nat)
    requires Inv(s) && t < |s.pcs| && s.pcs[t].PushAllocate?
    ensures NodesOk(PushStep(s, t))
  {
    hide ThreadOk, MadeApart, AllHeld;
    var r := PushStep(s, t);
    LocksKept(s, r, t, r.pcs[t]);
    OwnerDelicate(s, r, t, r.pcs[t]);
    assert Queued(r) == Queued(s);
  }

  /** A committed push writes the value of the tail node. */
  lemma DataShape<T>(s: State<T>, t: nat)
    requires Inv(s) && t < |s.pcs| && s.pcs[t].PushData?
    ensures NodesOk(PushStep(s, t))
  {
    hide ThreadOk, MadeApart, AllHeld;
    var r := PushStep(s, t);
    LocksKept(s, r, t, r.pcs[t]);
    assert Queued(r) == Queued(s);
  }

  /** It writes the link: the new node is reachable but not yet the tail. */
  lemma LinkShape<T>(s: State<T>, t: nat)
    requires Inv(s) && t < |s.pcs| && s.pcs[t].PushLink?
    ensures NodesOk(PushStep(s, t))
  {
    hide ThreadOk, MadeApart, AllHeld;
    var r := PushStep(s, t);
    LocksKept(s, r, t, r.pcs[t]);
    assert Queued(r) == Queued(s);
  }

  /** It moves the tail: the value is pushed. */
  lemma TailShape<T>(s: State<T>, t: nat)
    requires Inv(s) && t < |s.pcs| && s.pcs[t].PushTail?
    ensures NodesOk(PushStep(s, t))
  {
    hide ThreadOk, MadeApart, AllHeld, Queued;
    TailChained(s, t);
    LocksKept(s, PushStep(s, t), t, PushStep(s, t).pcs[t]);
  }

  lemma TailChained<T>(s: State<T>, t: nat)
    requires Inv(s) && t < |s.pcs| && s.pcs[t].PushTail?
    ensures var r := PushStep(s, t);
      Chained(r) && Queued(r) == Queued(s) + [s.pcs[t].value] && TailNode(r) && r.chain[0] == s.chain[0]
  {
    hide MadeApart, HeadNode, AllHeld, Locks, Chained, Queued;
    ThreadFacts(s, t);
    ChainAppended(s, PushStep(s, t));
  }

  lemma ChainAppended<T>(s: State<T>, r: State<T>)
    requires Chained(s) && r.nodes == s.nodes && r.chain == s.chain + [r.tail]
    requires r.tail < |s.nodes| && r.tail !in s.chain
    requires s.nodes[s.tail].data.Some? && s.nodes[s.tail].next == Some(r.tail)
    ensures Chained(r) && Queued(r) == Queued(s) + [s.nodes[s.tail].data.value] && r.chain[0] == s.chain[0]
  {
    var n := |s.chain|;
    AppendKeepsDistinct(s.chain, r.tail);
    assert forall k :: 0 <= k < n ==> r.chain[k] == s.chain[k];
    assert r.chain[..n] == s.chain;
  }

  lemma FrontDropped<T>(s: State<T>, r: State<T>)
    requires Chained(s) && |s.chain| >= 2 && r.chain == s.chain[1..] && r.tail == s.tail
    requires |r.nodes| == |s.nodes| && forall i :: 0 <= i < |s.nodes| && i != s.chain[0] ==> r.nodes[i] == s.nodes[i]
    ensures Chained(r) && Queued(s) == [s.nodes[s.chain[0]].data.value] + Queued(r) && s.chain[0] !in r.chain
  {
    var n := |s.chain|;
    assert forall k :: 0 <= k < n - 1 ==> r.chain[k] == s.chain[k + 1] && s.chain[k + 1] != s.chain[0];
    assert forall k :: 0 <= k < n - 1 ==> r.nodes[r.chain[k]] == s.nodes[r.chain[k]];
  }

  lemma TakeShape<T>(s: State<T>, t: nat)
    requires Inv(s) && t < |s.pcs| && TakeSafe(s, s.pcs[t]) && s.pcs[t].PopTake?
    ensures NodesOk(TakeStep(s, t))
  {
    hide MadeApart, AllHeld;
    ThreadFacts(s, t);
    var r := TakeStep(s, t);
    LocksKept(s, r, t, r.pcs[t]);
    OwnerKept(s, r, t, r.pcs[t]);
    assert Queued(r) == Queued(s);
  }

  lemma AdvanceShape<T>(s: State<T>, t: nat)
    requires Inv(s) && t < |s.pcs| && TakeSafe(s, s.pcs[t]) && s.pcs[t].PopAdvance?
    ensures NodesOk(TakeStep(s, t))
  {
    hide ThreadOk, MadeApart, AllHeld, Queued;
    var r := TakeStep(s, t);
    AdvanceChained(s, t);
    LocksKept(s, r, t, r.pcs[t]);
    OwnerKept(s, r, t, r.pcs[t]);
  }

  lemma OwnerKept<T>(s: State<T>, r: State<T>, t: nat, pc: Pc<T>)
    requires Locks(s) && t < |s.pcs| && r.pcs == s.pcs[t := pc] && r.tailLock == s.tailLock && !HoldsTail(s.pcs[t])
    ensures OwnerPc(r, r.tailLock) == OwnerPc(s, s.tailLock)
  {
    assert InSection(s.pcs[t], s.tailLock, t, HoldsTail(s.pcs[t]));
  }

  lemma AdvanceChained<T>(s: State<T>, t: nat)
    requires Inv(s) && t < |s.pcs| && TakeSafe(s, s.pcs[t]) && s.pcs[t].PopAdvance?
    ensures var r := TakeStep(s, t);
      && Chained(r) && |s.chain| >= 2 && s.pcs[t].taken == s.chain[0]
      && Queued(s) == [s.nodes[s.chain[0]].data.value] + Queued(r)
      && s.nodes[s.chain[0]].next == Some(s.chain[1]) && s.tail != s.chain[0] && s.chain[0] !in r.chain
  {
    hide ThreadOk, MadeApart, AllHeld, TailNode, Queued;
    FrontDropped(s, TakeStep(s, t));
    assert s.nodes[s.chain[0]].next == Some(s.chain[1]);
    hide Chained, Locks, HeadNode;
    ThreadFacts(s, t);
  }

  lemma ValueShape<T>(s: State<T>, t: nat)
    requires Inv(s) && t < |s.pcs| && TakeSafe(s, s.pcs[t]) && s.pcs[t].PopValue?
    ensures NodesOk(TakeStep(s, t))
  {
    hide ThreadOk, MadeApart, AllHeld;
    var r := TakeStep(s, t);
    LocksKept(s, r, t, r.pcs[t]);
    OwnerDelicate(s, r, t, r.pcs[t]);
    assert Queued(r) == Queued(s);
  }

  lemma PushEffect<T>(s: State<T>, t: nat)
    requires Inv(s) && t < |s.pcs|
    requires s.pcs[t].PushAllocate? || s.pcs[t].PushData? || s.pcs[t].PushLink?
    ensures Effect(s, PushStep(s, t), t) && ThreadOk(PushStep(s, t), PushStep(s, t).pcs[t])
  {
    hide Inv;
    ThreadFacts(s, t);
    SealedOwner(s, t);
  }

  lemma TailEffect<T>(s: State<T>, t: nat)
    requires Inv(s) && t < |s.pcs| && s.pcs[t].PushTail?
    ensures Effect(s, PushStep(s, t), t) && ThreadOk(PushStep(s, t), PushStep(s, t).pcs[t])
  {
    hide Inv;
    ThreadFacts(s, t);
  }

  lemma TakeEffect<T>(s: State<T>, t: nat)
    requires Inv(s) && t < |s.pcs| && s.pcs[t].PopTake?
    ensures TakeSafe(s, s.pcs[t]) && Effect(s, TakeStep(s, t), t) && ThreadOk(TakeStep(s, t), TakeStep(s, t).pcs[t])
  {
    hide Inv;
    ThreadFacts(s, t);
    SealedOwner(s, t);
  }

  lemma AdvanceEffect<T>(s: State<T>, t: nat)
    requires Inv(s) && t < |s.pcs| && s.pcs[t].PopAdvance? && TakeSafe(s, s.pcs[t])
    ensures Effect(s, TakeStep(s, t), t) && ThreadOk(TakeStep(s, t), TakeStep(s, t).pcs[t])
  {
    hide Inv;
    ThreadFacts(s, t);
    AdvanceChained(s, t);
  }

  lemma ValueEffect<T>(s: State<T>, t: nat)
    requires Inv(s) && t < |s.pcs| && s.pcs[t].PopValue? && TakeSafe(s, s.pcs[t])
    ensures Effect(s, TakeStep(s, t), t) && ThreadOk(TakeStep(s, t), TakeStep(s, t).pcs[t])
  {
    hide Inv;
    ThreadFacts(s, t);
    SealedOwner(s, t);
  }

  /** A thread outside the tail section does not change who owns the tail lock. */
  lemma SealedOwner<T>(s: State<T>, t: nat)
    requires Inv(s) && t < |s.pcs|
    ensures s.tailLock == Some(t) ==> OwnerPc(s, s.tailLock) == s.pcs[t]
    ensures s.tailLock != Some(t) ==> !HoldsTail(s.pcs[t])
    ensures forall pc: Pc<T> :: s.tailLock != Some(t) ==> OwnerPc(At(s, t, pc), s.tailLock) == OwnerPc(s, s.tailLock)
  {
  }

  lemma InvWrite<T>(s: State<T>, t: nat)
    requires Inv(s) && t < |s.pcs|
    requires s.pcs[t].PushAllocate? || s.pcs[t].PushData? || s.pcs[t].PushLink? || s.pcs[t].PushTail?
    ensures s.tail < |s.nodes| && Inv(PushStep(s, t))
  {
    hide Inv, Effect, ThreadOk, NodesOk, TakeSafe;
    ThreadFacts(s, t);
    var r := PushStep(s, t);
    match s.pcs[t] {
      case PushAllocate(_) => AllocateShape(s, t); PushEffect(s, t);
      case PushData(_, _) => DataShape(s, t); PushEffect(s, t);
      case PushLink(_, _) => LinkShape(s, t); PushEffect(s, t);
      case PushTail(_, _) => TailShape(s, t); TailEffect(s, t);
    }
    WriteLeads(s, t);
    hide PushStep;
    WritesMissHeld(s, r.nodes);
    Assemble(s, r, t, r.pcs[t]);
  }

  /** What a write leaves alone, and where it leads. */
  lemma WriteLeads<T>(s: State<T>, t: nat)
    requires Inv(s) && t < |s.pcs|
    requires s.pcs[t].PushAllocate? || s.pcs[t].PushData? || s.pcs[t].PushLink? || s.pcs[t].PushTail?
    ensures var r, at := PushStep(s, t), s.pcs[t];
      && r.pcs == s.pcs[t := r.pcs[t]] && r.headLock == s.headLock && r.tailLock == s.tailLock
      && r.popped == s.popped && r.returned == s.returned && r.drained == s.drained
      && HoldsHead(r.pcs[t]) == HoldsHead(at) && HoldsTail(r.pcs[t]) == HoldsTail(at)
      && !HasTaken(at) && !HasTaken(r.pcs[t])
      && (HasMade(r.pcs[t]) ==> if HasMade(at) then r.pcs[t].made == at.made else r.pcs[t].made >= |s.nodes|)
      && |s.nodes| <= |r.nodes| && forall i :: 0 <= i < |s.nodes| && i !in s.chain ==> r.nodes[i] == s.nodes[i]
  {
    hide Inv;
    ThreadFacts(s, t);
  }

  lemma WritesMissHeld<T>(s: State<T>, nodes: seq<Node<T>>)
    requires Inv(s) && |s.nodes| <= |nodes|
    requires forall i :: 0 <= i < |s.nodes| && i !in s.chain ==> nodes[i] == s.nodes[i]
    ensures forall u :: 0 <= u < |s.pcs| ==> Held(nodes, s.pcs[u]) == Held(s.nodes, s.pcs[u])
  {
    HeldUntouched(s, nodes);
  }

  lemma InvTake<T>(s: State<T>, t: nat)
    requires Inv(s) && t < |s.pcs| && TakeSafe(s, s.pcs[t]) && s.pcs[t].PopTake?
    ensures Inv(TakeStep(s, t))
  {
    hide Inv, Effect, ThreadOk, NodesOk;
    ThreadFacts(s, t);
    TakeShape(s, t);
    TakeEffect(s, t);
    Assemble(s, TakeStep(s, t), t, TakeStep(s, t).pcs[t]);
  }

  lemma InvValue<T>(s: State<T>, t: nat)
    requires Inv(s) && t < |s.pcs| && TakeSafe(s, s.pcs[t]) && s.pcs[t].PopValue?
    ensures Inv(TakeStep(s, t))
  {
    hide Inv, Effect, ThreadOk, NodesOk;
    ThreadFacts(s, t);
    var r, v := TakeStep(s, t), s.nodes[s.pcs[t].taken].data.value;
    ValueShape(s, t);
    ValueEffect(s, t);
    assert r.returned == s.returned + [v];
    assert Held(r.nodes, r.pcs[t]) == multiset{} && Held(s.nodes, s.pcs[t]) == multiset{v};
    Assemble(s, r, t, r.pcs[t]);
  }

  lemma InvAdvance<T>(s: State<T>, t: nat)
    requires Inv(s) && t < |s.pcs| && TakeSafe(s, s.pcs[t]) && s.pcs[t].PopAdvance?
    ensures Inv(TakeStep(s, t))
  {
    hide Inv, Effect, ThreadOk, NodesOk;
    ThreadFacts(s, t);
    var r, n := TakeStep(s, t), s.pcs[t].taken;
    var v := s.nodes[n].data.value;
    AdvanceShape(s, t);
    AdvanceEffect(s, t);
    WritesMissHeld(s, r.nodes);
    assert r.popped == s.popped + [v] && r.nodes[n].data == Some(v);
    assert Held(r.nodes, r.pcs[t]) == multiset{v} && Held(s.nodes, s.pcs[t]) == multiset{};
    Assemble(s, r, t, r.pcs[t]);
  }

  lemma InvBegin<T>(s: State<T>, t: nat, m: Move<T>)
    requires Inv(s) && t < |s.pcs| && (s.pcs[t].Idle? || s.pcs[t].CloseStore?)
    ensures Inv(Next(s, t, m))
  {
    hide Inv;
    ThreadFacts(s, t);
    var r := Next(s, t, m);
    if r != s { QuietStep(s, t, r.pcs[t], r.closed, s.drained); }
  }

  /** Whatever thread moves, and however it chooses, the invariant is kept. */
  lemma InvNext<T>(s: State<T>, t: nat, m: Move<T>)
    requires Inv(s)
    ensures Inv(Next(s, t, m))
  {
    hide Inv, PushStep, WaitStep, TakeStep, TakeSafe;
    if t < |s.pcs| {
      match s.pcs[t] {
        case Idle(_) => InvBegin(s, t, m);
        case CloseStore => InvBegin(s, t, m);
        case PushCheck(_) => InvPushQuiet(s, t);
        case PushAllocate(_) => InvWrite(s, t);
        case PushLock(_, _) => InvPushQuiet(s, t);
        case PushRecheck(_, _) => InvPushQuiet(s, t);
        case PushData(_, _) => InvWrite(s, t);
        case PushLink(_, _) => InvWrite(s, t);
        case PushTail(_, _) => InvWrite(s, t);
        case PushUnlock(_, _) => InvPushQuiet(s, t);
        case PopLock(_) => InvPopLock(s, t, m);
        case PopPredicate(_) => InvPopLock(s, t, m);
        case TailLock(_, _) => InvPopLock(s, t, m);
        case TailRead(_, _) => InvTailRead(s, t, m);
        case TailUnlock(_, _, _) => InvTailUnlock(s, t, m);
        case Compare(_, _, _) => InvCompare(s, t, m);
        case PopSleep(_) => InvPopSleep(s, t, m);
        case PopGiveUp(_) => InvPopGiveUp(s, t, m);
        case PopTake => PopIsSafe(s, t); InvTake(s, t);
        case PopAdvance(_) => PopIsSafe(s, t); InvAdvance(s, t);
        case PopUnlock(_) => PopIsSafe(s, t); InvPopUnlock(s, t);
        case PopValue(_) => PopIsSafe(s, t); InvValue(s, t);
      }
    }
  }

  // ---- runs ----

  /** One entry of a schedule: which thread moves, and its choice. */
  datatype Turn<T> = Turn(thread: nat, move: Move<T>)

  /** The state after a schedule, starting from s. */
  ghost function After<T>(s: State<T>, turns: seq<Turn<T>>): (r: State<T>)
    requires Inv(s)
    ensures Inv(r)
    decreases |turns|
  {
    if turns == [] then s
    else
      InvNext(s, turns[0].thread, turns[0].move);
      After(Next(s, turns[0].thread, turns[0].move), turns[1..])
  }

  lemma {:induction false} AfterOneMore<T>(s: State<T>, turns: seq<Turn<T>>, turn: Turn<T>)
    requires Inv(s)
    ensures After(s, turns + [turn]) == Next(After(s, turns), turn.thread, turn.move)
    decreases |turns|
  {
    hide Inv, Next;
    var more := turns + [turn];
    if turns == [] {
      assert more[0] == turn && more[1..] == [];
      InvNext(s, turn.thread, turn.move);
      assert After(Next(s, turn.thread, turn.move), []) == Next(s, turn.thread, turn.move);
    } else {
      InvNext(s, turns[0].thread, turns[0].move);
      AfterOneMore(Next(s, turns[0].thread, turns[0].move), turns[1..], turn);
      assert more[0] == turns[0] && more[1..] == turns[1..] + [turn];
    }
  }

  // ---- first in, first out ----

  /** The values met on the way from node `from` to node `to` along the links, if the way
      exists within fuel links. */
  function Walk<T>(nodes: seq<Node<T>>, from: nat, to: nat, fuel: nat): Option<seq<T>>
    decreases fuel
  {
    if from == to then Some([])
    else if fuel == 0 || from >= |nodes| || nodes[from].data == None || nodes[from].next == None then None
    else
      var rest := Walk(nodes, nodes[from].next.value, to, fuel - 1);
      if rest == None then None else Some([nodes[from].data.value] + rest.value)
  }

  /** head, or while a pop has moved it out, the node that pop is holding. */
  function Front<T>(s: State<T>): nat {
    if s.head.Some? then s.head.value
    else match OwnerPc(s, s.headLock) case PopAdvance(n) => n case _ => 0
  }

  lemma {:induction false} WalkMeetsChain<T>(s: State<T>, k: nat, fuel: nat)
    requires Chained(s) && k < |s.chain| && fuel >= |s.chain| - 1 - k
    ensures Walk(s.nodes, s.chain[k], s.tail, fuel) == Some(Values(s.nodes, s.chain[k..|s.chain| - 1]))
    decreases |s.chain| - k
  {
    var n := |s.chain| - 1;
    if k < n {
      WalkMeetsChain(s, k + 1, fuel - 1);
      assert s.nodes[s.chain[k]].next == Some(s.chain[k + 1]);
      assert s.chain[k] != s.chain[n];
      assert s.chain[k..n] == [s.chain[k]] + s.chain[k + 1..n];
      assert Values(s.nodes, s.chain[k..n]) == [s.nodes[s.chain[k]].data.value] + Values(s.nodes, s.chain[k + 1..n]);
    } else {
      assert s.chain[k..n] == [];
    }
  }

  /** In every interleaving: the values popped, then those met along the links from the front
      to the tail, are exactly the values pushed, in order; and the tail starts no further
      part of the queue, its link being set only while a push holds the tail lock. */
  lemma FirstInFirstOut<T>(threads: nat, turns: seq<Turn<T>>)
    ensures Inv(Init<T>(threads))
    ensures var s := After(Init<T>(threads), turns);
      var rest := Walk(s.nodes, Front(s), s.tail, |s.pushed|);
      && rest.Some? && s.pushed == s.popped + rest.value
      && s.tail < |s.nodes| && (s.tailLock == None ==> s.nodes[s.tail] == Node(None, None))
  {
    InitInv<T>(threads);
    var s := After(Init<T>(threads), turns);
    WalkMeetsChain(s, 0, |s.pushed|);
  }

  /** In every interleaving: each value pushed is still queued, or taken by exactly one pop
      that has not returned, or returned exactly once. */
  lemma NothingLostOrDuplicated<T>(threads: nat, turns: seq<Turn<T>>)
    ensures Inv(Init<T>(threads))
    ensures var s := After(Init<T>(threads), turns);
      multiset(s.pushed) == multiset(s.returned) + AllHeld(s.nodes, s.pcs) + multiset(Queued(s))
  {
    InitInv<T>(threads);
  }

  /** In every interleaving: a push that returned has its value in the queue's history, a push
      throws only once the queue is closed, and a wait reports "closed and drained" only when
      the queue is closed, empty, and has no push under way that could still fill it. */
  lemma OutcomesHold<T>(threads: nat, turns: seq<Turn<T>>, t: nat)
    ensures Inv(Init<T>(threads))
    ensures var s := After(Init<T>(threads), turns);
      t < |s.pcs| && s.pcs[t].Idle? ==> OutcomeOk(s, s.pcs[t].outcome)
  {
    InitInv<T>(threads);
    var s := After(Init<T>(threads), turns);
    hide Inv;
    if t < |s.pcs| { ThreadFacts(s, t); }
  }

  // ---- closing ----

  lemma SealedMoves<T>(s: State<T>, t: nat)
    requires Inv(s) && Sealed(s) && t < |s.pcs|
    ensures !Committed(s.pcs[t]) && !s.pcs[t].PopTake? && !s.pcs[t].PopAdvance?
  {
    ThreadFacts(s, t);
  }

  /** Between s and r only locks, flags, blank nodes, returns and t's program counter differ. */
  ghost predicate QueueKept<T>(s: State<T>, r: State<T>, t: nat) {
    && t < |s.pcs| == |r.pcs| && r.pcs == s.pcs[t := r.pcs[t]]
    && r.chain == s.chain && r.pushed == s.pushed && r.popped == s.popped
    && (s.closed ==> r.closed) && (s.drained ==> r.drained) && (Committed(r.pcs[t]) ==> !s.closed)
  }

  lemma PushKeepsQueue<T>(s: State<T>, t: nat)
    requires t < |s.pcs| && s.tail < |s.nodes| && !Committed(s.pcs[t])
    ensures QueueKept(s, PushStep(s, t), t)
  {
  }

  lemma WaitKeepsQueue<T>(s: State<T>, t: nat, m: Move<T>)
    requires t < |s.pcs| && !Committed(s.pcs[t])
    ensures QueueKept(s, WaitStep(s, t, m), t)
  {
  }

  lemma OthersKeepQueue<T>(s: State<T>, t: nat, m: Move<T>)
    requires Inv(s) && t < |s.pcs| && !Committed(s.pcs[t]) && !s.pcs[t].PopTake? && !s.pcs[t].PopAdvance?
    ensures QueueKept(s, Next(s, t, m), t)
  {
    hide Inv, PushStep, WaitStep;
    ThreadFacts(s, t);
    PushKeepsQueue(s, t);
    WaitKeepsQueue(s, t, m);
  }

  lemma SealedStays<T>(s: State<T>, t: nat, m: Move<T>)
    requires Inv(s) && Sealed(s)
    ensures var r := Next(s, t, m);
      Sealed(r) && r.pushed == s.pushed && r.popped == s.popped && (s.drained ==> r.drained)
  {
    if t < |s.pcs| {
      var r := Next(s, t, m);
      hide Inv, Locks, Sealed, Next;
      SealedMoves(s, t);
      OthersKeepQueue(s, t, m);
      InvNext(s, t, m);
      LocksOf(s);
      LocksOf(r);
      ClosedIfSealed(s);
      SealedKept(s, r, t, r.pcs[t]);
    }
  }

  lemma LocksOf<T>(s: State<T>)
    requires Inv(s)
    ensures Locks(s)
  {
  }

  lemma ClosedIfSealed<T>(s: State<T>)
    requires Sealed(s)
    ensures s.closed
  {
  }

  /** Once a waiting pop has returned "closed and drained", no push succeeds in any later
      state and the queue stays empty, whatever pushes were in flight when close was called. */
  lemma {:induction false} DrainedIsFinal<T>(s: State<T>, turns: seq<Turn<T>>)
    requires Inv(s) && s.drained
    ensures var r := After(s, turns);
      r.drained && r.closed && r.pushed == s.pushed && r.popped == s.popped && Queued(r) == []
    decreases |turns|
  {
    DrainedMeansSealed(s);
    if turns != [] {
      hide Inv, Next;
      var t, m := turns[0].thread, turns[0].move;
      InvNext(s, t, m);
      SealedStays(s, t, m);
      DrainedIsFinal(Next(s, t, m), turns[1..]);
    }
  }

  lemma DrainedMeansSealed<T>(s: State<T>)
    requires Inv(s) && s.drained
    ensures Sealed(s) && s.closed && Queued(s) == []
  {
  }

  // ---- no deadlock ----

  ghost predicate CanMove<T>(s: State<T>, t: nat)
    requires Inv(s)
  {
    t < |s.pcs| && Next(s, t, Go) != s
  }

  /** Only a lock that is held keeps a thread inside a call from moving. */
  predicate Unblocked<T>(s: State<T>, t: nat)
    requires t < |s.pcs|
  {
    && !s.pcs[t].Idle?
    && (s.pcs[t].PopLock? ==> s.headLock == None)
    && (s.pcs[t].PushLock? || s.pcs[t].TailLock? ==> s.tailLock == None)
  }

  lemma UnblockedMoves<T>(s: State<T>, t: nat)
    requires Inv(s) && t < |s.pcs| && Unblocked(s, t)
    ensures CanMove(s, t)
  {
    ThreadFacts(s, t);
    hide Inv;
    assert Next(s, t, Go).pcs[t] != s.pcs[t];
  }

  /** A thread that keeps others waiting: it owns the tail lock, or the head lock while the
      tail lock is free. */
  function Blocker<T>(s: State<T>): nat {
    if s.tailLock.Some? then s.tailLock.value else if s.headLock.Some? then s.headLock.value else 0
  }

  /** While a lock is held, some thread can move: the owner of the tail lock always can, and
      the owner of the head lock waits for nothing but the tail lock. */
  lemma SomeoneMoves<T>(s: State<T>)
    requires Inv(s) && (s.headLock.Some? || s.tailLock.Some?)
    ensures CanMove(s, Blocker(s)) && Unblocked(s, Blocker(s))
  {
    ThreadFacts(s, Blocker(s));
    UnblockedMoves(s, Blocker(s));
  }
}
