/** The object pool as a value: which slots are used and free, in list order, and what they
    hold. The class ValueRepo does exactly these steps; runs of the pool are studied here. */
module Pools {
  import opened Outcomes
  import opened Sequences
  import opened IndexedLists

  datatype PoolError = SizeTooLarge | IndexOutOfRange | UseUnused | RemoveNonexistent | ReturnUnused | InvalidSize

  /** used and free list slot numbers, head first; values are indexed by slot. */
  datatype Pool<V> = Pool(used: seq<nat>, free: seq<nat>, values: seq<Option<V>>)

  /** Every slot is in exactly one of the two lists, and a used slot has a value. */
  predicate Partitioned<V>(p: Pool<V>) {
    && Distinct(p.used) && Distinct(p.free) && Apart(p.used, p.free)
    && |p.used| + |p.free| == |p.values|
    && (forall x :: x in p.used ==> x < |p.values| && p.values[x].Some?)
    && (forall x :: x in p.free ==> x < |p.values|)
    && (forall x :: 0 <= x < |p.values| ==> x in p.used || x in p.free)
  }

  /** The partial map the pool stands for. */
  function Live<V>(p: Pool<V>): map<nat, V>
    requires Partitioned(p)
  {
    map x | x in p.used :: p.values[x].value
  }

  // ---- single operations ----

  /** The guard of grow: one more growth by half would pass the size_t maximum. */
  predicate TooLarge(top: nat, size: nat)
    requires top >= 1
  {
    size > (top - 1) / 3 * 2
  }

  function GrownSize(size: nat): nat { size + size / 2 + 1 }

  /** Whenever the guard lets a growth through, the new size does not wrap. */
  lemma GrownSizeFits(top: nat, size: nat)
    requires top >= 1 && !TooLarge(top, size)
    ensures GrownSize(size) <= top
  {
  }

  /** The guard is exact but for one size, which it refuses although it would still fit. */
  lemma GuardGap(top: nat, size: nat)
    requires top >= 1
    ensures TooLarge(top, size) && GrownSize(size) <= top <==>
            size == (top - 1) / 3 * 2 + 1 && (top - 1) % 3 != 0
  {
  }

  /** The size in 64-bit arithmetic; no vector of slots gets there. */
  lemma GuardGap64(top: nat, size: nat)
    requires top == 0xFFFF_FFFF_FFFF_FFFF && size == 12297829382473034409
    ensures TooLarge(top, size) && GrownSize(size) <= top
  {
    GuardGap(top, size);
  }

  function Grow<V>(p: Pool<V>): Pool<V> {
    var size := |p.values|;
    p.(free := Range(size, GrownSize(size)),
       values := p.values + seq(GrownSize(size) - size, _ => None))
  }

  function Reuse<V>(p: Pool<V>, value: V): (r: (Pool<V>, nat))
    requires Partitioned(p) && p.free != []
  {
    var id := p.free[0];
    assert id in p.free;
    (Pool([id] + p.used, p.free[1..], p.values[id := Some(value)]), id)
  }

  function Assign<V>(p: Pool<V>, top: nat, value: V): (Pool<V>, Result<nat, PoolError>)
    requires Partitioned(p) && top >= 1
  {
    if p.free != [] then
      var (q, id) := Reuse(p, value); (q, Ok(id))
    else if TooLarge(top, |p.values|) then
      (p, Err(SizeTooLarge))
    else
      GrowPartitioned(p);
      var (q, id) := Reuse(Grow(p), value); (q, Ok(id))
  }

  lemma GrowPartitioned<V>(p: Pool<V>)
    requires Partitioned(p) && p.free == []
    ensures Partitioned(Grow(p)) && Grow(p).free != [] && Live(Grow(p)) == Live(p)
  {
    var size, q := |p.values|, Grow(p);
    forall x | size <= x < |q.values| ensures x in q.free {
      assert q.free[x - size] == x;
    }
  }

  lemma FirstGrow<V>(p: Pool<V>)
    requires p == Pool([], [], [])
    ensures Partitioned(p) && Grow(p) == Pool([], [0], [None]) && Partitioned(Grow(p))
  {
    GrowPartitioned(p);
    assert Range(0, 1) == [0];
  }

  /** The first value takes slot 0 and fills the pool, which can still grow. */
  lemma FirstAssigned<V>(p: Pool<V>, top: nat, value: V)
    requires p == Pool([], [], []) && top >= 4
    ensures Partitioned(p) && Assign(p, top, value).0 == Pool([0], [], [Some(value)]) && !TooLarge(top, 1)
  {
    FirstGrow(p);
    hide Grow, Partitioned;
    assert [None][0 := Some(value)] == [Some(value)];
    assert Reuse(Grow(p), value).0 == Pool([0], [], [Some(value)]);
  }

  function Position(s: seq<nat>, x: nat): (k: nat)
    requires x in s
    ensures k < |s| && s[k] == x
  {
    if s[0] == x then 0 else 1 + Position(s[1..], x)
  }

  /** The slot moves from the used list to the head of the free list. */
  function Release<V>(p: Pool<V>, id: nat, kept: Option<V>): Pool<V>
    requires id in p.used && id < |p.values|
  {
    Pool(RemoveAt(p.used, Position(p.used, id)), [id] + p.free, p.values[id := kept])
  }

  function CheckUsed<V>(p: Pool<V>, id: nat, unused: PoolError): (r: Result<(), PoolError>)
    ensures r.Ok? <==> id < |p.values| && id in p.used
    ensures r.Err? ==> r.error == DeadError(|p.values|, id, unused)
  {
    if id >= |p.values| then Err(IndexOutOfRange) else if id !in p.used then Err(unused) else Ok(())
  }

  // ---- runs ----

  /** Calls a client can make; Write stands for assigning through the reference that
      get_object returns. */
  datatype Op<V> = AssignOp(value: V) | RemoveOp(id: nat) | ReturnOp(id: nat) | GetOp(id: nat)
                 | WriteOp(id: nat, value: V)

  datatype Reply<V> = Id(id: nat) | Done | Value(value: V) | Thrown(error: PoolError)

  function Step<V>(p: Pool<V>, top: nat, op: Op<V>): (Pool<V>, Reply<V>)
    requires Partitioned(p) && top >= 1
  {
    match op
    case AssignOp(v) =>
      var (q, r) := Assign(p, top, v);
      (q, if r.Ok? then Id(r.value) else Thrown(r.error))
    case RemoveOp(id) =>
      var r := CheckUsed(p, id, RemoveNonexistent);
      if r.Err? then (p, Thrown(r.error)) else (Release(p, id, None), Done)
    case ReturnOp(id) =>
      var r := CheckUsed(p, id, ReturnUnused);
      if r.Err? then (p, Thrown(r.error)) else (Release(p, id, p.values[id]), Done)
    case GetOp(id) =>
      var r := CheckUsed(p, id, UseUnused);
      if r.Err? then (p, Thrown(r.error)) else (p, Value(p.values[id].value))
    case WriteOp(id, v) =>
      var r := CheckUsed(p, id, UseUnused);
      if r.Err? then (p, Thrown(r.error)) else (p.(values := p.values[id := Some(v)]), Done)
  }

  // ---- every step keeps the partition and acts on the map as it should ----

  /** What a call on a dead id throws: whether it is a slot at all is asked first. */
  function DeadError(capacity: nat, id: nat, unused: PoolError): PoolError {
    if id >= capacity then IndexOutOfRange else unused
  }

  /** One call, told by the map, the capacity and the size_t maximum: an assignment throws only
      when every slot is live and the storage may not grow, and a call on a dead id throws
      what its kind says. */
  predicate MapStep<V(==)>(m: map<nat, V>, capacity: nat, top: nat, op: Op<V>, reply: Reply<V>, n: map<nat, V>)
    requires top >= 1
  {
    match op
    case AssignOp(v) =>
      if |m| == capacity && TooLarge(top, capacity) then reply == Thrown(SizeTooLarge) && n == m
      else reply.Id? && reply.id !in m && n == m[reply.id := v]
    case RemoveOp(id) =>
      if id in m then reply == Done && n == m - {id}
      else reply == Thrown(DeadError(capacity, id, RemoveNonexistent)) && n == m
    case ReturnOp(id) =>
      if id in m then reply == Done && n == m - {id}
      else reply == Thrown(DeadError(capacity, id, ReturnUnused)) && n == m
    case GetOp(id) =>
      n == m && reply == if id in m then Value(m[id]) else Thrown(DeadError(capacity, id, UseUnused))
    case WriteOp(id, v) =>
      if id in m then reply == Done && n == m[id := v]
      else reply == Thrown(DeadError(capacity, id, UseUnused)) && n == m
  }

  function Members(s: seq<nat>): (m: set<nat>)
    ensures forall x :: x in m <==> x in s
  {
    if s == [] then {}
    else
      assert s == [s[0]] + s[1..];
      {s[0]} + Members(s[1..])
  }

  lemma {:induction false} MembersSize(s: seq<nat>)
    requires Distinct(s)
    ensures |Members(s)| == |s|
  {
    if s != [] {
      MembersSize(s[1..]);
      assert s[0] !in s[1..];
    }
  }

  /** There are as many live objects as used slots. */
  lemma LiveSize<V>(p: Pool<V>)
    requires Partitioned(p)
    ensures |Live(p)| == |p.used|
  {
    assert Live(p).Keys == Members(p.used);
    MembersSize(p.used);
  }

  lemma ReuseRefines<V>(p: Pool<V>, value: V)
    requires Partitioned(p) && p.free != []
    ensures var (q, id) := Reuse(p, value);
      Partitioned(q) && id !in Live(p) && Live(q) == Live(p)[id := value] && |q.values| == |p.values|
  {
    var (q, id) := Reuse(p, value);
    assert id in p.free && p.free == [id] + q.free;
    forall x | 0 <= x < |q.values| ensures x in q.used || x in q.free {
      assert x in p.used || x in p.free;
    }
    assert forall x :: x in q.free ==> x in p.free && x != id;
    assert Live(q) == Live(p)[id := value];
  }

  lemma WriteRefines<V>(p: Pool<V>, id: nat, value: V)
    requires Partitioned(p) && id in p.used
    ensures var q := p.(values := p.values[id := Some(value)]);
      Partitioned(q) && Live(q) == Live(p)[id := value]
  {
  }

  lemma PrependDistinct(x: nat, s: seq<nat>)
    requires Distinct(s) && x !in s
    ensures Distinct([x] + s)
    ensures forall y :: y in [x] + s <==> y == x || y in s
  {
  }

  lemma ReleasePartitioned<V>(p: Pool<V>, id: nat, kept: Option<V>)
    requires Partitioned(p) && id in p.used
    ensures var q := Release(p, id, kept);
      Partitioned(q) && |q.values| == |p.values| && |q.used| == |p.used| - 1
    ensures forall x :: x in Release(p, id, kept).used <==> x in p.used && x != id
  {
    CutDistinct(p.used, Position(p.used, id));
    PrependDistinct(id, p.free);
  }

  lemma ReleaseRefines<V>(p: Pool<V>, id: nat, kept: Option<V>)
    requires Partitioned(p) && id in p.used
    ensures var q := Release(p, id, kept);
      Partitioned(q) && Live(q) == Live(p) - {id} && |q.values| == |p.values| && |q.used| == |p.used| - 1
  {
    ReleasePartitioned(p, id, kept);
    LiveWithout(p, Release(p, id, kept), id);
  }

  lemma LiveWithout<V>(p: Pool<V>, q: Pool<V>, id: nat)
    requires Partitioned(p) && Partitioned(q)
    requires forall x :: x in q.used <==> x in p.used && x != id
    requires forall x :: x in q.used ==> x < |p.values| && q.values[x] == p.values[x]
    ensures Live(q) == Live(p) - {id}
  {
  }

  lemma AssignRefines<V>(p: Pool<V>, top: nat, value: V)
    requires Partitioned(p) && top >= 1
    ensures var (q, r) := Assign(p, top, value);
      && Partitioned(q)
      && if |Live(p)| == |p.values| && TooLarge(top, |p.values|) then q == p && r == Err(SizeTooLarge)
         else r.Ok? && r.value !in Live(p) && Live(q) == Live(p)[r.value := value]
  {
    LiveSize(p);
    NoneFree(p);
    if p.free == [] { GrowPartitioned(p); }
    hide Partitioned, Live, Grow, Reuse;
    if p.free != [] {
      ReuseRefines(p, value);
    } else if !TooLarge(top, |p.values|) {
      ReuseRefines(Grow(p), value);
    }
  }

  lemma NoneFree<V>(p: Pool<V>)
    requires Partitioned(p)
    ensures p.free == [] <==> |p.used| == |p.values|
    ensures forall x :: x in p.used ==> x < |p.values| && p.values[x].Some?
    ensures forall x :: x in Live(p) <==> x in p.used
    ensures forall x :: x in Live(p) ==> Live(p)[x] == p.values[x].value
  {
  }

  lemma StepRefines<V>(p: Pool<V>, top: nat, op: Op<V>)
    requires Partitioned(p) && top >= 1
    ensures var (q, reply) := Step(p, top, op);
      Partitioned(q) && MapStep(Live(p), |p.values|, top, op, reply, Live(q))
  {
    NoneFree(p);
    hide Partitioned, Live, Assign, Release, TooLarge;
    match op
    case AssignOp(v) => AssignRefines(p, top, v);
    case RemoveOp(id) => if id in p.used { ReleaseRefines(p, id, None); }
    case ReturnOp(id) => if id in p.used { ReleaseRefines(p, id, p.values[id]); }
    case GetOp(id) =>
    case WriteOp(id, v) => if id in p.used { WriteRefines(p, id, v); }
  }

  // ---- bounds over whole runs ----

  /** A run so far: the pool and what was spent on it. */
  datatype Run<V> = Run(pool: Pool<V>, replies: seq<Reply<V>>, assigns: nat, moved: nat, peak: nat)

  /** moved adds up the old sizes at all growths, the number of slots copied. */
  ghost function RunOps<V>(start: Pool<V>, top: nat, ops: seq<Op<V>>): (r: Run<V>)
    requires Partitioned(start) && top >= 1
    ensures Partitioned(r.pool) && |r.replies| == |ops|
  {
    if ops == [] then Run(start, [], 0, 0, |start.used|)
    else
      var r := RunOps(start, top, ops[..|ops| - 1]);
      var op := ops[|ops| - 1];
      var (q, reply) := Step(r.pool, top, op);
      StepRefines(r.pool, top, op);
      Run(q, r.replies + [reply],
          r.assigns + if op.AssignOp? && reply.Id? then 1 else 0,
          r.moved + if |q.values| > |r.pool.values| then |r.pool.values| else 0,
          if |q.used| > r.peak then |q.used| else r.peak)
  }

  function ReplayStep<V>(m: map<nat, V>, op: Op<V>, reply: Reply<V>): map<nat, V> {
    match op
    case AssignOp(v) => if reply.Id? then m[reply.id := v] else m
    case RemoveOp(id) => m - {id}
    case ReturnOp(id) => m - {id}
    case GetOp(id) => m
    case WriteOp(id, v) => if id in m then m[id := v] else m
  }

  /** The map a client reconstructs from its calls and the replies alone. */
  function Replay<V>(m: map<nat, V>, ops: seq<Op<V>>, replies: seq<Reply<V>>): map<nat, V>
    requires |ops| == |replies|
  {
    if ops == [] then m
    else
      var n := |ops| - 1;
      ReplayStep(Replay(m, ops[..n], replies[..n]), ops[n], replies[n])
  }

  lemma MapStepReplays<V>(m: map<nat, V>, capacity: nat, top: nat, op: Op<V>, reply: Reply<V>, n: map<nat, V>)
    requires top >= 1 && MapStep(m, capacity, top, op, reply, n)
    ensures n == ReplayStep(m, op, reply)
  {
    if op.RemoveOp? || op.ReturnOp? {
      assert op.id !in m ==> m - {op.id} == m;
    }
  }

  /** Over any run, recycling and growth included, the pool is that map. */
  lemma {:induction false} RunRefinesMap<V>(start: Pool<V>, top: nat, ops: seq<Op<V>>)
    requires Partitioned(start) && top >= 1
    ensures Live(RunOps(start, top, ops).pool) == Replay(Live(start), ops, RunOps(start, top, ops).replies)
  {
    if ops != [] {
      var prefix, n := ops[..|ops| - 1], |ops| - 1;
      var r := RunOps(start, top, prefix);
      RunRefinesMap(start, top, prefix);
      StepRefines(r.pool, top, ops[n]);
      assert RunOps(start, top, ops).replies[..n] == r.replies;
      MapStepReplays(Live(r.pool), |r.pool.values|, top, ops[n],
                     Step(r.pool, top, ops[n]).1, Live(Step(r.pool, top, ops[n]).0));
    }
  }

  /** Whatever happened before, the next call answers as the map does: a fresh id is not
      live, a read returns the last value assigned, a call on a dead id throws. */
  lemma NextReply<V>(start: Pool<V>, top: nat, ops: seq<Op<V>>, op: Op<V>)
    requires Partitioned(start) && top >= 1
    ensures var r := RunOps(start, top, ops);
      var (q, reply) := Step(r.pool, top, op);
      Partitioned(q) && MapStep(Replay(Live(start), ops, r.replies), |r.pool.values|, top, op, reply, Live(q))
  {
    RunRefinesMap(start, top, ops);
    StepRefines(RunOps(start, top, ops).pool, top, op);
  }

  /** Freshly built pools: every slot free. */
  predicate Fresh<V>(p: Pool<V>) {
    Partitioned(p) && p.used == []
  }

  /** Growth is paid for: the slots copied are at most three per assignment and at most twice
      the capacity, and the capacity stays within half again of the peak live count. */
  lemma {:induction false} GrowthIsAmortised<V>(start: Pool<V>, top: nat, ops: seq<Op<V>>)
    requires Fresh(start) && top >= 1
    ensures var r := RunOps(start, top, ops);
      && |r.pool.used| <= r.assigns && |r.pool.used| <= r.peak
      && r.moved <= 3 * r.assigns
      && r.moved <= 2 * |r.pool.values|
      && (|r.pool.values| == |start.values| || |r.pool.values| <= r.peak + (r.peak - 1) / 2)
  {
    if ops != [] {
      var r, op := RunOps(start, top, ops[..|ops| - 1]), ops[|ops| - 1];
      GrowthIsAmortised(start, top, ops[..|ops| - 1]);
      StepSizes(r.pool, top, op);
    }
  }

  /** How one step changes the live count and the capacity. */
  lemma StepSizes<V>(p: Pool<V>, top: nat, op: Op<V>)
    requires Partitioned(p) && top >= 1
    ensures var (q, reply) := Step(p, top, op);
      && |q.used| <= |p.used| + (if op.AssignOp? && reply.Id? then 1 else 0)
      && (|q.values| == |p.values| ||
          (op.AssignOp? && reply.Id? && |p.used| == |p.values| && |q.used| == |p.used| + 1
           && |q.values| == GrownSize(|p.values|)))
  {
    match op
    case AssignOp(v) =>
      if p.free != [] {
        ReuseRefines(p, v);
      } else if !TooLarge(top, |p.values|) {
        GrowPartitioned(p);
        ReuseRefines(Grow(p), v);
      }
    case RemoveOp(id) => if id in p.used { ReleaseRefines(p, id, None); }
    case ReturnOp(id) => if id in p.used { ReleaseRefines(p, id, p.values[id]); }
    case _ =>
  }

  /** No id ever equals the null index: capacities stay within size_t. */
  lemma {:induction false} IdsAreNotNull<V>(start: Pool<V>, top: nat, ops: seq<Op<V>>)
    requires Partitioned(start) && top >= 1 && |start.values| <= top
    ensures |RunOps(start, top, ops).pool.values| <= top
    ensures forall x :: x in RunOps(start, top, ops).pool.used ==> x < top
  {
    if ops != [] {
      var r, op := RunOps(start, top, ops[..|ops| - 1]), ops[|ops| - 1];
      IdsAreNotNull(start, top, ops[..|ops| - 1]);
      StepSizes(r.pool, top, op);
      if op.AssignOp? && !TooLarge(top, |r.pool.values|) {
        GrownSizeFits(top, |r.pool.values|);
      }
    }
  }

  // ---- the order of the used list ----

  /** The position, counted from 1, of the last assignment that returned this id; 0 if none. */
  function Stamp<V>(replies: seq<Reply<V>>, id: nat): (k: nat)
    ensures k <= |replies|
    ensures k > 0 ==> replies[k - 1].Id? && replies[k - 1].id == id
    ensures forall m :: k <= m < |replies| && replies[m].Id? ==> replies[m].id != id
  {
    if replies == [] then 0
    else
      var n := |replies| - 1;
      if replies[n].Id? && replies[n].id == id then n + 1 else Stamp(replies[..n], id)
  }

  /** The used list names ids that were assigned, the latest first. */
  predicate LatestFirst<V>(used: seq<nat>, replies: seq<Reply<V>>) {
    && (forall i :: 0 <= i < |used| ==> Stamp(replies, used[i]) > 0)
    && (forall i, j :: 0 <= i < j < |used| ==> Stamp(replies, used[i]) > Stamp(replies, used[j]))
  }

  lemma StepUsed<V>(p: Pool<V>, top: nat, op: Op<V>)
    requires Partitioned(p) && top >= 1
    ensures var (q, reply) := Step(p, top, op);
      if reply.Id? then q.used == [reply.id] + p.used && reply.id !in p.used
      else q.used == p.used || exists k: nat :: k < |p.used| && q.used == RemoveAt(p.used, k)
  {
    StepRefines(p, top, op);
    var (q, reply) := Step(p, top, op);
    if (op.RemoveOp? || op.ReturnOp?) && op.id in p.used {
      assert q.used == RemoveAt(p.used, Position(p.used, op.id));
    }
  }

  /** A reply that is not this id leaves its stamp alone. */
  lemma StampKept<V>(replies: seq<Reply<V>>, reply: Reply<V>, id: nat)
    ensures Stamp(replies + [reply], id) == if reply.Id? && reply.id == id then |replies| + 1 else Stamp(replies, id)
  {
    assert (replies + [reply])[..|replies|] == replies;
  }

  lemma LatestFirstKept<V>(used: seq<nat>, replies: seq<Reply<V>>, now: seq<nat>, reply: Reply<V>)
    requires LatestFirst(used, replies)
    requires if reply.Id? then now == [reply.id] + used && reply.id !in used
             else now == used || exists k: nat :: k < |used| && now == RemoveAt(used, k)
    ensures LatestFirst(now, replies + [reply])
  {
    hide Stamp;
    forall x ensures Stamp(replies + [reply], x) == if reply.Id? && reply.id == x then |replies| + 1
                                                    else Stamp(replies, x) {
      StampKept(replies, reply, x);
    }
    forall i: nat | i < |used| ensures Stamp(replies, used[i]) <= |replies| { StampWithin(replies, used[i]); }
  }

  lemma StampWithin<V>(replies: seq<Reply<V>>, id: nat)
    ensures Stamp(replies, id) <= |replies|
  {
  }

  /** Over any run of a pool that started empty, the used list is in order of assignment, the
      most recent first: recycled ids count from their latest assignment. */
  lemma {:induction false} MostRecentFirst<V>(start: Pool<V>, top: nat, ops: seq<Op<V>>)
    requires Fresh(start) && top >= 1
    ensures LatestFirst(RunOps(start, top, ops).pool.used, RunOps(start, top, ops).replies)
  {
    if ops != [] {
      var n := |ops| - 1;
      var r := RunOps(start, top, ops[..n]);
      MostRecentFirst(start, top, ops[..n]);
      StepUsed(r.pool, top, ops[n]);
      var (q, reply) := Step(r.pool, top, ops[n]);
      LatestFirstKept(r.pool.used, r.replies, q.used, reply);
    }
  }
}
