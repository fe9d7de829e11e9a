/** The object pool: two rings, used and unused slots, in one indexed_list. */
module ValueRepos {
  import opened Outcomes
  import opened Sequences
  import opened IndexedLists
  import opened Pools

  datatype Slot<V> = Slot(value: Option<V>, used: bool)

  class ValueRepo<V> {
    /** The largest size_t; also the null index. */
    const top: nat
    const list: IndexedList<Slot<V>>
    var unusedHead: nat
    var usedHead: nat
    ghost var used: seq<nat>
    ghost var free: seq<nat>

    /** The two rings share out the slots, and the flags say which ring a slot is in. */
    ghost predicate Linked()
      reads this, list
    {
      && list.Valid() && list.nullIndex == top && top >= 1
      && Ring(list.data, top, usedHead, used)
      && Ring(list.data, top, unusedHead, free)
      && Apart(used, free) && |used| + |free| == |list.data|
      && (forall i :: 0 <= i < |list.data| ==>
            (i in used || i in free) && (list.data[i].value.used <==> i in used))
    }

    ghost predicate Valid()
      reads this, list
      ensures Valid() ==> Partitioned(View())
    {
      && Linked()
      && (forall i :: 0 <= i < |list.data| && i in used ==> list.data[i].value.value.Some?)
    }

    ghost function View(): (p: Pool<V>)
      reads this, list
      ensures p.used == used && p.free == free && |p.values| == |list.data|
      ensures forall i :: 0 <= i < |list.data| ==> p.values[i] == list.data[i].value.value
    {
      Pool(used, free, seq(|list.data|, i requires 0 <= i < |list.data| reads this, list => list.data[i].value.value))
    }

    ghost function Objects(): map<nat, V>
      requires Valid()
      reads this, list
    {
      Live(View())
    }

    /** No unused slot is left and the guard forbids growing: the next assignment throws. */
    predicate Full()
      reads this, list
      requires Linked()
      ensures Full() <==> free == [] && TooLarge(top, |list.data|)
    {
      unusedHead == top && TooLarge(top, |list.data|)
    }

    /** The id the next assignment returns, unless the pool is full. */
    function NextFree(): (id: nat)
      reads this, list
      requires Linked()
      ensures id == if free == [] then |list.data| else free[0]
    {
      if unusedHead == top then |list.data| else unusedHead
    }

    constructor (top: nat)
      requires top >= 1
      ensures Valid() && fresh(list) && this.top == top && View() == Pool([], [], [])
      ensures !Full() && NextFree() == 0
    {
      this.top := top;
      this.list := new IndexedList(top, 0, Slot(None, false));
      unusedHead, usedHead, used, free := top, top, [], [];
    }

    /** A pool of initSize unused slots; value is what they already hold, if anything. */
    static method Sized(top: nat, initSize: nat, value: Option<V>) returns (r: Result<ValueRepo<V>, PoolError>)
      requires 1 <= top && initSize <= top
      ensures r.Ok? <==> initSize > 0
      ensures r.Ok? ==> fresh(r.value) && fresh(r.value.list) && r.value.Valid() && r.value.top == top
      ensures r.Ok? ==> r.value.View() == Pool([], Range(0, initSize), seq(initSize, _ => value))
      ensures r.Err? ==> r.error == InvalidSize
    {
      var repo := new ValueRepo.OfSlots(top, initSize, value);
      var head := repo.list.FormList(0, initSize);
      if head.Err? {
        return Err(InvalidSize);
      }
      repo.unusedHead := head.value;
      repo.free := Range(0, initSize);
      assert repo.View().values == seq(initSize, _ => value);
      return Ok(repo);
    }

    constructor OfSlots(top: nat, initSize: nat, value: Option<V>)
      requires initSize <= top
      ensures fresh(list) && list.Valid() && list.nullIndex == top && this.top == top
      ensures unusedHead == usedHead == top && used == free == []
      ensures list.data == seq(initSize, _ => Node(Slot(value, false), top, top))
    {
      this.top := top;
      this.list := new IndexedList(top, initSize, Slot(value, false));
      unusedHead, usedHead, used, free := top, top, [], [];
    }

    function IsIdUsed(id: nat): (r: bool)
      reads this, list
      requires Valid()
      ensures r <==> id in Objects()
    {
      id < |list.data| && list.data[id].value.used
    }

    /** check_index followed by check_unused. */
    function Check(id: nat, unused: PoolError): (r: Result<(), PoolError>)
      reads this, list
      requires Linked()
      ensures r == CheckUsed(View(), id, unused)
      ensures r == if id < |list.data| && id in used then Ok(()) else Err(DeadError(|list.data|, id, unused))
    {
      if id >= |list.data| then Err(IndexOutOfRange) else if !list.data[id].value.used then Err(unused) else Ok(())
    }

    function GetObject(id: nat): (r: Result<V, PoolError>)
      reads this, list
      requires Valid()
      ensures r.Ok? <==> id in Objects()
      ensures r.Ok? ==> r.value == Objects()[id]
      ensures r.Err? ==> r.error == if id >= |list.data| then IndexOutOfRange else UseUnused
    {
      var c := Check(id, UseUnused);
      if c.Err? then Err(c.error)
      else
        assert id in View().used;
        Ok(list.data[id].value.value.value)
    }

    /** The live ids are the members of the used ring. */
    lemma LiveIsUsed(id: nat)
      requires Valid()
      ensures id in Objects() <==> id in used
      ensures id in used ==> id < |list.data|
    {
    }

    /** Assignment through the reference get_object returns. */
    method SetObject(id: nat, value: V)
      requires Valid() && id in Objects()
      modifies list
      ensures Valid() && View() == old(View()).(values := old(View()).values[id := Some(value)])
      ensures Objects() == old(Objects())[id := value] && Full() == old(Full()) && NextFree() == old(NextFree())
    {
      hide Ring, Partitioned, Live, ValueRepo.View;
      LiveIsUsed(id);
      WriteRefines(View(), id, value);
      PutSlot(id, Slot(Some(value), true), used, free);
      assert View().values == old(View()).values[id := Some(value)];
    }

    method AssignObject(value: V) returns (r: Result<nat, PoolError>)
      requires Valid()
      modifies this, list
      ensures Valid()
      ensures (View(), r) == Assign(old(View()), top, value)
      ensures r == if old(Full()) then Err(SizeTooLarge) else Ok(old(NextFree()))
      ensures r.Ok? ==> r.value !in old(Objects()) && Objects() == old(Objects())[r.value := value]
      ensures r.Err? ==> View() == old(View()) && list.data == old(list.data) && Objects() == old(Objects())
    {
      hide Ring, Partitioned, Live, ValueRepo.View;
      r := ReuseObject();
      if r.Err? {
        return;
      }
      // Assigning to a value that is there and constructing one that is not agree.
      PutSlot(r.value, Slot(Some(value), true), used, free);
      ghost var p := if old(free) == [] then Grow(old(View())) else old(View());
      if old(free) == [] { GrowPartitioned(old(View())); }
      ReuseRefines(p, value);
      assert View().values == p.values[r.value := Some(value)];
    }

    /** Overwrites the contents of one slot; no link changes. */
    method PutSlot(id: nat, slot: Slot<V>, ghost u: seq<nat>, ghost f: seq<nat>)
      requires list.Valid() && list.nullIndex == top && id < |list.data|
      requires Ring(list.data, top, usedHead, u) && Ring(list.data, top, unusedHead, f)
      modifies list
      ensures list.Valid() && Ring(list.data, top, usedHead, u) && Ring(list.data, top, unusedHead, f)
      ensures |list.data| == |old(list.data)|
      ensures forall i :: 0 <= i < |list.data| ==>
        list.data[i].value == if i == id then slot else old(list.data)[i].value
    {
      list.SetValue(id, slot);
      RingKept(old(list.data), list.data, top, usedHead, u);
      RingKept(old(list.data), list.data, top, unusedHead, f);
    }

    /** Takes the first unused slot; the caller still has to give it a value. */
    method ReuseObject() returns (r: Result<nat, PoolError>)
      requires Linked()
      modifies this, list
      ensures Linked()
      ensures r.Err? <==> old(free) == [] && TooLarge(top, |old(list.data)|)
      ensures r.Err? ==> r.error == SizeTooLarge && View() == old(View()) && list.data == old(list.data)
      ensures r.Ok? ==> r.value < |list.data|
      ensures r.Ok? ==>
        var p := if old(free) == [] then Grow(old(View())) else old(View());
        p.free != [] && r.value == p.free[0] && View() == Pool([r.value] + p.used, p.free[1..], p.values)
    {
      if unusedHead == top {
        var grown := GrowStorage();
        if grown.Err? {
          return Err(grown.error);
        }
      }
      var result := TakeFree();
      r := Ok(result);
    }

    /** Moves the first unused slot to the front of the used ring. */
    method TakeFree() returns (result: nat)
      requires Linked() && free != []
      modifies this, list
      ensures Linked() && result == old(free)[0] && result < |list.data|
      ensures View() == Pool([result] + old(used), old(free)[1..], old(View()).values)
    {
      hide Ring, Partitioned, ValueRepo.View;
      ghost var u, f, rest := used, free, free[1..];
      unusedHead, result := list.Pop(unusedHead, f);
      assert f == [result] + rest;
      RingFramed(old(list.data), list.data, f, top, usedHead, u);
      PutSlot(result, list.data[result].value.(used := true), u, rest);
      label Popped:
      usedHead := list.Push(usedHead, result, u);
      RingFramed(old@Popped(list.data), list.data, [result] + u, top, unusedHead, rest);
      used, free := [result] + u, rest;
    }

    /** Half as large again: the new slots become the free list. */
    method GrowStorage() returns (r: Result<(), PoolError>)
      requires Linked() && free == []
      modifies this, list
      ensures Linked()
      ensures r.Err? <==> TooLarge(top, |old(list.data)|)
      ensures r.Err? ==> r.error == SizeTooLarge && View() == old(View()) && list.data == old(list.data)
      ensures r.Ok? ==> View() == Grow(old(View()))
    {
      hide Partitioned;
      var oldSize := |list.data|;
      if oldSize > (top - 1) / 3 * 2 {
        return Err(SizeTooLarge);
      }
      GrownSizeFits(top, oldSize);
      var newSize := oldSize + oldSize / 2 + 1;
      list.Resize(newSize, Slot(None, false));
      RingKept(old(list.data), list.data, top, usedHead, used);
      label Resized:
      var head := list.FormList(oldSize, newSize);
      RingFramed(old@Resized(list.data), list.data, Range(oldSize, newSize), top, usedHead, used);
      unusedHead := head.value;
      free := Range(oldSize, newSize);
      r := Ok(());
    }

    /** Destroys the object and frees its slot. */
    method RemoveObject(id: nat) returns (r: Result<(), PoolError>)
      requires Valid()
      modifies this, list
      ensures Valid()
      ensures r == CheckUsed(old(View()), id, RemoveNonexistent) && (r.Ok? <==> id in old(Objects()))
      ensures r.Err? ==> r.error == if id >= |old(list.data)| then IndexOutOfRange else RemoveNonexistent
      ensures r.Err? ==> View() == old(View()) && list.data == old(list.data) && Objects() == old(Objects())
      ensures r.Ok? ==> View() == Release(old(View()), id, None) && Objects() == old(Objects()) - {id}
      ensures r.Ok? ==> !Full() && NextFree() == id
    {
      hide Ring, Partitioned, Live, ValueRepo.View;
      LiveIsUsed(id);
      r := Check(id, RemoveNonexistent);
      if r.Err? {
        return;
      }
      ghost var p := View();
      PutSlot(id, list.data[id].value.(value := None), used, free);
      r := ReturnObject(id);
      ReleaseRefines(p, id, None);
      assert View().values == p.values[id := None];
    }

    /** Frees the slot but leaves the object in it. */
    method ReturnObject(id: nat) returns (r: Result<(), PoolError>)
      requires Linked()
      modifies this, list
      ensures Linked() && (old(Valid()) ==> Valid())
      ensures r == CheckUsed(old(View()), id, ReturnUnused)
      ensures r.Ok? <==> id in old(used)
      ensures r.Err? ==> r.error == if id >= |old(list.data)| then IndexOutOfRange else ReturnUnused
      ensures r.Err? ==> View() == old(View()) && list.data == old(list.data)
      ensures r.Ok? ==> View() == Release(old(View()), id, old(View()).values[id])
      ensures r.Ok? && old(Valid()) ==> Objects() == old(Objects()) - {id}
    {
      hide Ring, Partitioned, Live, ValueRepo.View;
      if id in used { UsedDistinct(id); }
      r := Check(id, ReturnUnused);
      if r.Err? {
        return;
      }
      ReturnSlot(id);
      assert View().values == old(View()).values[id := old(View()).values[id]];
      if old(Valid()) { ReleaseRefines(old(View()), id, old(View()).values[id]); }
    }

    lemma UsedDistinct(id: nat)
      requires Linked() && id in used
      ensures Distinct(used) && id < |list.data|
    {
    }

    /** Moves a used slot to the front of the unused ring. */
    method ReturnSlot(id: nat)
      requires Linked() && id in used
      modifies this, list
      ensures Linked()
      ensures used == RemoveAt(old(used), Position(old(used), id)) && free == [id] + old(free)
      ensures View().values == old(View()).values
    {
      hide Ring, Distinct, ValueRepo.View;
      UsedDistinct(id);
      ghost var k := Position(used, id);
      ghost var rest := RemoveAt(used, k);
      CutDistinct(used, k);
      PutSlot(id, list.data[id].value.(used := false), used, free);
      label Flagged:
      usedHead := list.Remove(usedHead, id, used, k);
      RingFramed(old@Flagged(list.data), list.data, used, top, unusedHead, free);
      label Removed:
      unusedHead := list.Push(unusedHead, id, free);
      RingFramed(old@Removed(list.data), list.data, [id] + free, top, usedHead, rest);
      used, free := rest, [id] + free;
    }

    // ---- iteration ----

    function FirstId(): nat
      reads this
    {
      usedHead
    }

    function EndId(): nat { top }

    function NextId(current: nat): Result<nat, PoolError>
      reads this, list
      requires Valid()
    {
      HeadInRange();
      if current >= |list.data| then Err(IndexOutOfRange)
      else if current == list.Previous(usedHead) then Ok(top)
      else Ok(list.Next(current))
    }

    function PrevId(current: nat): Result<nat, PoolError>
      reads this, list
      requires Valid()
    {
      HeadInRange();
      if current == top then Ok(list.Previous(usedHead))
      else if current >= |list.data| then Err(IndexOutOfRange)
      else if current == usedHead then Err(IndexOutOfRange)
      else Ok(list.Previous(current))
    }

    lemma HeadInRange()
      requires Valid()
      ensures usedHead == list.nullIndex || usedHead < |list.data|
      ensures usedHead == list.nullIndex <==> used == []
      ensures used != [] ==> list.Previous(usedHead) == used[|used| - 1]
    {
      if used != [] {
        assert list.data[used[0]].prev == used[Before(0, |used|)];
      }
    }

    /** The id at position k of the walk; the position after the last is the end. */
    ghost function IdAt(k: nat): nat
      reads this
      requires k <= |used|
    {
      if k < |used| then used[k] else top
    }

    lemma NextIdAdvances(k: nat)
      requires Valid() && k < |used|
      ensures NextId(used[k]) == Ok(IdAt(k + 1))
    {
      HeadInRange();
      assert list.data[used[k]].next == used[After(k, |used|)];
    }

    lemma PrevIdRetreats(k: nat)
      requires Valid() && 0 < k <= |used|
      ensures PrevId(IdAt(k)) == Ok(used[k - 1])
    {
      HeadInRange();
      if k < |used| {
        assert list.data[used[k]].prev == used[Before(k, |used|)];
        assert used[0] != used[k];
      }
    }

    /** Stepping forward and back again returns to the same object, from the last one too. */
    lemma PrevUndoesNext(id: nat)
      requires Valid() && id in Objects()
      ensures NextId(id).Ok? && PrevId(NextId(id).value) == Ok(id)
    {
      var k := Position(used, id);
      NextIdAdvances(k);
      PrevIdRetreats(k + 1);
    }

    /** Stepping back from the first id, and stepping from anywhere outside the storage but the
        end, throws. */
    lemma StepsThatThrow(id: nat)
      requires Valid()
      ensures used != [] ==> PrevId(used[0]) == Err(IndexOutOfRange)
      ensures id >= |list.data| ==> NextId(id) == Err(IndexOutOfRange)
      ensures id >= |list.data| && id != EndId() ==> PrevId(id) == Err(IndexOutOfRange)
    {
      HeadInRange();
      if used != [] { assert used[0] in used; }
    }

    /** The id given out next is not live. */
    lemma NextFreeIsDead()
      requires Valid()
      ensures NextFree() !in Objects()
    {
      if free != [] { assert free[0] in free; }
    }

    lemma EndOnlyAfterLast(k: nat)
      requires Valid() && k <= |used|
      ensures IdAt(k) == EndId() <==> k == |used|
    {
      if k < |used| { assert used[k] in used; }
    }

    lemma UsedIsLive()
      requires Valid()
      ensures Distinct(used) && forall x :: x in used <==> x in Objects()
      ensures FirstId() == IdAt(0)
    {
    }

    /** first_id, next_id, ... end_id visits every live id once, most recently assigned first. */
    method Walk() returns (ids: seq<nat>)
      requires Valid()
      ensures ids == View().used && Distinct(ids) && forall x :: x in ids <==> x in Objects()
    {
      hide ValueRepo.Valid, ValueRepo.Objects, Distinct;
      ids := [];
      var id := FirstId();
      UsedIsLive();
      EndOnlyAfterLast(0);
      while id != EndId()
        invariant |ids| <= |used| && ids == used[..|ids|] && id == IdAt(|ids|)
        invariant id == EndId() <==> |ids| == |used|
        decreases |used| - |ids|
      {
        NextIdAdvances(|ids|);
        EndOnlyAfterLast(|ids| + 1);
        ids := ids + [id];
        id := NextId(id).value;
      }
    }

    /** prev_id from end_id visits the same ids in reverse. */
    method WalkBack() returns (ids: seq<nat>)
      requires Valid()
      ensures |ids| == |View().used| && forall k :: 0 <= k < |ids| ==> ids[k] == View().used[|ids| - 1 - k]
    {
      hide ValueRepo.Valid;
      ids := [];
      var id := EndId();
      ghost var k: nat := |used|;
      FirstOnlyAtZero(k);
      while id != FirstId()
        invariant k + |ids| == |used| && id == IdAt(k) && (id == FirstId() <==> k == 0)
        invariant forall m :: 0 <= m < |ids| ==> ids[m] == used[|used| - 1 - m]
        decreases k
      {
        PrevIdRetreats(k);
        k := k - 1;
        FirstOnlyAtZero(k);
        id := PrevId(id).value;
        ids := ids + [id];
      }
    }

    lemma FirstOnlyAtZero(k: nat)
      requires Valid() && k <= |used|
      ensures IdAt(k) == FirstId() <==> k == 0
    {
      if 0 < k < |used| { assert used[0] != used[k]; }
    }

    // ---- whole runs ----

    /** Any one call: the class makes the step of the value it is modelled by. */
    method Execute(op: Op<V>) returns (reply: Reply<V>)
      requires Valid()
      modifies this, list
      ensures Valid() && (View(), reply) == Step(old(View()), top, op)
    {
      hide Ring, Partitioned, Live, ValueRepo.Linked, ValueRepo.View;
      match op
      case AssignOp(v) =>
        var r := AssignObject(v);
        reply := if r.Ok? then Id(r.value) else Thrown(r.error);
      case RemoveOp(id) =>
        var r := RemoveObject(id);
        reply := if r.Ok? then Done else Thrown(r.error);
      case ReturnOp(id) =>
        var r := ReturnObject(id);
        reply := if r.Ok? then Done else Thrown(r.error);
      case GetOp(id) =>
        var r := GetObject(id);
        reply := if r.Ok? then Value(r.value) else Thrown(r.error);
      case WriteOp(id, v) =>
        var r := GetObject(id);
        if r.Ok? {
          SetObject(id, v);
          reply := Done;
        } else {
          reply := Thrown(r.error);
        }
    }

    /** Any calls one after the other; the walk then meets the latest assignment first. */
    method ExecuteAll(ops: seq<Op<V>>) returns (replies: seq<Reply<V>>, ids: seq<nat>)
      requires Valid()
      modifies this, list
      ensures Valid() && View() == RunOps(old(View()), top, ops).pool
      ensures replies == RunOps(old(View()), top, ops).replies
      ensures ids == View().used && (Fresh(old(View())) ==> LatestFirst(ids, replies))
    {
      assert Partitioned(View()) && top >= 1;
      hide ValueRepo.Linked, ValueRepo.Valid, ValueRepo.View, Step, Partitioned;
      ghost var start := View();
      replies := [];
      for i := 0 to |ops|
        invariant Valid()
        invariant View() == RunOps(start, top, ops[..i]).pool && replies == RunOps(start, top, ops[..i]).replies
      {
        var reply := Execute(ops[i]);
        assert ops[..i + 1][..i] == ops[..i];
        replies := replies + [reply];
      }
      assert ops[..|ops|] == ops;
      if Fresh(start) { MostRecentFirst(start, top, ops); }
      ids := Walk();
    }
  }
}
