/** Circular doubly linked lists whose links are indices into one growable vector.
    Several rings share the vector; their heads are held by the callers. */
module IndexedLists {
  import opened Outcomes
  import opened Sequences

  datatype Node<V> = Node(value: V, next: nat, prev: nat)

  datatype ListError = InvalidArgument | OutOfRange

  // ---- rings as sequences ----

  function After(k: nat, n: nat): nat requires k < n { if k + 1 == n then 0 else k + 1 }

  function Before(k: nat, n: nat): nat requires k < n { if k == 0 then n - 1 else k - 1 }

  /** The links of the nodes in s run around s, in both directions. */
  predicate Cycle<V>(data: seq<Node<V>>, s: seq<nat>) {
    && Distinct(s)
    && (forall k :: 0 <= k < |s| ==> s[k] < |data|)
    && (forall k {:trigger data[s[k]]} :: 0 <= k < |s| ==>
          data[s[k]].next == s[After(k, |s|)] && data[s[k]].prev == s[Before(k, |s|)])
  }

  /** The list with this head holds exactly the nodes s, in this order. */
  predicate Ring<V>(data: seq<Node<V>>, nullIndex: nat, head: nat, s: seq<nat>) {
    Cycle(data, s) && head == if s == [] then nullIndex else s[0]
  }

  /** Values are kept, and only links of nodes in s may differ. */
  ghost predicate OnlyLinksOf<V>(before: seq<Node<V>>, after: seq<Node<V>>, s: seq<nat>) {
    && |before| <= |after|
    && (forall i :: 0 <= i < |before| ==> after[i].value == before[i].value)
    && (forall i :: 0 <= i < |before| && i !in s ==> after[i] == before[i])
  }

  /** A ring depends on nothing but the links of its own nodes. */
  lemma RingKept<V>(before: seq<Node<V>>, after: seq<Node<V>>, nullIndex: nat, head: nat, s: seq<nat>)
    requires Ring(before, nullIndex, head, s) && |before| <= |after|
    requires forall x :: x in s && x < |before| ==> after[x].next == before[x].next && after[x].prev == before[x].prev
    ensures Ring(after, nullIndex, head, s)
  {
    forall k | 0 <= k < |s|
      ensures s[k] < |before| && after[s[k]].next == before[s[k]].next && after[s[k]].prev == before[s[k]].prev
    {
      assert s[k] in s;
    }
  }

  /** Work on one ring leaves every other ring in the same storage as it was. */
  lemma RingFramed<V>(before: seq<Node<V>>, after: seq<Node<V>>, touched: seq<nat>,
                      nullIndex: nat, head: nat, s: seq<nat>)
    requires Ring(before, nullIndex, head, s) && OnlyLinksOf(before, after, touched) && Apart(s, touched)
    ensures Ring(after, nullIndex, head, s)
  {
    forall x | x in s ensures x < |before| && after[x] == before[x] {
      var k :| 0 <= k < |s| && s[k] == x;
    }
    RingKept(before, after, nullIndex, head, s);
  }

  // ---- what insert_impl and remove_impl do to the links ----

  function SetNext<V>(data: seq<Node<V>>, i: nat, next: nat): seq<Node<V>>
    requires i < |data|
  {
    data[i := data[i].(next := next)]
  }

  function SetPrev<V>(data: seq<Node<V>>, i: nat, prev: nat): seq<Node<V>>
    requires i < |data|
  {
    data[i := data[i].(prev := prev)]
  }

  function InsertAt(s: seq<nat>, k: nat, x: nat): (t: seq<nat>)
    requires k <= |s|
    ensures Inserts(s, t, k, x)
  {
    s[..k] + [x] + s[k..]
  }

  function RemoveAt(s: seq<nat>, k: nat): (t: seq<nat>)
    requires k < |s|
    ensures Inserts(t, s, k, s[k])
  {
    s[..k] + s[k + 1..]
  }

  /** The links of `after` are those of `before` with x spliced in between prev and next. */
  ghost predicate Spliced<V>(before: seq<Node<V>>, after: seq<Node<V>>, prev: nat, x: nat, next: nat) {
    && |after| == |before|
    && (forall i :: 0 <= i < |before| ==>
          && after[i].value == before[i].value
          && after[i].next == (if i == prev then x else if i == x then next else before[i].next)
          && after[i].prev == (if i == next then x else if i == x then prev else before[i].prev))
  }

  /** t is s with x inserted at position k. */
  predicate Inserts(s: seq<nat>, t: seq<nat>, k: nat, x: nat) {
    && k <= |s| && |t| == |s| + 1 && t[k] == x
    && (forall m :: 0 <= m < k ==> t[m] == s[m])
    && (forall m :: k < m < |t| ==> t[m] == s[m - 1])
  }

  lemma SplicedAt<V>(before: seq<Node<V>>, after: seq<Node<V>>, s: seq<nat>, t: seq<nat>, k: nat, x: nat, u: nat)
    requires Cycle(before, s) && k < |s| && x < |before| && x !in s && Inserts(s, t, k, x) && u < |t|
    requires Spliced(before, after, s[Before(k, |s|)], x, s[k])
    ensures t[u] < |after| && after[t[u]].next == t[After(u, |t|)] && after[t[u]].prev == t[Before(u, |t|)]
  {
    if u != k {
      var m, b := if u < k then u else u - 1, Before(k, |s|);
      assert t[u] == s[m] && s[m] != x;
      assert before[s[m]].next == s[After(m, |s|)];
      assert s[m] == s[k] <==> m == k;
      assert s[m] == s[b] <==> m == b;
    }
  }

  lemma SplicedCycle<V>(before: seq<Node<V>>, after: seq<Node<V>>, s: seq<nat>, k: nat, x: nat)
    requires Cycle(before, s) && k < |s| && x < |before| && x !in s
    requires Spliced(before, after, s[Before(k, |s|)], x, s[k])
    ensures Cycle(after, InsertAt(s, k, x)) && OnlyLinksOf(before, after, InsertAt(s, k, x))
  {
    var t := InsertAt(s, k, x);
    forall u | 0 <= u < |t|
      ensures t[u] < |after| && after[t[u]].next == t[After(u, |t|)] && after[t[u]].prev == t[Before(u, |t|)]
    {
      SplicedAt(before, after, s, t, k, x, u);
    }
    assert s[k] in t && s[Before(k, |s|)] in t by { assert s[k] in s && s[Before(k, |s|)] in s; }
    SpliceDistinct(s, k, x);
  }

  lemma SpliceDistinct(s: seq<nat>, k: nat, x: nat)
    requires Distinct(s) && k <= |s| && x !in s
    ensures Distinct(InsertAt(s, k, x))
  {
  }

  /** The links of `after` are those of `before` with x cut out and unlinked. */
  ghost predicate Cut<V>(before: seq<Node<V>>, after: seq<Node<V>>, prev: nat, x: nat, next: nat, nullIndex: nat) {
    && |after| == |before|
    && (forall i :: 0 <= i < |before| ==>
          && after[i].value == before[i].value
          && after[i].next == (if i == x then nullIndex else if i == prev then next else before[i].next)
          && after[i].prev == (if i == x then nullIndex else if i == next then prev else before[i].prev))
  }

  lemma CutAt<V>(before: seq<Node<V>>, after: seq<Node<V>>, s: seq<nat>, t: seq<nat>, k: nat, nullIndex: nat, u: nat)
    requires Cycle(before, s) && k < |s| && |s| >= 2 && Inserts(t, s, k, s[k]) && u < |t|
    requires Cut(before, after, s[Before(k, |s|)], s[k], s[After(k, |s|)], nullIndex)
    ensures t[u] < |after| && t[u] != s[k]
    ensures after[t[u]].next == t[After(u, |t|)] && after[t[u]].prev == t[Before(u, |t|)]
  {
    var m, a, b := if u < k then u else u + 1, After(k, |s|), Before(k, |s|);
    assert t[u] == s[m];
    assert before[s[m]].next == s[After(m, |s|)];
    assert s[m] != s[k];
    assert s[m] == s[a] <==> m == a;
    assert s[m] == s[b] <==> m == b;
  }

  lemma CutCycle<V>(before: seq<Node<V>>, after: seq<Node<V>>, s: seq<nat>, k: nat, nullIndex: nat)
    requires Cycle(before, s) && k < |s| && |s| >= 2
    requires Cut(before, after, s[Before(k, |s|)], s[k], s[After(k, |s|)], nullIndex)
    ensures Cycle(after, RemoveAt(s, k)) && OnlyLinksOf(before, after, s) && s[k] !in RemoveAt(s, k)
  {
    var t := RemoveAt(s, k);
    forall u | 0 <= u < |t|
      ensures t[u] < |after| && t[u] != s[k]
      ensures after[t[u]].next == t[After(u, |t|)] && after[t[u]].prev == t[Before(u, |t|)]
    {
      CutAt(before, after, s, t, k, nullIndex, u);
    }
    assert s[After(k, |s|)] in s && s[Before(k, |s|)] in s && s[k] in s;
    CutDistinct(s, k);
  }

  lemma CutDistinct(s: seq<nat>, k: nat)
    requires Distinct(s) && k < |s|
    ensures Distinct(RemoveAt(s, k))
    ensures forall x :: x in RemoveAt(s, k) <==> x in s && x != s[k]
  {
    var t := RemoveAt(s, k);
    forall x | x in s && x != s[k] ensures x in t {
      var m :| 0 <= m < |s| && s[m] == x;
      assert t[if m < k then m else m - 1] == x;
    }
  }

  lemma CycleRotate<V>(data: seq<Node<V>>, s: seq<nat>, x: nat)
    requires Cycle(data, [x] + s)
    ensures Cycle(data, s + [x])
  {
    var a, b := [x] + s, s + [x];
    assert forall m :: 0 <= m < |s| ==> b[m] == a[m + 1];
    assert b[|s|] == a[0];
  }

  /** begin, begin + 1, ..., end - 1 */
  function Range(begin: nat, end: nat): (s: seq<nat>)
    requires begin <= end
    ensures |s| == end - begin && forall k :: 0 <= k < |s| ==> s[k] == begin + k
    ensures forall x :: x in s <==> begin <= x < end
  {
    if begin == end then [] else Range(begin, end - 1) + [end - 1]
  }

  lemma RangeCycle<V>(data: seq<Node<V>>, begin: nat, end: nat)
    requires begin < end <= |data|
    requires forall k :: begin <= k < end ==>
      && data[k].next == (if k == end - 1 then begin else k + 1)
      && data[k].prev == (if k == begin then end - 1 else k - 1)
    ensures Cycle(data, Range(begin, end))
  {
  }

  // ---- the class ----

  class IndexedList<V> {
    /** The largest size_t, which no index reaches. */
    const nullIndex: nat
    var data: seq<Node<V>>

    ghost predicate Valid()
      reads this
    {
      |data| <= nullIndex
    }

    constructor (nullIndex: nat, size: nat, value: V)
      requires size <= nullIndex
      ensures Valid() && this.nullIndex == nullIndex
      ensures data == seq(size, _ => Node(value, nullIndex, nullIndex))
    {
      this.nullIndex := nullIndex;
      data := seq(size, _ => Node(value, nullIndex, nullIndex));
    }

    function At(index: nat): (r: Result<V, ListError>)
      reads this
      ensures r.Ok? <==> index < |data|
      ensures r.Ok? ==> r.value == data[index].value
    {
      if index >= |data| then Err(OutOfRange) else Ok(data[index].value)
    }

    method SetValue(index: nat, value: V)
      requires Valid() && index < |data|
      modifies this
      ensures Valid() && data == old(data)[index := old(data)[index].(value := value)]
    {
      data := data[index := data[index].(value := value)];
    }

    /** Existing nodes keep values and links; appended nodes are unlinked. */
    method Resize(newSize: nat, fill: V)
      requires Valid() && newSize <= nullIndex
      modifies this
      ensures Valid() && |data| == newSize
      ensures forall i :: 0 <= i < newSize ==>
        data[i] == if i < |old(data)| then old(data)[i] else Node(fill, nullIndex, nullIndex)
    {
      if newSize <= |data| {
        data := data[..newSize];
      } else {
        data := data + seq(newSize - |data|, _ => Node(fill, nullIndex, nullIndex));
      }
    }

    /** size_t subtraction: below zero it wraps around. */
    function Minus(a: nat, b: nat): nat
      requires b <= nullIndex + 1
    {
      (a + (nullIndex + 1 - b)) % (nullIndex + 1)
    }

    lemma MinusExact(a: nat, b: nat)
      requires b <= a <= nullIndex
      ensures Minus(a, b) == a - b
    {
    }

    /** Links the nodes begin..end-1 into a ring, whatever their links were. */
    method FormList(begin: nat, end: nat) returns (r: Result<nat, ListError>)
      requires Valid() && nullIndex >= 1
      modifies this
      ensures Valid()
      ensures r.Ok? <==> begin < end <= |old(data)|
      ensures r.Err? ==> r.error == InvalidArgument && data == old(data)
      ensures r.Ok? ==> r.value == begin && |data| == |old(data)|
                        && Ring(data, nullIndex, begin, Range(begin, end))
                        && OnlyLinksOf(old(data), data, Range(begin, end))
    {
      if end <= begin || begin == nullIndex || end > |data| {
        return Err(InvalidArgument);
      }
      LinkRange(begin, end);
      RangeCycle(data, begin, end);
      return Ok(begin);
    }

    method LinkRange(begin: nat, end: nat)
      requires Valid() && begin < end <= |data| && nullIndex >= 1
      modifies this
      ensures Valid() && |data| == |old(data)|
      ensures forall k :: 0 <= k < |data| ==>
        data[k].value == old(data)[k].value && (!(begin <= k < end) ==> data[k] == old(data)[k])
      ensures forall k :: begin <= k < end ==>
        && data[k].next == (if k == end - 1 then begin else k + 1)
        && data[k].prev == (if k == begin then end - 1 else k - 1)
    {
      data := SetNext(data, begin, begin + 1);
      hide Minus;
      var last := Minus(end, 2);
      if end >= 2 { MinusExact(end, 2); }
      data := SetPrev(data, end - 1, last);
      var i := begin + 1;
      while i < end - 1
        invariant begin + 1 <= i && (i <= end - 1 || begin + 1 == end)
        invariant Valid() && |data| == |old(data)|
        invariant forall k :: 0 <= k < |data| ==>
          data[k].value == old(data)[k].value && (!(begin <= k < end) ==> data[k] == old(data)[k])
        invariant data[end - 1].prev == last
        invariant begin + 1 < end ==> data[begin].next == begin + 1
        invariant forall k :: begin < k < i && k < end - 1 ==> data[k].prev == k - 1 && data[k].next == k + 1
      {
        data := SetPrev(data, i, i - 1);
        data := SetNext(data, i, i + 1);
        i := i + 1;
      }
      data := SetPrev(data, begin, end - 1);
      data := SetNext(data, end - 1, begin);
    }

    /** Prepends an unlinked node to the list. */
    method Push(head: nat, index: nat, ghost s: seq<nat>) returns (newHead: nat)
      requires Valid() && Ring(data, nullIndex, head, s) && index < |data| && index !in s
      modifies this
      ensures Valid() && |data| == |old(data)| && newHead == index
      ensures Ring(data, nullIndex, newHead, [index] + s)
      ensures OnlyLinksOf(old(data), data, [index] + s)
    {
      if head == nullIndex {
        data := SetNext(SetPrev(data, index, index), index, index);
        assert s == [];
      } else {
        assert s[0] == head;
        InsertImpl(head, index, s, 0);
        assert InsertAt(s, 0, index) == [index] + s;
      }
      newHead := index;
    }

    /** Drops the first node of a non-empty list and unlinks it. */
    method Pop(head: nat, ghost s: seq<nat>) returns (newHead: nat, result: nat)
      requires Valid() && Ring(data, nullIndex, head, s) && s != []
      modifies this
      ensures Valid() && |data| == |old(data)| && result == s[0] && result < |data|
      ensures Ring(data, nullIndex, newHead, s[1..])
      ensures OnlyLinksOf(old(data), data, s)
      ensures data[result].next == data[result].prev == nullIndex && result !in s[1..]
    {
      result := head;
      var prev := data[result].prev;
      if prev == head {
        assert |s| == 1 by { assert data[s[0]].prev == s[Before(0, |s|)]; }
        newHead := nullIndex;
        data := SetNext(SetPrev(data, result, nullIndex), result, nullIndex);
      } else {
        newHead := data[head].next;
        RemoveImpl(result, s, 0);
        assert RemoveAt(s, 0) == s[1..];
      }
    }

    /** Inserts before `next`, or at the end of the list when `next` is null. */
    method Insert(head: nat, next: nat, inserted: nat, ghost s: seq<nat>, ghost k: nat) returns (newHead: nat)
      requires Valid() && Ring(data, nullIndex, head, s) && inserted < |data| && inserted !in s
      requires k <= |s| && next == if k < |s| then s[k] else nullIndex
      modifies this
      ensures Valid() && |data| == |old(data)|
      ensures Ring(data, nullIndex, newHead, InsertAt(s, k, inserted))
      ensures exists t :: Inserts(s, t, k, inserted) && Ring(data, nullIndex, newHead, t)
      ensures newHead == if k == 0 then inserted else head
      ensures OnlyLinksOf(old(data), data, InsertAt(s, k, inserted))
    {
      if next == head {
        newHead := Push(head, inserted, s);
        assert k == 0;
        assert InsertAt(s, k, inserted) == [inserted] + s;
      } else {
        newHead := head;
        if next == nullIndex {
          InsertImpl(head, inserted, s, 0);
          assert InsertAt(s, 0, inserted) == [inserted] + s;
          CycleRotate(data, s, inserted);
          assert InsertAt(s, k, inserted) == s + [inserted];
        } else {
          InsertImpl(next, inserted, s, k);
        }
      }
    }

    /** Removes a member of the list and unlinks it. */
    method Remove(head: nat, removed: nat, ghost s: seq<nat>, ghost k: nat) returns (newHead: nat)
      requires Valid() && Ring(data, nullIndex, head, s) && k < |s| && removed == s[k]
      modifies this
      ensures Valid() && |data| == |old(data)|
      ensures Ring(data, nullIndex, newHead, RemoveAt(s, k)) && removed !in RemoveAt(s, k)
      ensures exists t :: Inserts(t, s, k, removed) && Ring(data, nullIndex, newHead, t)
      ensures newHead == if k > 0 then head else if |s| == 1 then nullIndex else s[1]
      ensures OnlyLinksOf(old(data), data, s)
      ensures data[removed].next == data[removed].prev == nullIndex
    {
      if head == removed {
        var popped;
        newHead, popped := Pop(head, s);
        assert RemoveAt(s, 0) == s[1..];
      } else {
        RemoveImpl(removed, s, k);
        newHead := head;
      }
    }

    method InsertImpl(next: nat, inserted: nat, ghost s: seq<nat>, ghost k: nat)
      requires Valid() && Cycle(data, s) && k < |s| && next == s[k] && inserted < |data| && inserted !in s
      modifies this
      ensures Valid() && |data| == |old(data)|
      ensures Cycle(data, InsertAt(s, k, inserted)) && OnlyLinksOf(old(data), data, InsertAt(s, k, inserted))
    {
      var prev := data[next].prev;
      data := SetNext(data, inserted, next);
      data := SetPrev(data, inserted, prev);
      data := SetPrev(data, next, inserted);
      data := SetNext(data, prev, inserted);
      assert s[Before(k, |s|)] == prev && prev in s && next in s;
      SplicedCycle(old(data), data, s, k, inserted);
    }

    method RemoveImpl(removed: nat, ghost s: seq<nat>, ghost k: nat)
      requires Valid() && Cycle(data, s) && k < |s| && removed == s[k] && |s| >= 2
      modifies this
      ensures Valid() && |data| == |old(data)|
      ensures Cycle(data, RemoveAt(s, k)) && OnlyLinksOf(old(data), data, s)
      ensures data[removed].next == data[removed].prev == nullIndex && removed !in RemoveAt(s, k)
    {
      var prev := data[removed].prev;
      var next := data[removed].next;
      data := SetNext(data, prev, next);
      data := SetPrev(data, next, prev);
      data := SetNext(data, removed, nullIndex);
      data := SetPrev(data, removed, nullIndex);
      assert prev == s[Before(k, |s|)] && next == s[After(k, |s|)];
      CutCycle(old(data), data, s, k, nullIndex);
    }

    /** Unlinks every node. */
    method Clear()
      requires Valid()
      modifies this
      ensures Valid() && |data| == |old(data)|
      ensures forall i :: 0 <= i < |data| ==> data[i] == Node(old(data)[i].value, nullIndex, nullIndex)
    {
      for n := 0 to |data|
        invariant Valid() && |data| == |old(data)|
        invariant forall i :: 0 <= i < |data| ==>
          data[i] == if i < n then Node(old(data)[i].value, nullIndex, nullIndex) else old(data)[i]
      {
        data := SetNext(SetPrev(data, n, nullIndex), n, nullIndex);
      }
    }

    function Previous(index: nat): nat
      reads this
      requires index == nullIndex || index < |data|
    {
      if index == nullIndex then nullIndex else data[index].prev
    }

    function Next(index: nat): nat
      reads this
      requires index == nullIndex || index < |data|
    {
      if index == nullIndex then nullIndex else data[index].next
    }
  }
}
