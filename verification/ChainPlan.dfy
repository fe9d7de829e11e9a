/** The interval dynamic programme that plans a matrix chain.
    Matrix i of the chain is dims[i] by dims[i + 1]; `top` is the largest size_t. */
module ChainPlan {

  /** A binary parenthesisation of a chain; a node splits i..j into i..split and split + 1..j. */
  datatype Tree = Leaf | Node(left: Tree, split: nat, right: Tree)

  predicate Spans(t: Tree, i: nat, j: nat) {
    match t
    case Leaf => i == j
    case Node(l, s, r) => i <= s < j && Spans(l, i, s) && Spans(r, s + 1, j)
  }

  /** Scalar multiplications needed to multiply matrices i..j in the order of t. */
  function TreeCost(dims: seq<nat>, t: Tree, i: nat, j: nat): nat
    requires Spans(t, i, j) && j + 1 < |dims|
    decreases t
  {
    match t
    case Leaf => 0
    case Node(l, s, r) =>
      TreeCost(dims, l, i, s) + TreeCost(dims, r, s + 1, j) + dims[i] * dims[s + 1] * dims[j + 1]
  }

  // ---- what the loops compute, in size_t arithmetic ----

  /** size_t addition and multiplication wrap around. */
  function Wrap(top: nat, x: nat): (r: nat)
    ensures r <= top && (x <= top ==> r == x)
  {
    x % (top + 1)
  }

  /** What is dropped is a multiple of top + 1. */
  lemma WrapModulo(top: nat, x: nat)
    ensures x == x / (top + 1) * (top + 1) + Wrap(top, x)
  {
  }

  function WrappedProduct(top: nat, x: nat, y: nat, z: nat): nat {
    Wrap(top, Wrap(top, x * y) * z)
  }

  /** leftCost + rightCost + x * y * z, evaluated in size_t. */
  function WrappedSum(top: nat, leftCost: nat, rightCost: nat, x: nat, y: nat, z: nat): (r: nat)
    ensures r <= top
  {
    Wrap(top, Wrap(top, leftCost + rightCost) + WrappedProduct(top, x, y, z))
  }

  /** It never exceeds the exact sum, and equals it when that fits. */
  lemma WrappedSumBound(top: nat, leftCost: nat, rightCost: nat, x: nat, y: nat, z: nat)
    ensures WrappedSum(top, leftCost, rightCost, x, y, z) <= leftCost + rightCost + x * y * z
    ensures leftCost + rightCost + x * y * z <= top ==>
      WrappedSum(top, leftCost, rightCost, x, y, z) == leftCost + rightCost + x * y * z
  {
    MultiplyMonotone(Wrap(top, x * y), x * y, z);
    if z > 0 {
      MultiplyMonotone(1, z, x * y);
    } else {
      assert Wrap(top, x * y) * z == 0 && x * y * z == 0;
    }
  }

  lemma MultiplyMonotone(a: nat, b: nat, c: nat)
    requires a <= b
    ensures a * c <= b * c && c * a <= c * b
  {
    assert (b - a) * c >= 0;
  }

  /** Best cost and split found once splits i..k-1 have been tried. */
  function Scan(dims: seq<nat>, top: nat, i: nat, j: nat, k: nat): (r: (nat, nat))
    requires i < j && i <= k <= j && j + 1 < |dims|
    decreases j - i, 0, k
  {
    if k == i then (top, j - 1)
    else
      var best := Scan(dims, top, i, j, k - 1);
      var c := Candidate(dims, top, i, k - 1, j);
      if c < best.0 then (c, k - 1) else best
  }

  function Candidate(dims: seq<nat>, top: nat, i: nat, k: nat, j: nat): nat
    requires i <= k < j && j + 1 < |dims|
    decreases j - i, 0, k
  {
    WrappedSum(top, Cost(dims, top, i, k), Cost(dims, top, k + 1, j), dims[i], dims[k + 1], dims[j + 1])
  }

  function Cost(dims: seq<nat>, top: nat, i: nat, j: nat): nat
    requires i <= j && j + 1 < |dims|
    decreases j - i, 1
  {
    if i == j then 0 else Scan(dims, top, i, j, j).0
  }

  function Split(dims: seq<nat>, top: nat, i: nat, j: nat): nat
    requires i <= j && j + 1 < |dims|
  {
    if i == j then 0 else Scan(dims, top, i, j, j).1
  }

  // ---- the planner ----

  /** Fills the cost and split tables; `resolve` in the source. */
  method Resolve(dims: seq<nat>, top: nat) returns (cost: array2<nat>, solution: array2<nat>)
    requires |dims| >= 2
    ensures cost.Length0 == cost.Length1 == solution.Length0 == solution.Length1 == |dims| - 1
    ensures forall i, j :: 0 <= i <= j < |dims| - 1 ==>
      cost[i, j] == Cost(dims, top, i, j) && solution[i, j] == Split(dims, top, i, j)
    ensures forall i, j :: 0 <= j <= i < |dims| - 1 ==> cost[i, j] == solution[i, j] == 0
  {
    hide Scan, Candidate;
    var size := |dims| - 1;
    cost := new nat[size, size]((_, _) => 0);
    solution := new nat[size, size]((_, _) => 0);
    for i := 0 to size
      invariant forall a, b :: 0 <= a < size && 0 <= b < size ==> cost[a, b] == 0 && solution[a, b] == 0
    {
      cost[i, i] := 0;
      solution[i, i] := 0;
    }
    for l := 2 to size + 1
      invariant forall a, b :: 0 <= a <= b < size && b - a + 1 < l ==>
        cost[a, b] == Cost(dims, top, a, b) && solution[a, b] == Split(dims, top, a, b)
      invariant forall a, b :: 0 <= b <= a < size ==> cost[a, b] == solution[a, b] == 0
    {
      for i := 0 to size - l + 1
        invariant forall a, b :: 0 <= a <= b < size && (b - a + 1 < l || (b - a + 1 == l && a < i)) ==>
          cost[a, b] == Cost(dims, top, a, b) && solution[a, b] == Split(dims, top, a, b)
        invariant forall a, b :: 0 <= b <= a < size ==> cost[a, b] == solution[a, b] == 0
      {
        TrySplits(dims, top, cost, solution, i, i + l - 1);
      }
    }
  }

  /** The innermost loop: chain i..j from the tables of all shorter chains. */
  method TrySplits(dims: seq<nat>, top: nat, cost: array2<nat>, solution: array2<nat>, i: nat, j: nat)
    requires i < j && j + 1 < |dims| && cost != solution
    requires cost.Length0 == cost.Length1 == solution.Length0 == solution.Length1 == |dims| - 1
    requires forall a, b {:trigger cost[a, b]} :: 0 <= a <= b < |dims| - 1 && b - a < j - i ==>
      cost[a, b] == Cost(dims, top, a, b)
    modifies cost, solution
    ensures cost[i, j] == Cost(dims, top, i, j) && solution[i, j] == Split(dims, top, i, j)
    ensures forall a, b :: 0 <= a < |dims| - 1 && 0 <= b < |dims| - 1 && (a != i || b != j) ==>
      cost[a, b] == old(cost[a, b]) && solution[a, b] == old(solution[a, b])
  {
    hide WrappedSum;
    cost[i, j] := top;
    solution[i, j] := j - 1;
    for k := i to j
      invariant forall a, b :: 0 <= a < |dims| - 1 && 0 <= b < |dims| - 1 && (a != i || b != j) ==>
        cost[a, b] == old(cost[a, b]) && solution[a, b] == old(solution[a, b])
      invariant (cost[i, j], solution[i, j]) == Scan(dims, top, i, j, k)
    {
      assert cost[i, k] == Cost(dims, top, i, k) && cost[k + 1, j] == Cost(dims, top, k + 1, j);
      var currentCost := WrappedSum(top, cost[i, k], cost[k + 1, j], dims[i], dims[k + 1], dims[j + 1]);
      assert currentCost == Candidate(dims, top, i, k, j);
      if currentCost < cost[i, j] {
        cost[i, j] := currentCost;
        solution[i, j] := k;
      }
    }
  }

  // ---- every split is usable, whatever the arithmetic did ----

  lemma {:induction false} ScanInRange(dims: seq<nat>, top: nat, i: nat, j: nat, k: nat)
    requires i < j && i <= k <= j && j + 1 < |dims|
    ensures i <= Scan(dims, top, i, j, k).1 < j
    ensures Scan(dims, top, i, j, k).0 <= top
    decreases k
  {
    if k > i { ScanInRange(dims, top, i, j, k - 1); }
  }

  // ---- which split is recorded ----

  /** The scan holds the least candidate seen, and the first split that reaches it; only when
      no candidate is below the size_t maximum does the default split j - 1 stand. */
  lemma {:induction false} ScanLeast(dims: seq<nat>, top: nat, i: nat, j: nat, k: nat)
    requires i < j && i <= k <= j && j + 1 < |dims|
    ensures var (c, s) := Scan(dims, top, i, j, k);
      && (forall m :: i <= m < k ==> c <= Candidate(dims, top, i, m, j))
      && (c == top ==> s == j - 1)
      && (c < top ==> i <= s < k && c == Candidate(dims, top, i, s, j))
      && (c < top ==> forall m :: i <= m < s ==> c < Candidate(dims, top, i, m, j))
    decreases k
  {
    if k > i { ScanLeast(dims, top, i, j, k - 1); }
  }

  /** No split has a smaller candidate, as the loop computes candidates, than s. */
  predicate Minimises(dims: seq<nat>, top: nat, i: nat, s: nat, j: nat)
    requires i <= s < j && j + 1 < |dims|
  {
    forall m :: i <= m < j ==> Candidate(dims, top, i, s, j) <= Candidate(dims, top, i, m, j)
  }

  /** The recorded split lies in [i, j), attains the recorded cost and is a minimiser. */
  lemma SplitMinimises(dims: seq<nat>, top: nat, i: nat, j: nat)
    requires i < j && j + 1 < |dims|
    ensures i <= Split(dims, top, i, j) < j
    ensures Cost(dims, top, i, j) == Candidate(dims, top, i, Split(dims, top, i, j), j)
    ensures Minimises(dims, top, i, Split(dims, top, i, j), j)
  {
    ScanLeast(dims, top, i, j, j);
    ScanInRange(dims, top, i, j, j);
  }

  /** It is the least minimiser exactly when the cost is below the maximum or there is only
      one place to split: a candidate equal to the maximum never replaces the default. Two
      places to split are safe as well for an odd maximum, and size_t has no other. */
  lemma LeastSplitIff(dims: seq<nat>, top: nat, i: nat, j: nat)
    requires i < j && j + 1 < |dims|
    ensures i <= Split(dims, top, i, j) < j
    ensures (forall m :: i <= m < Split(dims, top, i, j) ==> !Minimises(dims, top, i, m, j))
       <==> (Cost(dims, top, i, j) < top || j == i + 1)
    ensures Odd(top) && j == i + 2 ==> Cost(dims, top, i, j) < top
  {
    ScanLeast(dims, top, i, j, j);
    SplitMinimises(dims, top, i, j);
    var s := Split(dims, top, i, j);
    if Cost(dims, top, i, j) == top && j > i + 1 {
      assert Candidate(dims, top, i, i, j) == top;
      assert Minimises(dims, top, i, i, j);
    } else {
      forall m | i <= m < s ensures !Minimises(dims, top, i, m, j) {
        assert Candidate(dims, top, i, s, j) < Candidate(dims, top, i, m, j);
      }
    }
    if Odd(top) && j == i + 2 { TripleBelowTop(dims, top, i); }
  }

  /** At the maximum every candidate is equal, and the default stands. */
  lemma MaximumStands(dims: seq<nat>, top: nat, i: nat, j: nat)
    requires i < j && j + 1 < |dims| && Cost(dims, top, i, j) == top
    ensures Split(dims, top, i, j) == j - 1 && Minimises(dims, top, i, i, j)
  {
    ScanLeast(dims, top, i, j, j);
    assert forall m :: i <= m < j ==> Candidate(dims, top, i, m, j) == top;
  }

  /** Both orders of a chain of three cannot reach an odd maximum: one sum being odd makes
      two factors of the other equal in parity. Wrapping at top + 1 keeps parity. */
  lemma TripleBelowTop(dims: seq<nat>, top: nat, i: nat)
    requires i + 3 < |dims| && Odd(top)
    ensures Cost(dims, top, i, i + 2) < top
  {
    var a, b, c, d := dims[i], dims[i + 1], dims[i + 2], dims[i + 3];
    ScanInRange(dims, top, i, i + 2, i + 2);
    TripleScan(dims, top, i);
    PairCost(dims, top, i);
    PairCost(dims, top, i + 1);
    hide WrappedSum, Odd, Scan;
    assert Cost(dims, top, i, i) == Cost(dims, top, i + 2, i + 2) == 0;
    assert !Odd(0) by { EvenZero(); }
    OddWrappedSum(top, 0, 0, a, b, c);
    OddWrappedSum(top, 0, 0, b, c, d);
    OddWrappedSum(top, 0, Cost(dims, top, i + 1, i + 2), a, b, d);
    OddWrappedSum(top, Cost(dims, top, i, i + 1), 0, a, c, d);
  }

  predicate Odd(x: int) { x % 2 == 1 }

  lemma EvenZero()
    ensures !Odd(0)
  {
  }

  lemma OddSum(x: int, y: int)
    ensures Odd(x + y) <==> Odd(x) != Odd(y)
  {
  }

  lemma DoubleProduct(p: int, y: int)
    ensures (2 * p) * y == y * (2 * p) == 2 * (p * y)
  {
  }

  lemma OddProduct(x: int, y: int)
    ensures Odd(x * y) <==> Odd(x) && Odd(y)
  {
    var p, r := x / 2, y / 2;
    if !Odd(x) {
      DoubleProduct(p, y);
    } else if !Odd(y) {
      DoubleProduct(r, x);
    } else {
      DoubleProduct(r, x);
      assert x * y == x * (2 * r) + x;
    }
  }

  lemma OddWrap(top: nat, x: nat)
    requires Odd(top)
    ensures Odd(Wrap(top, x)) == Odd(x)
  {
    var q := x / (top + 1);
    assert x == q * (top + 1) + Wrap(top, x);
    OddProduct(q, top + 1);
    OddSum(q * (top + 1), Wrap(top, x));
  }

  lemma OddWrappedSum(top: nat, leftCost: nat, rightCost: nat, x: nat, y: nat, z: nat)
    requires Odd(top)
    ensures Odd(WrappedSum(top, leftCost, rightCost, x, y, z)) <==>
      (Odd(leftCost) != Odd(rightCost)) != (Odd(x) && Odd(y) && Odd(z))
  {
    hide Odd, Wrap;
    var xy := Wrap(top, x * y);
    OddSum(leftCost, rightCost);
    OddWrap(top, leftCost + rightCost);
    OddProduct(x, y);
    OddWrap(top, x * y);
    OddProduct(xy, z);
    OddWrap(top, xy * z);
    OddSum(Wrap(top, leftCost + rightCost), Wrap(top, xy * z));
    OddWrap(top, Wrap(top, leftCost + rightCost) + Wrap(top, xy * z));
  }

  // ---- optimality ----

  /** The sum the loop forms for split k, before any wrap-around. */
  function ExactCandidate(dims: seq<nat>, top: nat, i: nat, k: nat, j: nat): nat
    requires i <= k < j && j + 1 < |dims|
  {
    Cost(dims, top, i, k) + Cost(dims, top, k + 1, j) + dims[i] * dims[k + 1] * dims[j + 1]
  }

  /** Wrapping only ever makes a candidate smaller. */
  lemma CandidateBelowExact(dims: seq<nat>, top: nat, i: nat, k: nat, j: nat)
    requires i <= k < j && j + 1 < |dims|
    ensures Candidate(dims, top, i, k, j) <= ExactCandidate(dims, top, i, k, j)
    ensures ExactCandidate(dims, top, i, k, j) <= top ==>
      Candidate(dims, top, i, k, j) == ExactCandidate(dims, top, i, k, j)
  {
    WrappedSumBound(top, Cost(dims, top, i, k), Cost(dims, top, k + 1, j), dims[i], dims[k + 1], dims[j + 1]);
  }

  /** No parenthesisation is cheaper than the recorded cost, whatever wraps. */
  lemma {:induction false} CostIsLowerBound(dims: seq<nat>, top: nat, t: Tree, i: nat, j: nat)
    requires Spans(t, i, j) && j + 1 < |dims|
    ensures Cost(dims, top, i, j) <= TreeCost(dims, t, i, j)
    decreases t
  {
    if t.Node? {
      CostIsLowerBound(dims, top, t.left, i, t.split);
      CostIsLowerBound(dims, top, t.right, t.split + 1, j);
      SplitMinimises(dims, top, i, j);
      CandidateBelowExact(dims, top, i, t.split, j);
      assert Cost(dims, top, i, j) <= Candidate(dims, top, i, t.split, j);
    }
  }

  lemma CostInRange(dims: seq<nat>, top: nat, i: nat, j: nat)
    requires i <= j && j + 1 < |dims|
    ensures Cost(dims, top, i, j) <= top
  {
    if i < j { ScanInRange(dims, top, i, j, j); }
  }

  /** The plan: the tree along the recorded splits. */
  function PlannedTree(dims: seq<nat>, top: nat, i: nat, j: nat): (t: Tree)
    requires i <= j && j + 1 < |dims|
    ensures Spans(t, i, j)
    decreases j - i
  {
    if i == j then Leaf
    else
      ScanInRange(dims, top, i, j, j);
      var s := Split(dims, top, i, j);
      Node(PlannedTree(dims, top, i, s), s, PlannedTree(dims, top, s + 1, j))
  }

  /** What the plan really costs. */
  function PlanWork(dims: seq<nat>, top: nat, i: nat, j: nat): nat
    requires i <= j && j + 1 < |dims|
  {
    TreeCost(dims, PlannedTree(dims, top, i, j), i, j)
  }

  /** Scalar multiplications in the last product, of i..k by k + 1..j. */
  function LastWork(dims: seq<nat>, i: nat, k: nat, j: nat): nat
    requires i <= k < j && j + 1 < |dims|
  {
    dims[i] * dims[k + 1] * dims[j + 1]
  }

  /** One level of the plan, and of the cost table: the recorded cost is at most the exact sum
      at the recorded split, and equal to it when that fits. */
  lemma PlanWorkSplits(dims: seq<nat>, top: nat, i: nat, j: nat)
    requires i < j && j + 1 < |dims|
    ensures var s := Split(dims, top, i, j);
      && i <= s < j
      && PlanWork(dims, top, i, j)
         == PlanWork(dims, top, i, s) + PlanWork(dims, top, s + 1, j) + LastWork(dims, i, s, j)
      && var exact := Cost(dims, top, i, s) + Cost(dims, top, s + 1, j) + LastWork(dims, i, s, j);
         exact == ExactCandidate(dims, top, i, s, j) && (exact <= top ==> Cost(dims, top, i, j) == exact)
  {
    SplitMinimises(dims, top, i, j);
    CandidateBelowExact(dims, top, i, Split(dims, top, i, j), j);
  }

  /** The plan costs what the cost table says exactly when its true cost fits size_t;
      candidates off the plan may wrap. */
  lemma {:induction false} PlanAttainsCost(dims: seq<nat>, top: nat, i: nat, j: nat)
    requires i <= j && j + 1 < |dims|
    ensures PlanWork(dims, top, i, j) == Cost(dims, top, i, j) <==> PlanWork(dims, top, i, j) <= top
    decreases j - i
  {
    CostInRange(dims, top, i, j);
    if i < j {
      hide Cost, Split, PlanWork, LastWork, ExactCandidate;
      PlanWorkSplits(dims, top, i, j);
      PlanAttainsCost(dims, top, i, Split(dims, top, i, j));
      PlanAttainsCost(dims, top, Split(dims, top, i, j) + 1, j);
    }
  }

  /** No parenthesisation of the chain i..j needs fewer scalar multiplications. */
  ghost predicate NoneCheaper(dims: seq<nat>, muls: nat, i: nat, j: nat)
    requires j + 1 < |dims|
  {
    forall t :: Spans(t, i, j) ==> muls <= TreeCost(dims, t, i, j)
  }

  /** Some parenthesisation has a cost that size_t can hold. */
  ghost predicate SomeFits(dims: seq<nat>, top: nat, i: nat, j: nat)
    requires j + 1 < |dims|
  {
    exists t :: Spans(t, i, j) && TreeCost(dims, t, i, j) <= top
  }

  /** A plan whose true cost fits is a cheapest one; and if any order fits at all, then a plan
      that does not fit is not. */
  lemma PlanIsOptimal(dims: seq<nat>, top: nat, i: nat, j: nat)
    requires i <= j && j + 1 < |dims|
    ensures var work := PlanWork(dims, top, i, j);
      && (work <= top ==> NoneCheaper(dims, work, i, j))
      && (SomeFits(dims, top, i, j) ==> (NoneCheaper(dims, work, i, j) <==> work <= top))
  {
    PlanAttainsCost(dims, top, i, j);
    forall t | Spans(t, i, j) ensures Cost(dims, top, i, j) <= TreeCost(dims, t, i, j) {
      CostIsLowerBound(dims, top, t, i, j);
    }
  }

  // ---- the split table ----

  /** The table as constants of the program, one row per start of a chain. */
  type Table = seq<seq<nat>>

  predicate ValidTable(table: Table, n: nat) {
    && |table| == n
    && (forall i :: 0 <= i < n ==> |table[i]| == n)
    && forall i, j :: 0 <= i < j < n ==> i <= table[i][j] < j
  }

  function PlanTree(table: Table, n: nat, i: nat, j: nat): (t: Tree)
    requires ValidTable(table, n) && i <= j < n
    ensures Spans(t, i, j)
    decreases j - i
  {
    if i == j then Leaf
    else
      var s := table[i][j];
      Node(PlanTree(table, n, i, s), s, PlanTree(table, n, s + 1, j))
  }

  function TableOf(solution: array2<nat>): (t: Table)
    reads solution
    ensures |t| == solution.Length0
    ensures forall i :: 0 <= i < |t| ==> |t[i]| == solution.Length1
    ensures forall i, j :: 0 <= i < solution.Length0 && 0 <= j < solution.Length1 ==> t[i][j] == solution[i, j]
  {
    seq(solution.Length0, i requires 0 <= i < solution.Length0 reads solution =>
      seq(solution.Length1, j requires 0 <= j < solution.Length1 reads solution => solution[i, j]))
  }

  /** The table records the splits the dynamic programme chose. */
  predicate Planned(dims: seq<nat>, top: nat, table: Table) {
    && |dims| >= 2 && |table| == |dims| - 1
    && (forall i :: 0 <= i < |table| ==> |table[i]| == |table|)
    && forall i, j :: 0 <= i < j < |table| ==> table[i][j] == Split(dims, top, i, j)
  }

  lemma PlannedIsValid(dims: seq<nat>, top: nat, table: Table)
    requires Planned(dims, top, table)
    ensures ValidTable(table, |dims| - 1)
  {
    forall i, j | 0 <= i < j < |table| ensures i <= table[i][j] < j {
      ScanInRange(dims, top, i, j, j);
    }
  }

  /** The tree read off such a table is the plan. */
  lemma {:induction false} TableDescribesPlan(dims: seq<nat>, top: nat, table: Table, i: nat, j: nat)
    requires Planned(dims, top, table) && ValidTable(table, |dims| - 1)
    requires i <= j && j + 1 < |dims|
    ensures PlanTree(table, |dims| - 1, i, j) == PlannedTree(dims, top, i, j)
    decreases j - i
  {
    if i < j {
      hide Split;
      TableDescribesPlan(dims, top, table, i, table[i][j]);
      TableDescribesPlan(dims, top, table, table[i][j] + 1, j);
    }
  }

  /** Resolves a chain and turns the solution array into constants. */
  method SolutionType(dims: seq<nat>, top: nat) returns (table: Table)
    requires |dims| >= 2
    ensures Planned(dims, top, table) && ValidTable(table, |dims| - 1)
  {
    var cost, solution := Resolve(dims, top);
    table := TableOf(solution);
    PlannedIsValid(dims, top, table);
  }

  // ---- conditions under which nothing wraps ----

  /** No candidate sum the loops form exceeds the size_t maximum. */
  predicate NoOverflow(dims: seq<nat>, top: nat) {
    forall i, k, j {:trigger ExactCandidate(dims, top, i, k, j)} ::
      0 <= i <= k < j && j + 1 < |dims| ==> ExactCandidate(dims, top, i, k, j) <= top
  }

  /** Then every plan fits, and so is a cheapest one. */
  lemma {:induction false} NoOverflowFits(dims: seq<nat>, top: nat, i: nat, j: nat)
    requires i <= j && j + 1 < |dims| && NoOverflow(dims, top)
    ensures PlanWork(dims, top, i, j) <= top && NoneCheaper(dims, PlanWork(dims, top, i, j), i, j)
    decreases j - i
  {
    PlanIsOptimal(dims, top, i, j);
    if i < j {
      PlanWorkSplits(dims, top, i, j);
      hide NoneCheaper, SomeFits, Cost, Split, PlanWork, LastWork, ExactCandidate;
      var s := Split(dims, top, i, j);
      NoOverflowFits(dims, top, i, s);
      NoOverflowFits(dims, top, s + 1, j);
      PlanAttainsCost(dims, top, i, s);
      PlanAttainsCost(dims, top, s + 1, j);
      assert ExactCandidate(dims, top, i, s, j) <= top;
    }
  }

  lemma {:induction false} CostBound(dims: seq<nat>, top: nat, bound: nat, i: nat, j: nat)
    requires i <= j && j + 1 < |dims|
    requires forall k :: 0 <= k < |dims| ==> dims[k] <= bound
    ensures Cost(dims, top, i, j) <= (j - i) * (bound * bound * bound)
    decreases j - i
  {
    if i < j {
      CandidateBound(dims, top, bound, i, i, j);
      SplitMinimises(dims, top, i, j);
      CandidateBelowExact(dims, top, i, i, j);
      assert Cost(dims, top, i, j) <= Candidate(dims, top, i, i, j);
    }
  }

  lemma {:induction false} CandidateBound(dims: seq<nat>, top: nat, bound: nat, i: nat, k: nat, j: nat)
    requires i <= k < j && j + 1 < |dims|
    requires forall k :: 0 <= k < |dims| ==> dims[k] <= bound
    ensures ExactCandidate(dims, top, i, k, j) <= (j - i) * (bound * bound * bound)
    decreases j - i, 0
  {
    CostBound(dims, top, bound, i, k);
    CostBound(dims, top, bound, k + 1, j);
    CubeBound(dims[i], dims[k + 1], dims[j + 1], bound);
    SplitMultiple(k - i, j - (k + 1), bound * bound * bound);
  }

  lemma CubeBound(x: nat, y: nat, z: nat, bound: nat)
    requires x <= bound && y <= bound && z <= bound
    ensures x * y * z <= bound * bound * bound
  {
    assert x * y <= bound * y <= bound * bound;
    MultiplyMonotone(x * y, bound * bound, z);
    MultiplyMonotone(z, bound, bound * bound);
  }

  lemma SplitMultiple(m: nat, n: nat, cube: nat)
    ensures m * cube + n * cube + cube == (m + n + 1) * cube
  {
  }

  /** A caller can rule out overflow from the number of matrices and the largest size. */
  lemma SmallSizesFit(dims: seq<nat>, top: nat, bound: nat)
    requires |dims| >= 2 && (|dims| - 2) * (bound * bound * bound) <= top
    requires forall k :: 0 <= k < |dims| ==> dims[k] <= bound
    ensures NoOverflow(dims, top)
  {
    forall i, k, j | 0 <= i <= k < j && j + 1 < |dims| ensures ExactCandidate(dims, top, i, k, j) <= top {
      CandidateBound(dims, top, bound, i, k, j);
      MultiplyMonotone(j - i, |dims| - 2, bound * bound * bound);
    }
  }

  // ---- inputs that show the conditions are needed ----

  lemma PairCost(dims: seq<nat>, top: nat, i: nat)
    requires i + 2 < |dims|
    ensures Cost(dims, top, i, i + 1) == WrappedSum(top, 0, 0, dims[i], dims[i + 1], dims[i + 2])
  {
    assert Cost(dims, top, i, i) == Cost(dims, top, i + 1, i + 1) == 0;
    assert Scan(dims, top, i, i + 1, i) == (top, i);
    assert Scan(dims, top, i, i + 1, i + 1).0 == Candidate(dims, top, i, i, i + 1);
  }

  lemma PairTree(dims: seq<nat>, top: nat, i: nat)
    requires i + 2 < |dims|
    ensures PlannedTree(dims, top, i, i + 1) == Node(Leaf, i, Leaf)
  {
    ScanInRange(dims, top, i, i + 1, i + 1);
  }

  lemma TripleScan(dims: seq<nat>, top: nat, i: nat)
    requires i + 3 < |dims|
    ensures var c, d := Candidate(dims, top, i, i, i + 2), Candidate(dims, top, i, i + 1, i + 2);
      && Cost(dims, top, i, i + 2) == (if c <= d then c else d)
      && (c < top && c <= d ==> Split(dims, top, i, i + 2) == i)
  {
    var c := Candidate(dims, top, i, i, i + 2);
    assert Scan(dims, top, i, i + 2, i) == (top, i + 1);
    assert Scan(dims, top, i, i + 2, i + 1) == if c < top then (c, i) else (top, i + 1);
    assert Scan(dims, top, i, i + 2, i + 2).0 == Cost(dims, top, i, i + 2);
  }

  /** When the plan does not fit it can be the dearer one: with 64-bit sizes, one order of this
      chain of three wraps to a small number and is chosen, although the other one fits. */
  lemma OverflowMisplans(dims: seq<nat>, top: nat)
    requires dims == [0x8000_0000, 0x8000_0000, 1, 4] && top == TOP64
    ensures PlannedTree(dims, top, 0, 2) == Node(Leaf, 0, Node(Leaf, 1, Leaf)) && PlanWork(dims, top, 0, 2) > top
    ensures TreeCost(dims, Node(Node(Leaf, 0, Leaf), 1, Leaf), 0, 2) <= top
    ensures SomeFits(dims, top, 0, 2)
  {
    PairCost(dims, top, 0);
    PairCost(dims, top, 1);
    assert Cost(dims, top, 0, 0) == Cost(dims, top, 2, 2) == 0;
    TripleScan(dims, top, 0);
    PairTree(dims, top, 1);
    assert PlannedTree(dims, top, 0, 0) == Leaf;
    assert TreeCost(dims, Node(Leaf, 1, Leaf), 1, 2) == 0x8000_0000 * 4;
    assert Spans(Node(Node(Leaf, 0, Leaf), 1, Leaf), 0, 2);
  }

  const TOP64: nat := 0xFFFF_FFFF_FFFF_FFFF
  const WIDE: nat := 2627965507
  const NARROW: nat := 2238462331

  /** A chain of six. No matrix over it has 2^63 elements. */
  predicate Barrel(dims: seq<nat>) {
    dims == [WIDE, NARROW, NARROW, NARROW, NARROW, NARROW, WIDE]
  }

  function BarrelProduct(i: nat, j: nat): nat {
    if i == 0 && j == 5 then 13465721206696169939
    else if i == 0 || j == 5 then 1245255716753345419
    else 13749637878300481539
  }

  lemma BarrelProducts()
    ensures WrappedProduct(TOP64, WIDE, NARROW, WIDE) == BarrelProduct(0, 5)
    ensures WrappedProduct(TOP64, WIDE, NARROW, NARROW) == BarrelProduct(0, 1)
    ensures WrappedProduct(TOP64, NARROW, NARROW, WIDE) == BarrelProduct(0, 1)
    ensures WrappedProduct(TOP64, NARROW, NARROW, NARROW) == BarrelProduct(1, 2)
  {
  }

  /** The cost table of the chain; a row for each chain length. */
  function BarrelCost(i: nat, j: nat): nat {
    var ends := i == 0 || j == 5;
    if j <= i then 0
    else if j == i + 1 then if ends then 1245255716753345419 else 13749637878300481539
    else if j == i + 2 then if ends then 2490511433506690838 else 9052531682891411462
    else if j == i + 3 then if ends then 3735767150260036257 else 4355425487482341385
    else if j == i + 4 then 4981022867013381676
    else TOP64
  }

  /** x modulo 2^64, for x below 2^65. */
  function Cycled(x: nat): nat {
    if x <= TOP64 then x else x - TOP64 - 1
  }

  function BarrelSum(i: nat, k: nat, j: nat): nat {
    Cycled(Cycled(BarrelCost(i, k) + BarrelCost(k + 1, j)) + BarrelProduct(i, j))
  }

  lemma WrapIsCycled(x: nat)
    ensures x <= 2 * TOP64 ==> Wrap(TOP64, x) == Cycled(x) <= TOP64
  {
  }

  lemma BarrelCandidate(dims: seq<nat>, i: nat, k: nat, j: nat)
    requires Barrel(dims) && i <= k < j <= 5
    requires Cost(dims, TOP64, i, k) == BarrelCost(i, k) && Cost(dims, TOP64, k + 1, j) == BarrelCost(k + 1, j)
    ensures Candidate(dims, TOP64, i, k, j) == BarrelSum(i, k, j)
  {
    hide WrappedProduct, Cost;
    BarrelProducts();
    var p := WrappedProduct(TOP64, dims[i], dims[k + 1], dims[j + 1]);
    assert p == BarrelProduct(i, j);
    hide BarrelProduct, BarrelCost, Wrap, Cycled, Barrel;
    BarrelWithin(i, k, j);
    WrapIsCycled(BarrelCost(i, k) + BarrelCost(k + 1, j));
    WrapIsCycled(Cycled(BarrelCost(i, k) + BarrelCost(k + 1, j)) + BarrelProduct(i, j));
  }

  lemma BarrelWithin(i: nat, k: nat, j: nat)
    ensures BarrelCost(i, k) <= TOP64 && BarrelCost(k + 1, j) <= TOP64 && BarrelProduct(i, j) <= TOP64
  {
  }

  /** Splitting off one end matrix is best, everywhere but for the whole chain, where no split
      is better than another. */
  lemma BarrelLeast(i: nat, j: nat)
    requires i < j <= 5
    ensures forall k :: i <= k < j ==> BarrelCost(i, j) <= BarrelSum(i, k, j)
    ensures BarrelSum(i, if i == 0 then j - 1 else i, j) == BarrelCost(i, j)
  {
  }

  lemma {:induction false} BarrelCosts(dims: seq<nat>, i: nat, j: nat)
    requires Barrel(dims) && i <= j <= 5
    ensures Cost(dims, TOP64, i, j) == BarrelCost(i, j)
    decreases j - i
  {
    if i < j {
      hide Candidate, Cost, BarrelSum, BarrelCost;
      forall k | i <= k < j ensures Candidate(dims, TOP64, i, k, j) == BarrelSum(i, k, j) {
        BarrelCosts(dims, i, k);
        BarrelCosts(dims, k + 1, j);
        BarrelCandidate(dims, i, k, j);
      }
      BarrelLeast(i, j);
      SplitMinimises(dims, TOP64, i, j);
      var k := if i == 0 then j - 1 else i;
      assert Candidate(dims, TOP64, i, Split(dims, TOP64, i, j), j) <= Candidate(dims, TOP64, i, k, j);
    }
  }

  /** The default split can stand against equal, earlier ones, for matrices small enough to
      exist: all five sums wrap to the 64-bit maximum, and the last split is kept. */
  lemma DefaultSplitStands(dims: seq<nat>)
    requires Barrel(dims)
    ensures forall i, j :: 0 <= i < 7 && 0 <= j < 7 ==> dims[i] * dims[j] < 0x8000_0000_0000_0000
    ensures Cost(dims, TOP64, 0, 5) == TOP64 && Split(dims, TOP64, 0, 5) == 4
    ensures Minimises(dims, TOP64, 0, 0, 5)
  {
    hide Candidate, Scan, Cost, Split;
    BarrelCosts(dims, 0, 5);
    forall i, j | 0 <= i < 7 && 0 <= j < 7 ensures dims[i] * dims[j] < 0x8000_0000_0000_0000 {
      SidesSmall(dims[i], dims[j]);
    }
    MaximumStands(dims, TOP64, 0, 5);
  }

  lemma SidesSmall(x: nat, y: nat)
    requires (x == WIDE || x == NARROW) && (y == WIDE || y == NARROW)
    ensures x * y < 0x8000_0000_0000_0000
  {
    assert WIDE * WIDE < 0x8000_0000_0000_0000 && NARROW <= WIDE;
    MultiplyMonotone(x, WIDE, y);
    MultiplyMonotone(y, WIDE, WIDE);
  }
}
