/** Multiplies a chain along a split table, counting scalar multiplications. */
module ChainExecutor {
  import opened MatrixAlgebra
  import opened ChainPlan

  // ---- the sizes of a chain ----

  function GenerateMatrixSize(ms: seq<Matrix>): (dims: seq<nat>)
    requires |ms| > 0
    ensures |dims| == |ms| + 1
  {
    [ms[0].rows] + seq(|ms|, i requires 0 <= i < |ms| => ms[i].cols)
  }

  /** Adjacent matrices fit together; a fold over the pairs, as the source writes it. */
  predicate CheckConsistencies(ms: seq<Matrix>) {
    |ms| < 2 || (ms[0].cols == ms[1].rows && CheckConsistencies(ms[1..]))
  }

  /** Matrix i of a consistent chain is dims[i] by dims[i + 1]. */
  lemma {:induction false} ConsistentIffSized(ms: seq<Matrix>)
    requires |ms| > 0
    ensures CheckConsistencies(ms) <==>
      forall i :: 0 <= i < |ms| ==>
        ms[i].rows == GenerateMatrixSize(ms)[i] && ms[i].cols == GenerateMatrixSize(ms)[i + 1]
  {
    if |ms| >= 2 {
      var rest := ms[1..];
      ConsistentIffSized(rest);
      assert forall i :: 0 <= i < |rest| ==> rest[i] == ms[i + 1];
      assert forall i :: 1 <= i < |ms| ==> ms[i] == rest[i - 1];
    }
  }

  /** A well-formed chain of matrices whose sizes are dims. */
  predicate Chain(ms: seq<Matrix>, dims: seq<nat>) {
    |dims| == |ms| + 1 && forall i :: 0 <= i < |ms| ==>
      WellFormed(ms[i]) && ms[i].rows == dims[i] && ms[i].cols == dims[i + 1]
  }

  // ---- what a chain means ----

  function EvalTree(ms: seq<Matrix>, dims: seq<nat>, t: Tree, i: nat, j: nat): (p: Matrix)
    requires Chain(ms, dims) && Spans(t, i, j) && j < |ms|
    ensures WellFormed(p) && p.rows == dims[i] && p.cols == dims[j + 1]
    decreases t
  {
    match t
    case Leaf => ms[i]
    case Node(l, s, r) => Product(EvalTree(ms, dims, l, i, s), EvalTree(ms, dims, r, s + 1, j))
  }

  /** ((m_i m_i+1) m_i+2) ... m_j */
  function LeftFold(ms: seq<Matrix>, dims: seq<nat>, i: nat, j: nat): (p: Matrix)
    requires Chain(ms, dims) && i <= j < |ms|
    ensures WellFormed(p) && p.rows == dims[i] && p.cols == dims[j + 1]
    decreases j
  {
    if i == j then ms[i] else Product(LeftFold(ms, dims, i, j - 1), ms[j])
  }

  lemma {:induction false} FoldSplits(ms: seq<Matrix>, dims: seq<nat>, i: nat, s: nat, j: nat)
    requires Chain(ms, dims) && i <= s < j < |ms|
    ensures Product(LeftFold(ms, dims, i, s), LeftFold(ms, dims, s + 1, j)) == LeftFold(ms, dims, i, j)
    decreases j
  {
    if s + 1 < j {
      FoldSplits(ms, dims, i, s, j - 1);
      ProductAssociative(LeftFold(ms, dims, i, s), LeftFold(ms, dims, s + 1, j - 1), ms[j]);
    }
  }

  /** m_i (m_i+1 (... m_j)) */
  function RightFold(ms: seq<Matrix>, dims: seq<nat>, i: nat, j: nat): (p: Matrix)
    requires Chain(ms, dims) && i <= j < |ms|
    ensures WellFormed(p) && p.rows == dims[i] && p.cols == dims[j + 1]
    decreases j - i
  {
    if i == j then ms[i] else Product(ms[i], RightFold(ms, dims, i + 1, j))
  }

  /** Multiplying from either end gives the same product. */
  lemma {:induction false} FoldFromRight(ms: seq<Matrix>, dims: seq<nat>, i: nat, j: nat)
    requires Chain(ms, dims) && i <= j < |ms|
    ensures RightFold(ms, dims, i, j) == LeftFold(ms, dims, i, j)
    decreases j - i
  {
    if i < j {
      FoldFromRight(ms, dims, i + 1, j);
      FoldSplits(ms, dims, i, i, j);
    }
  }

  /** Every parenthesisation of a chain has the meaning of the left-to-right product. */
  lemma {:induction false} TreeMeansFold(ms: seq<Matrix>, dims: seq<nat>, t: Tree, i: nat, j: nat)
    requires Chain(ms, dims) && Spans(t, i, j) && j < |ms|
    ensures i <= j && EvalTree(ms, dims, t, i, j) == LeftFold(ms, dims, i, j)
    decreases t
  {
    if t.Node? {
      TreeMeansFold(ms, dims, t.left, i, t.split);
      TreeMeansFold(ms, dims, t.right, t.split + 1, j);
      FoldSplits(ms, dims, i, t.split, j);
    }
  }

  // ---- execution ----

  /** The triple loop over the elements of one product. */
  method MultiplyPair(modulus: nat, left: Matrix, right: Matrix) returns (product: Matrix, muls: nat)
    requires Composable(left, right) && left.cols >= 1
    ensures product == ProductMod(modulus, left, right)
    ensures modulus == 0 || (Reduce(modulus, left) == left && Reduce(modulus, right) == right) ==>
      Stands(modulus, product, Product(left, right))
    ensures muls == left.rows * left.cols * right.cols
  {
    hide ProductMod, DotMod;
    var value := new int[left.rows, right.cols];
    muls := 0;
    for i := 0 to left.rows
      invariant forall a, b :: 0 <= a < i && 0 <= b < right.cols ==>
        value[a, b] == DotMod(modulus, left, right, a, b, left.cols)
      invariant muls == i * (right.cols * left.cols)
    {
      ghost var before := muls;
      for j := 0 to right.cols
        invariant forall a, b :: 0 <= a < left.rows && 0 <= b < right.cols && (a < i || (a == i && b < j)) ==>
          value[a, b] == DotMod(modulus, left, right, a, b, left.cols)
        invariant muls == before + j * left.cols
      {
        var own := Accumulate(modulus, left, right, value, i, j);
        muls := muls + own;
        assert j * left.cols + left.cols == (j + 1) * left.cols;
      }
      assert i * (right.cols * left.cols) + right.cols * left.cols == (i + 1) * (right.cols * left.cols);
    }
    assert left.rows * (right.cols * left.cols) == left.rows * left.cols * right.cols;
    product := Matrix(left.rows, right.cols,
                      seq(left.rows, i requires 0 <= i < left.rows reads value =>
                        seq(right.cols, j requires 0 <= j < right.cols reads value => value[i, j])));
    CellsMakeProduct(modulus, left, right, product);
    MachineProduct(modulus, left, right);
  }

  /** For elements in range, the machine product stands for the exact one. */
  lemma MachineProduct(modulus: nat, left: Matrix, right: Matrix)
    requires Composable(left, right) && left.cols >= 1
    ensures modulus == 0 || (Reduce(modulus, left) == left && Reduce(modulus, right) == right) ==>
      Stands(modulus, ProductMod(modulus, left, right), Product(left, right))
  {
    if modulus == 0 {
      ReduceStands(0, left);
      ReduceStands(0, right);
    }
    if Reduce(modulus, left) == left && Reduce(modulus, right) == right {
      ProductModExact(modulus, left, right);
      ReduceStands(modulus, Product(left, right));
    }
  }

  /** The innermost loop: one element of the product. */
  method Accumulate(modulus: nat, left: Matrix, right: Matrix, value: array2<int>, i: nat, j: nat) returns (muls: nat)
    requires Composable(left, right) && left.cols >= 1 && i < left.rows && j < right.cols
    requires value.Length0 == left.rows && value.Length1 == right.cols
    modifies value
    ensures value[i, j] == DotMod(modulus, left, right, i, j, left.cols) && muls == left.cols
    ensures forall a, b :: 0 <= a < left.rows && 0 <= b < right.cols && (a != i || b != j) ==>
      value[a, b] == old(value[a, b])
  {
    hide Norm;
    value[i, j] := Norm(modulus, left.cells[i][0] * right.cells[0][j]);
    muls := 1;
    for k := 1 to left.cols
      invariant value[i, j] == DotMod(modulus, left, right, i, j, k) && muls == k
      invariant forall a, b :: 0 <= a < left.rows && 0 <= b < right.cols && (a != i || b != j) ==>
        value[a, b] == old(value[a, b])
    {
      value[i, j] := Norm(modulus, value[i, j] + Norm(modulus, left.cells[i][k] * right.cells[k][j]));
      muls := muls + 1;
    }
  }

  lemma CellsMakeProduct(modulus: nat, left: Matrix, right: Matrix, p: Matrix)
    requires Composable(left, right) && left.cols >= 1
    requires WellFormed(p) && p.rows == left.rows && p.cols == right.cols
    requires forall i, j :: 0 <= i < p.rows && 0 <= j < p.cols ==>
      p.cells[i][j] == DotMod(modulus, left, right, i, j, left.cols)
    ensures p == ProductMod(modulus, left, right)
  {
    assert forall i :: 0 <= i < p.rows ==> p.cells[i] == ProductMod(modulus, left, right).cells[i];
  }

  predicate Reduced(modulus: nat, ms: seq<Matrix>) {
    forall i :: 0 <= i < |ms| ==> WellFormed(ms[i]) && Reduce(modulus, ms[i]) == ms[i]
  }

  lemma LeafMeaning(modulus: nat, ms: seq<Matrix>, dims: seq<nat>, i: nat)
    requires Chain(ms, dims) && Reduced(modulus, ms) && i < |ms|
    ensures ms[i] == Reduce(modulus, LeftFold(ms, dims, i, i))
  {
  }

  /** Recursion along the split table. The result is the left-to-right product over the
      integers, reduced once; the work is the cost of the tree the table describes. */
  method MultiplyHelper(modulus: nat, table: Table, ms: seq<Matrix>, dims: seq<nat>, first: nat, last: nat)
    returns (result: Matrix, muls: nat)
    requires Chain(ms, dims) && Reduced(modulus, ms) && ValidTable(table, |ms|) && first <= last < |ms|
    requires forall k :: first < k <= last ==> dims[k] >= 1
    ensures result == Reduce(modulus, LeftFold(ms, dims, first, last))
    ensures muls == TreeCost(dims, PlanTree(table, |ms|, first, last), first, last)
    decreases last - first
  {
    hide Chain, Reduced, LeftFold, Product, ProductMod, Reduce, WellFormed;
    if first == last {
      LeafMeaning(modulus, ms, dims, first);
      return ms[first], 0;
    }
    var split := table[first][last];
    var left, leftMuls := MultiplyHelper(modulus, table, ms, dims, first, split);
    var right, rightMuls := MultiplyHelper(modulus, table, ms, dims, split + 1, last);
    var own;
    result, own := MultiplyPair(modulus, left, right);
    muls := leftMuls + rightMuls + own;
    ProductModExact(modulus, LeftFold(ms, dims, first, split), LeftFold(ms, dims, split + 1, last));
    FoldSplits(ms, dims, first, split, last);
  }

  /** Plans the chain, then runs the plan. The work is the cost of the plan, which the sizes
      decide; it is the planned number exactly when it fits size_t, and then it is least. */
  method MultiplyMatrices(top: nat, modulus: nat, ms: seq<Matrix>) returns (result: Matrix, muls: nat)
    requires |ms| > 1 && CheckConsistencies(ms) && Reduced(modulus, ms)
    requires forall i :: 1 <= i < |ms| ==> ms[i].rows >= 1
    ensures Chain(ms, GenerateMatrixSize(ms))
    ensures result == Reduce(modulus, LeftFold(ms, GenerateMatrixSize(ms), 0, |ms| - 1))
    ensures Stands(modulus, result, LeftFold(ms, GenerateMatrixSize(ms), 0, |ms| - 1))
    ensures modulus == 0 ==> result == LeftFold(ms, GenerateMatrixSize(ms), 0, |ms| - 1)
    ensures |ms| == 2 ==> Composable(ms[0], ms[1]) && Stands(modulus, result, Product(ms[0], ms[1]))
    ensures muls == PlanWork(GenerateMatrixSize(ms), top, 0, |ms| - 1)
    ensures var dims, last := GenerateMatrixSize(ms), |ms| - 1;
      var work := PlanWork(dims, top, 0, last);
      && (muls == Cost(dims, top, 0, last) <==> work <= top)
      && (work <= top ==> NoneCheaper(dims, muls, 0, last))
      && (SomeFits(dims, top, 0, last) ==> (NoneCheaper(dims, muls, 0, last) <==> work <= top))
      && (NoOverflow(dims, top) ==> work <= top)
  {
    var dims := GenerateMatrixSize(ms);
    ConsistentIffSized(ms);
    var table := SolutionType(dims, top);
    result, muls := MultiplyHelper(modulus, table, ms, dims, 0, |ms| - 1);
    ReduceStands(modulus, LeftFold(ms, dims, 0, |ms| - 1));
    TableDescribesPlan(dims, top, table, 0, |ms| - 1);
    PlanAttainsCost(dims, top, 0, |ms| - 1);
    PlanIsOptimal(dims, top, 0, |ms| - 1);
    if NoOverflow(dims, top) { NoOverflowFits(dims, top, 0, |ms| - 1); }
  }
}
