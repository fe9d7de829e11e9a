/** Matrices as values, their product, and reduction of every element modulo 2^w.
    A modulus of 0 stands for unbounded integers, so one executor covers both. */
module MatrixAlgebra {

  datatype Matrix = Matrix(rows: nat, cols: nat, cells: seq<seq<int>>)

  predicate WellFormed(m: Matrix) {
    |m.cells| == m.rows && forall i :: 0 <= i < m.rows ==> |m.cells[i]| == m.cols
  }

  predicate Composable(a: Matrix, b: Matrix) {
    WellFormed(a) && WellFormed(b) && a.cols == b.rows
  }

  /** The sum of the first n terms of row i of a times column j of b. */
  function Dot(a: Matrix, b: Matrix, i: nat, j: nat, n: nat): int
    requires Composable(a, b) && i < a.rows && j < b.cols && n <= a.cols
  {
    if n == 0 then 0 else Dot(a, b, i, j, n - 1) + a.cells[i][n - 1] * b.cells[n - 1][j]
  }

  function Sum(xs: seq<int>): int {
    if xs == [] then 0 else xs[0] + Sum(xs[1..])
  }

  /** The products that make up element i, j: entry k of row i times entry k of column j. */
  function Terms(a: Matrix, b: Matrix, i: nat, j: nat): (ts: seq<int>)
    requires Composable(a, b) && i < a.rows && j < b.cols
  {
    seq(a.cols, k requires 0 <= k < a.cols => a.cells[i][k] * b.cells[k][j])
  }

  lemma {:induction false} SumAppend(xs: seq<int>, x: int)
    ensures Sum(xs + [x]) == Sum(xs) + x
  {
    if xs != [] {
      assert (xs + [x])[1..] == xs[1..] + [x];
      SumAppend(xs[1..], x);
    }
  }

  lemma {:induction false} DotIsSum(a: Matrix, b: Matrix, i: nat, j: nat, n: nat)
    requires Composable(a, b) && i < a.rows && j < b.cols && n <= a.cols
    ensures Dot(a, b, i, j, n) == Sum(Terms(a, b, i, j)[..n])
  {
    var ts := Terms(a, b, i, j);
    if n > 0 {
      DotIsSum(a, b, i, j, n - 1);
      assert ts[..n] == ts[..n - 1] + [ts[n - 1]];
      SumAppend(ts[..n - 1], ts[n - 1]);
    } else {
      assert ts[..0] == [];
    }
  }

  /** Element i, j of a product is the sum of all its terms. */
  lemma ProductIsSum(a: Matrix, b: Matrix, i: nat, j: nat)
    requires Composable(a, b) && i < a.rows && j < b.cols
    ensures WellFormed(Product(a, b)) && Product(a, b).rows == a.rows && Product(a, b).cols == b.cols
    ensures Product(a, b).cells[i][j] == Sum(Terms(a, b, i, j))
  {
    DotIsSum(a, b, i, j, a.cols);
    assert Terms(a, b, i, j)[..a.cols] == Terms(a, b, i, j);
  }

  function Product(a: Matrix, b: Matrix): (p: Matrix)
    requires Composable(a, b)
    ensures WellFormed(p) && p.rows == a.rows && p.cols == b.cols
  {
    Matrix(a.rows, b.cols,
           seq(a.rows, i requires 0 <= i < a.rows =>
             seq(b.cols, j requires 0 <= j < b.cols => Dot(a, b, i, j, a.cols))))
  }

  // ---- associativity: the two orders of summation agree ----

  /** Sum over k < p of a[i][k] times the first q terms of (b c)[k][j]. */
  function RightNested(a: Matrix, b: Matrix, c: Matrix, i: nat, j: nat, p: nat, q: nat): int
    requires Composable(a, b) && Composable(b, c) && i < a.rows && j < c.cols && p <= a.cols && q <= b.cols
    decreases p
  {
    if p == 0 then 0 else RightNested(a, b, c, i, j, p - 1, q) + a.cells[i][p - 1] * Dot(b, c, p - 1, j, q)
  }

  lemma {:induction false} RightNestedGrows(a: Matrix, b: Matrix, c: Matrix, i: nat, j: nat, p: nat, q: nat)
    requires Composable(a, b) && Composable(b, c) && i < a.rows && j < c.cols && p <= a.cols && q < b.cols
    ensures RightNested(a, b, c, i, j, p, q + 1)
         == RightNested(a, b, c, i, j, p, q) + Dot(a, b, i, q, p) * c.cells[q][j]
  {
    if p > 0 {
      RightNestedGrows(a, b, c, i, j, p - 1, q);
      var x, y, z := a.cells[i][p - 1], b.cells[p - 1][q], c.cells[q][j];
      var d, e := Dot(b, c, p - 1, j, q), Dot(a, b, i, q, p - 1);
      assert x * (d + y * z) + e * z == x * d + (e + x * y) * z;
    }
  }

  lemma {:induction false} RightNestedEmpty(a: Matrix, b: Matrix, c: Matrix, i: nat, j: nat, p: nat)
    requires Composable(a, b) && Composable(b, c) && i < a.rows && j < c.cols && p <= a.cols
    ensures RightNested(a, b, c, i, j, p, 0) == 0
  {
    if p > 0 { RightNestedEmpty(a, b, c, i, j, p - 1); }
  }

  /** Row i of (a b) times column j of c, summed over the first q terms, in the other order. */
  lemma {:induction false} SumExchange(a: Matrix, b: Matrix, c: Matrix, i: nat, j: nat, q: nat)
    requires Composable(a, b) && Composable(b, c) && i < a.rows && j < c.cols && q <= b.cols
    ensures Dot(Product(a, b), c, i, j, q) == RightNested(a, b, c, i, j, a.cols, q)
  {
    if q == 0 {
      RightNestedEmpty(a, b, c, i, j, a.cols);
    } else {
      SumExchange(a, b, c, i, j, q - 1);
      RightNestedGrows(a, b, c, i, j, a.cols, q - 1);
    }
  }

  lemma {:induction false} RightNestedIsDot(a: Matrix, b: Matrix, c: Matrix, i: nat, j: nat, p: nat)
    requires Composable(a, b) && Composable(b, c) && i < a.rows && j < c.cols && p <= a.cols
    ensures RightNested(a, b, c, i, j, p, b.cols) == Dot(a, Product(b, c), i, j, p)
  {
    if p > 0 { RightNestedIsDot(a, b, c, i, j, p - 1); }
  }

  lemma ProductAssociative(a: Matrix, b: Matrix, c: Matrix)
    requires Composable(a, b) && Composable(b, c)
    ensures Product(Product(a, b), c) == Product(a, Product(b, c))
  {
    var l, r := Product(Product(a, b), c), Product(a, Product(b, c));
    forall i | 0 <= i < a.rows ensures l.cells[i] == r.cells[i] {
      forall j | 0 <= j < c.cols ensures l.cells[i][j] == r.cells[i][j] {
        SumExchange(a, b, c, i, j, b.cols);
        RightNestedIsDot(a, b, c, i, j, a.cols);
      }
    }
  }

  // ---- reduction of elements ----

  function Norm(modulus: nat, x: int): int {
    if modulus == 0 then x else x % modulus
  }

  /** r is what x becomes in arithmetic with this modulus. */
  ghost predicate Represents(modulus: nat, r: int, x: int) {
    if modulus == 0 then r == x else 0 <= r < modulus && exists q: int :: x == q * modulus + r
  }

  lemma NormRepresents(modulus: nat, x: int)
    ensures Represents(modulus, Norm(modulus, x), x)
  {
    if modulus > 0 { assert x == (x / modulus) * modulus + Norm(modulus, x); }
  }

  lemma DivisionUnique(m: nat, x: int, q: int, r: int)
    requires m > 0 && x == q * m + r && 0 <= r < m
    ensures x % m == r
  {
    var d := x / m - q;
    assert d * m == r - x % m;
    assert d >= 1 ==> d * m >= m;
    assert d <= -1 ==> d * m + m <= 0;
  }

  lemma NormAdd(m: nat, x: int, y: int)
    ensures Norm(m, Norm(m, x) + Norm(m, y)) == Norm(m, x + y)
  {
    if m > 0 {
      var s := x % m + y % m;
      assert x + y == (x / m + y / m + s / m) * m + s % m by {
        assert (x / m + y / m + s / m) * m == x / m * m + y / m * m + s / m * m;
      }
      DivisionUnique(m, x + y, x / m + y / m + s / m, s % m);
    }
  }

  lemma NormMul(m: nat, x: int, y: int)
    ensures Norm(m, Norm(m, x) * Norm(m, y)) == Norm(m, x * y)
  {
    if m > 0 {
      var a, r, b, s := x / m, x % m, y / m, y % m;
      var q := a * b * m + a * s + r * b + (r * s) / m;
      assert x * y == (a * m + r) * (b * m + s);
      assert (a * m + r) * (b * m + s) == a * b * m * m + a * s * m + r * b * m + r * s;
      assert q * m == a * b * m * m + a * s * m + r * b * m + (r * s) / m * m;
      DivisionUnique(m, x * y, q, (r * s) % m);
    }
  }

  function Reduce(modulus: nat, a: Matrix): (r: Matrix)
    requires WellFormed(a)
    ensures WellFormed(r) && r.rows == a.rows && r.cols == a.cols
  {
    Matrix(a.rows, a.cols,
           seq(a.rows, i requires 0 <= i < a.rows =>
             seq(a.cols, j requires 0 <= j < a.cols => Norm(modulus, a.cells[i][j]))))
  }

  /** Every element of m stands for the element of a in the same place. */
  ghost predicate Stands(modulus: nat, m: Matrix, a: Matrix) {
    && WellFormed(m) && WellFormed(a) && m.rows == a.rows && m.cols == a.cols
    && forall i, j :: 0 <= i < m.rows && 0 <= j < m.cols ==> Represents(modulus, m.cells[i][j], a.cells[i][j])
  }

  /** The reduced matrix does so, and for unbounded integers it is the matrix itself. */
  lemma ReduceStands(modulus: nat, a: Matrix)
    requires WellFormed(a)
    ensures Stands(modulus, Reduce(modulus, a), a)
    ensures modulus == 0 ==> Reduce(modulus, a) == a
  {
    forall i, j | 0 <= i < a.rows && 0 <= j < a.cols
      ensures Represents(modulus, Reduce(modulus, a).cells[i][j], a.cells[i][j])
    {
      NormRepresents(modulus, a.cells[i][j]);
    }
    if modulus == 0 {
      forall i | 0 <= i < a.rows ensures Reduce(modulus, a).cells[i] == a.cells[i] {
        forall j | 0 <= j < a.cols ensures Reduce(modulus, a).cells[i][j] == a.cells[i][j] {
          NormRepresents(modulus, a.cells[i][j]);
        }
      }
    }
  }

  /** The accumulation the multiplication loop performs, each step reduced. */
  function DotMod(modulus: nat, a: Matrix, b: Matrix, i: nat, j: nat, n: nat): int
    requires Composable(a, b) && i < a.rows && j < b.cols && 1 <= n <= a.cols
  {
    var term := Norm(modulus, a.cells[i][n - 1] * b.cells[n - 1][j]);
    if n == 1 then term else Norm(modulus, DotMod(modulus, a, b, i, j, n - 1) + term)
  }

  /** Reducing at every step gives the exact sum of products, reduced once. */
  lemma {:induction false} DotModExact(m: nat, a: Matrix, b: Matrix, i: nat, j: nat, n: nat)
    requires Composable(a, b) && i < a.rows && j < b.cols && 1 <= n <= a.cols
    ensures DotMod(m, Reduce(m, a), Reduce(m, b), i, j, n) == Norm(m, Dot(a, b, i, j, n))
  {
    var x, y := a.cells[i][n - 1], b.cells[n - 1][j];
    NormMul(m, x, y);
    if n > 1 {
      DotModExact(m, a, b, i, j, n - 1);
      NormAdd(m, Dot(a, b, i, j, n - 1), x * y);
    } else {
      assert Dot(a, b, i, j, n) == Dot(a, b, i, j, 0) + x * y;
    }
  }

  /** The product as the machine computes it. */
  function ProductMod(modulus: nat, a: Matrix, b: Matrix): (p: Matrix)
    requires Composable(a, b) && a.cols >= 1
    ensures WellFormed(p) && p.rows == a.rows && p.cols == b.cols
  {
    Matrix(a.rows, b.cols,
           seq(a.rows, i requires 0 <= i < a.rows =>
             seq(b.cols, j requires 0 <= j < b.cols => DotMod(modulus, a, b, i, j, a.cols))))
  }

  /** Reduction is a homomorphism: products of reduced matrices are reduced products. */
  lemma ProductModExact(m: nat, a: Matrix, b: Matrix)
    requires Composable(a, b) && a.cols >= 1
    ensures ProductMod(m, Reduce(m, a), Reduce(m, b)) == Reduce(m, Product(a, b))
  {
    var p, r := ProductMod(m, Reduce(m, a), Reduce(m, b)), Reduce(m, Product(a, b));
    forall i | 0 <= i < a.rows ensures p.cells[i] == r.cells[i] {
      forall j | 0 <= j < b.cols ensures p.cells[i][j] == r.cells[i][j] {
        DotModExact(m, a, b, i, j, a.cols);
      }
    }
  }
}
