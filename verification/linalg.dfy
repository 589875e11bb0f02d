/** Dense real linear algebra over `seq<seq<real>>`: the handful of numpy
    operations the hot start and the metastable-well formula use (`np.dot`,
    `np.eye`, element-wise `-` and `*`), with the algebraic facts the rest of
    the model relies on. Floating point is replaced by exact reals. */
module Linalg {

  import opened Wrappers

  type Vector = seq<real>
  type Matrix = seq<seq<real>>

  /** `m` has `rows` rows of `cols` entries each. */
  predicate IsMatrix(m: Matrix, rows: nat, cols: nat)
  {
    |m| == rows && forall i :: 0 <= i < |m| ==> |m[i]| == cols
  }

  /** Every row of `m` has `cols` entries (any number of rows). */
  predicate RowsOfWidth(m: Matrix, cols: nat)
  {
    forall i :: 0 <= i < |m| ==> |m[i]| == cols
  }

  function Sum(s: seq<real>): real
  {
    if |s| == 0 then 0.0 else Sum(s[..|s| - 1]) + s[|s| - 1]
  }

  function Dot(u: Vector, v: Vector): real
    requires |u| == |v|
  {
    Sum(seq(|u|, k requires 0 <= k < |u| => u[k] * v[k]))
  }

  /** `np.dot(m, v)` for a matrix and a vector. */
  function MatVec(m: Matrix, v: Vector): (r: Vector)
    requires RowsOfWidth(m, |v|)
    ensures |r| == |m|
  {
    seq(|m|, i requires 0 <= i < |m| => Dot(m[i], v))
  }

  /** Column `j` of a matrix whose rows all have more than `j` entries. */
  function ColumnOf(m: Matrix, j: nat): (c: Vector)
    requires forall i :: 0 <= i < |m| ==> j < |m[i]|
    ensures |c| == |m|
  {
    seq(|m|, i requires 0 <= i < |m| => m[i][j])
  }

  /** `np.dot(a, b)` for matrices: `a` is r-by-n, `b` is n-by-`cols`. */
  function MatMul(a: Matrix, b: Matrix, cols: nat): (p: Matrix)
    requires RowsOfWidth(a, |b|)
    requires RowsOfWidth(b, cols)
    ensures IsMatrix(p, |a|, cols)
  {
    seq(|a|, i requires 0 <= i < |a| =>
      seq(cols, j requires 0 <= j < cols => Dot(a[i], ColumnOf(b, j))))
  }

  /** `np.eye(n)`. */
  function Identity(n: nat): (m: Matrix)
    ensures IsMatrix(m, n, n)
  {
    seq(n, i requires 0 <= i < n => seq(n, j requires 0 <= j < n => if i == j then 1.0 else 0.0))
  }

  /** Element-wise `a - b` of two matrices of the same shape. */
  function MatSub(a: Matrix, b: Matrix): (m: Matrix)
    requires |a| == |b|
    requires forall i :: 0 <= i < |a| ==> |a[i]| == |b[i]|
    ensures |m| == |a|
    ensures forall i :: 0 <= i < |a| ==> |m[i]| == |a[i]|
  {
    seq(|a|, i requires 0 <= i < |a| =>
      seq(|a[i]|, j requires 0 <= j < |a[i]| => a[i][j] - b[i][j]))
  }

  /** Scalar times matrix, `c * m`. */
  function MatScale(c: real, m: Matrix): (r: Matrix)
    ensures |r| == |m|
    ensures forall i :: 0 <= i < |m| ==> |r[i]| == |m[i]|
  {
    seq(|m|, i requires 0 <= i < |m| =>
      seq(|m[i]|, j requires 0 <= j < |m[i]| => c * m[i][j]))
  }

  /** Element-wise sum of two vectors of the same length. */
  function VecAdd(u: Vector, v: Vector): (w: Vector)
    requires |u| == |v|
    ensures |w| == |u|
    ensures forall i :: 0 <= i < |u| ==> w[i] == u[i] + v[i]
  {
    seq(|u|, i requires 0 <= i < |u| => u[i] + v[i])
  }

  /** What numpy stores when `v` is assigned to a slot of length `n`
      (`x[t] = v`, `x[:, i] = v`): `v` itself when the lengths agree, `v[0]`
      repeated when `v` has one entry (broadcasting), and a `ValueError`
      (here `None`) otherwise. */
  function Broadcast(v: Vector, n: nat): (r: Option<Vector>)
    ensures r.Some? <==> |v| == n || |v| == 1
    ensures r.Some? ==> |r.value| == n
    ensures r.Some? && |v| == n ==> r.value == v
    ensures r.Some? ==> forall i :: 0 <= i < n ==> r.value[i] == (if |v| == n then v[i] else v[0])
  {
    if |v| == n then Some(v)
    else if |v| == 1 then Some(seq(n, _ => v[0]))
    else None
  }

  function Zeros(n: nat): (v: Vector)
    ensures |v| == n
  {
    seq(n, _ => 0.0)
  }

  // ---------------------------------------------------------------------
  // Facts about sums
  // ---------------------------------------------------------------------

  lemma {:induction false} SumAdd(a: seq<real>, b: seq<real>, s: seq<real>)
    requires |a| == |b| == |s|
    requires forall k :: 0 <= k < |s| ==> s[k] == a[k] + b[k]
    ensures Sum(s) == Sum(a) + Sum(b)
  {
    if |s| > 0 {
      var n := |s| - 1;
      SumAdd(a[..n], b[..n], s[..n]);
    }
  }

  lemma {:induction false} SumScale(c: real, a: seq<real>, s: seq<real>)
    requires |a| == |s|
    requires forall k :: 0 <= k < |s| ==> s[k] == c * a[k]
    ensures Sum(s) == c * Sum(a)
  {
    if |s| > 0 {
      var n := |s| - 1;
      SumScale(c, a[..n], s[..n]);
    }
  }

  lemma {:induction false} SumConst(s: seq<real>, c: real)
    requires forall k :: 0 <= k < |s| ==> s[k] == c
    ensures Sum(s) == (|s| as real) * c
  {
    if |s| > 0 {
      SumConst(s[..|s| - 1], c);
    }
  }

  /** A sum with a single possibly-nonzero term at index `i` equals that term. */
  lemma {:induction false} SumSingle(s: seq<real>, i: nat)
    requires i < |s|
    requires forall k :: 0 <= k < |s| && k != i ==> s[k] == 0.0
    ensures Sum(s) == s[i]
  {
    var n := |s| - 1;
    if n == i {
      SumConst(s[..n], 0.0);
    } else {
      SumSingle(s[..n], i);
    }
  }

  /** Summing a rectangular table by rows or by columns gives the same total. */
  lemma {:induction false} SumExchange(t: Matrix, cols: nat)
    requires RowsOfWidth(t, cols)
    ensures Sum(seq(|t|, k requires 0 <= k < |t| => Sum(t[k])))
         == Sum(seq(cols, j requires 0 <= j < cols => Sum(ColumnOf(t, j))))
  {
    var byCol := seq(cols, j requires 0 <= j < cols => Sum(ColumnOf(t, j)));
    if |t| == 0 {
      SumConst(byCol, 0.0);
    } else {
      var n := |t| - 1;
      var front := t[..n];
      var last := t[n];
      SumExchange(front, cols);
      var byRow := seq(|t|, k requires 0 <= k < |t| => Sum(t[k]));
      assert byRow[..n] == seq(|front|, k requires 0 <= k < |front| => Sum(front[k]));
      var frontCols := seq(cols, j requires 0 <= j < cols => Sum(ColumnOf(front, j)));
      forall j | 0 <= j < cols
        ensures byCol[j] == frontCols[j] + last[j]
      {
        assert ColumnOf(t, j)[..n] == ColumnOf(front, j);
      }
      SumAdd(frontCols, last, byCol);
    }
  }

  // ---------------------------------------------------------------------
  // Facts about products
  // ---------------------------------------------------------------------

  /** The table whose (k, j) entry is `w[k] * (m[k][j] * x[j])`. */
  function Products(w: Vector, m: Matrix, x: Vector): (t: Matrix)
    requires |w| == |m|
    requires RowsOfWidth(m, |x|)
    ensures IsMatrix(t, |m|, |x|)
  {
    seq(|m|, k requires 0 <= k < |m| =>
      seq(|x|, j requires 0 <= j < |x| => w[k] * (m[k][j] * x[j])))
  }

  lemma ProductsByRow(w: Vector, m: Matrix, x: Vector)
    requires |w| == |m|
    requires RowsOfWidth(m, |x|)
    ensures Dot(w, MatVec(m, x))
         == Sum(seq(|m|, k requires 0 <= k < |m| => Sum(Products(w, m, x)[k])))
  {
    var t := Products(w, m, x);
    var y := MatVec(m, x);
    var byRow := seq(|m|, k requires 0 <= k < |m| => Sum(t[k]));
    var prod := seq(|w|, k requires 0 <= k < |w| => w[k] * y[k]);
    forall k | 0 <= k < |m|
      ensures byRow[k] == prod[k]
    {
      SumScale(w[k], seq(|x|, j requires 0 <= j < |x| => m[k][j] * x[j]), t[k]);
    }
    assert byRow == prod;
  }

  /** Column `j` of the product table sums to `(w . m[:, j]) * x[j]`. */
  lemma ProductColumn(w: Vector, m: Matrix, x: Vector, j: nat)
    requires |w| == |m|
    requires RowsOfWidth(m, |x|)
    requires j < |x|
    ensures Sum(ColumnOf(Products(w, m, x), j)) == Dot(w, ColumnOf(m, j)) * x[j]
  {
    var c := ColumnOf(Products(w, m, x), j);
    var mj := ColumnOf(m, j);
    var col := seq(|w|, k requires 0 <= k < |w| => w[k] * mj[k]);
    forall k | 0 <= k < |m|
      ensures c[k] == x[j] * col[k]
    {
      assert c[k] == w[k] * (m[k][j] * x[j]);
    }
    SumScale(x[j], col, c);
  }

  lemma ProductsByColumn(w: Vector, m: Matrix, x: Vector)
    requires |w| == |m|
    requires RowsOfWidth(m, |x|)
    ensures Sum(seq(|x|, j requires 0 <= j < |x| => Sum(ColumnOf(Products(w, m, x), j))))
         == Dot(seq(|x|, j requires 0 <= j < |x| => Dot(w, ColumnOf(m, j))), x)
  {
    var t := Products(w, m, x);
    var byCol := seq(|x|, j requires 0 <= j < |x| => Sum(ColumnOf(t, j)));
    var row := seq(|x|, j requires 0 <= j < |x| => Dot(w, ColumnOf(m, j)));
    var prod := seq(|x|, j requires 0 <= j < |x| => row[j] * x[j]);
    forall j | 0 <= j < |x|
      ensures byCol[j] == prod[j]
    {
      ProductColumn(w, m, x, j);
    }
    assert byCol == prod;
  }

  /** `np.dot(N, np.dot(M, x)) == np.dot(np.dot(N, M), x)`. */
  lemma MatVecAssoc(n: Matrix, m: Matrix, x: Vector)
    requires RowsOfWidth(n, |m|)
    requires RowsOfWidth(m, |x|)
    ensures MatVec(n, MatVec(m, x)) == MatVec(MatMul(n, m, |x|), x)
  {
    var p := MatMul(n, m, |x|);
    forall i | 0 <= i < |n|
      ensures Dot(n[i], MatVec(m, x)) == Dot(p[i], x)
    {
      ProductsByRow(n[i], m, x);
      SumExchange(Products(n[i], m, x), |x|);
      ProductsByColumn(n[i], m, x);
      assert p[i] == seq(|x|, j requires 0 <= j < |x| => Dot(n[i], ColumnOf(m, j)));
    }
  }

  /** Multiplying by the identity leaves a vector unchanged. */
  lemma MatVecIdentity(x: Vector)
    ensures MatVec(Identity(|x|), x) == x
  {
    var id := Identity(|x|);
    forall i | 0 <= i < |x|
      ensures Dot(id[i], x) == x[i]
    {
      SumSingle(seq(|x|, k requires 0 <= k < |x| => id[i][k] * x[k]), i);
    }
  }

  /** A matrix with a nonzero vector in its kernel has no left inverse. */
  lemma NoLeftInverseWithKernel(m: Matrix, x: Vector, n: Matrix)
    requires RowsOfWidth(m, |x|)
    requires RowsOfWidth(n, |m|)
    requires MatVec(m, x) == Zeros(|m|)
    requires exists i :: 0 <= i < |x| && x[i] != 0.0
    ensures MatMul(n, m, |x|) != Identity(|x|)
  {
    if MatMul(n, m, |x|) == Identity(|x|) {
      MatVecAssoc(n, m, x);
      MatVecIdentity(x);
      var i :| 0 <= i < |x| && x[i] != 0.0;
      var row := seq(|n[i]|, k requires 0 <= k < |n[i]| => n[i][k] * Zeros(|m|)[k]);
      SumConst(row, 0.0);
      assert false;
    }
  }
}
