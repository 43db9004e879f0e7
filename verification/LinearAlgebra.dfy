/** Real vectors and matrices.  A matrix is the sequence of its columns. */
module LinearAlgebra {

  type Vec = seq<real>
  type Mat = seq<Vec>

  predicate IsMat(a: Mat, rows: nat, cols: nat) {
    |a| == cols && forall j :: 0 <= j < |a| ==> |a[j]| == rows
  }

  function Entry(v: Vec, i: nat): real {
    if i < |v| then v[i] else 0.0
  }

  /** Multiplication behind a name, so that proofs about vectors can hide its arithmetic. */
  function Times(a: real, b: real): real { a * b }

  function Zero(m: nat): Vec { seq(m, _ => 0.0) }

  function Add(u: Vec, v: Vec): (r: Vec)
    ensures |r| == |u|
    ensures forall i :: 0 <= i < |u| ==> r[i] == u[i] + Entry(v, i)
  {
    seq(|u|, i requires 0 <= i < |u| => u[i] + Entry(v, i))
  }

  function Scale(c: real, v: Vec): (r: Vec)
    ensures |r| == |v|
    ensures forall i :: 0 <= i < |v| ==> r[i] == Times(c, v[i])
  {
    seq(|v|, i requires 0 <= i < |v| => Times(c, v[i]))
  }

  function Sub(u: Vec, v: Vec): (r: Vec)
    ensures |r| == |u|
    ensures forall i :: 0 <= i < |u| ==> r[i] == u[i] - Entry(v, i)
  {
    seq(|u|, i requires 0 <= i < |u| => u[i] - Entry(v, i))
  }

  function Dot(u: Vec, v: Vec): real {
    if u == [] || v == [] then 0.0 else Times(u[0], v[0]) + Dot(u[1..], v[1..])
  }

  /** Row `i` of the matrix times the vector. */
  function RowDot(a: Mat, v: Vec, i: nat): real {
    if a == [] || v == [] then 0.0 else Times(Entry(a[0], i), v[0]) + RowDot(a[1..], v[1..], i)
  }

  /** The product of an `m`-row matrix and a vector. */
  function MatVec(m: nat, a: Mat, v: Vec): (r: Vec)
    ensures |r| == m
    ensures forall i :: 0 <= i < m ==> r[i] == RowDot(a, v, i)
  {
    seq(m, i requires 0 <= i => RowDot(a, v, i))
  }

  /** The product of an `m`-row matrix and a matrix, column by column. */
  function MatMul(m: nat, a: Mat, b: Mat): (r: Mat)
    ensures IsMat(r, m, |b|)
    ensures forall j :: 0 <= j < |b| ==> r[j] == MatVec(m, a, b[j])
  {
    seq(|b|, j requires 0 <= j < |b| => MatVec(m, a, b[j]))
  }

  function Unit(m: nat, j: nat): Vec {
    seq(m, i requires 0 <= i => if i == j then 1.0 else 0.0)
  }

  function Identity(m: nat): (r: Mat)
    ensures IsMat(r, m, m)
  {
    seq(m, j requires 0 <= j => Unit(m, j))
  }

  // ------------------------------------------------------------------ linearity of the product

  lemma {:induction false} RowDotAdd(a: Mat, u: Vec, v: Vec, i: nat)
    requires |u| == |v|
    ensures RowDot(a, Add(u, v), i) == RowDot(a, u, i) + RowDot(a, v, i)
  {
    if a != [] && u != [] {
      assert Add(u, v)[1..] == Add(u[1..], v[1..]);
      RowDotAdd(a[1..], u[1..], v[1..], i);
    }
  }

  lemma ScaleTail(c: real, v: Vec)
    requires v != []
    ensures Scale(c, v)[1..] == Scale(c, v[1..])
  {
    var tail := v[1..];
    forall i | 0 <= i < |tail| ensures Scale(c, v)[1..][i] == Scale(c, tail)[i] {
      assert tail[i] == v[i + 1];
    }
  }

  lemma {:induction false} RowDotScale(a: Mat, c: real, v: Vec, i: nat)
    ensures RowDot(a, Scale(c, v), i) == c * RowDot(a, v, i)
  {
    if a != [] && v != [] {
      ScaleTail(c, v);
      RowDotScale(a[1..], c, v[1..], i);
    }
  }

  lemma MatVecAdd(m: nat, a: Mat, u: Vec, v: Vec)
    requires |u| == |v|
    ensures MatVec(m, a, Add(u, v)) == Add(MatVec(m, a, u), MatVec(m, a, v))
  {
    forall i | 0 <= i < m ensures MatVec(m, a, Add(u, v))[i] == Add(MatVec(m, a, u), MatVec(m, a, v))[i] {
      RowDotAdd(a, u, v, i);
    }
  }

  lemma MatVecScale(m: nat, a: Mat, c: real, v: Vec)
    ensures MatVec(m, a, Scale(c, v)) == Scale(c, MatVec(m, a, v))
  {
    forall i | 0 <= i < m ensures MatVec(m, a, Scale(c, v))[i] == Scale(c, MatVec(m, a, v))[i] {
      RowDotScale(a, c, v, i);
    }
  }

  lemma {:induction false} RowDotZero(a: Mat, k: nat, i: nat)
    ensures RowDot(a, Zero(k), i) == 0.0
  {
    if a != [] && k > 0 {
      assert Zero(k)[1..] == Zero(k - 1);
      RowDotZero(a[1..], k - 1, i);
    }
  }

  lemma MatVecZero(m: nat, a: Mat, k: nat)
    ensures MatVec(m, a, Zero(k)) == Zero(m)
  {
    forall i | 0 <= i < m ensures MatVec(m, a, Zero(k))[i] == 0.0 {
      RowDotZero(a, k, i);
    }
  }

  // ------------------------------------------------------------------ products of matrices acting on vectors

  /** Splitting off the first column: M v = v[0] M[0] + M[1..] v[1..]. */
  lemma MatVecSplit(m: nat, a: Mat, v: Vec)
    requires a != [] && v != [] && |a[0]| == m
    ensures MatVec(m, a, v) == Add(Scale(v[0], a[0]), MatVec(m, a[1..], v[1..]))
  {
    var r := Add(Scale(v[0], a[0]), MatVec(m, a[1..], v[1..]));
    forall i | 0 <= i < m ensures MatVec(m, a, v)[i] == r[i] {
      assert RowDot(a, v, i) == Times(a[0][i], v[0]) + RowDot(a[1..], v[1..], i);
      assert Scale(v[0], a[0])[i] == Times(v[0], a[0][i]);
    }
  }

  /** (A M) v = A (M v) for an M of `rows` rows. */
  lemma {:induction false} ProductApply(m: nat, rows: nat, a: Mat, b: Mat, v: Vec)
    requires IsMat(b, rows, |v|)
    ensures MatVec(m, MatMul(m, a, b), v) == MatVec(m, a, MatVec(rows, b, v))
  {
    if v == [] {
      assert MatVec(rows, b, v) == Zero(rows);
      MatVecZero(m, a, rows);
      assert MatVec(m, MatMul(m, a, b), v) == Zero(m);
    } else {
      var ab := MatMul(m, a, b);
      ProductApply(m, rows, a, b[1..], v[1..]);
      assert ab[1..] == MatMul(m, a, b[1..]);
      MatVecSplit(m, ab, v);
      MatVecSplit(rows, b, v);
      MatVecAdd(m, a, Scale(v[0], b[0]), MatVec(rows, b[1..], v[1..]));
      MatVecScale(m, a, v[0], b[0]);
    }
  }

  lemma MatMulApply(m: nat, a: Mat, b: Mat, v: Vec)
    requires IsMat(b, m, |v|)
    ensures MatVec(m, MatMul(m, a, b), v) == MatVec(m, a, MatVec(m, b, v))
  {
    ProductApply(m, m, a, b, v);
  }

  /** Row `i` of columns that are zero in that row. */
  lemma {:induction false} RowDotNone(a: Mat, v: Vec, i: nat)
    requires forall j :: 0 <= j < |a| ==> Entry(a[j], i) == 0.0
    ensures RowDot(a, v, i) == 0.0
  {
    if a != [] && v != [] {
      RowDotNone(a[1..], v[1..], i);
    }
  }

  /** Row `i` of columns that are zero in that row except for column `k`. */
  lemma {:induction false} RowDotSingle(a: Mat, v: Vec, i: nat, k: nat, e: real)
    requires k < |a| == |v|
    requires forall j :: 0 <= j < |a| ==> Entry(a[j], i) == if j == k then e else 0.0
    ensures RowDot(a, v, i) == e * v[k]
  {
    if k == 0 {
      RowDotNone(a[1..], v[1..], i);
    } else {
      RowDotSingle(a[1..], v[1..], i, k - 1, e);
    }
  }

  lemma IdentityApply(m: nat, v: Vec)
    requires |v| == m
    ensures MatVec(m, Identity(m), v) == v
  {
    forall i | 0 <= i < m ensures MatVec(m, Identity(m), v)[i] == v[i] {
      RowDotSingle(Identity(m), v, i, i, 1.0);
    }
  }

  // ------------------------------------------------------------------ inner products

  lemma {:induction false} DotAdd(w: Vec, u: Vec, v: Vec)
    requires |u| == |v| == |w|
    ensures Dot(w, Add(u, v)) == Dot(w, u) + Dot(w, v)
  {
    if w != [] {
      assert Add(u, v)[1..] == Add(u[1..], v[1..]);
      DotAdd(w[1..], u[1..], v[1..]);
    }
  }

  lemma {:induction false} DotScale(w: Vec, c: real, v: Vec)
    requires |w| == |v|
    ensures Dot(w, Scale(c, v)) == Times(c, Dot(w, v))
  {
    if w != [] {
      ScaleTail(c, v);
      DotScale(w[1..], c, v[1..]);
    }
  }

  lemma {:induction false} DotSymmetric(u: Vec, v: Vec)
    requires |u| == |v|
    ensures Dot(u, v) == Dot(v, u)
  {
    if u != [] {
      DotSymmetric(u[1..], v[1..]);
    }
  }

  lemma {:induction false} DotZero(w: Vec)
    ensures Dot(w, Zero(|w|)) == 0.0
  {
    if w != [] {
      assert Zero(|w|)[1..] == Zero(|w[1..]|);
      DotZero(w[1..]);
    }
  }
}
