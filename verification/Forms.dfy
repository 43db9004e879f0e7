/** Bilinear forms x^T A y, orthonormal columns, coordinates, spans, and why square orthonormal matrices are complete. */
module Forms {
  import opened LinearAlgebra
  import opened Wrappers

  /** A x, where None stands for the identity. */
  function Image(m: nat, a: Option<Mat>, x: Vec): (r: Vec)
    ensures |x| == m ==> |r| == m
  {
    match a
    case None => x
    case Some(b) => MatVec(m, b, x)
  }

  /** x^T A y */
  function Form(m: nat, a: Option<Mat>, x: Vec, y: Vec): real {
    Dot(x, Image(m, a, y))
  }

  /** V^T A V = I. */
  ghost predicate Orthonormal(m: nat, a: Option<Mat>, v: Mat) {
    forall i, j :: 0 <= i < |v| && 0 <= j < |v| ==> Form(m, a, v[i], v[j]) == if i == j then 1.0 else 0.0
  }

  /** V^T A W = 0. */
  ghost predicate Orthogonal(m: nat, a: Option<Mat>, v: Mat, w: Mat) {
    forall i, j :: 0 <= i < |v| && 0 <= j < |w| ==> Form(m, a, v[i], w[j]) == 0.0
  }

  predicate Symmetric(s: Mat) {
    && IsMat(s, |s|, |s|)
    && forall i, j :: 0 <= i < |s| && 0 <= j < |s| ==> s[i][j] == s[j][i]
  }

  /** The operator is a symmetric m x m matrix, or the identity. */
  predicate SymmetricOp(m: nat, a: Option<Mat>) {
    a.Some? ==> |a.value| == m && Symmetric(a.value)
  }

  ghost predicate Definite(m: nat, a: Option<Mat>) {
    forall x: Vec {:trigger Form(m, a, x, x)} ::
      |x| == m ==> Form(m, a, x, x) >= 0.0 && (Form(m, a, x, x) == 0.0 ==> x == Zero(m))
  }

  /** The v_i^T y. */
  function Coords(v: Mat, y: Vec): (r: Vec)
    ensures |r| == |v|
    ensures forall i :: 0 <= i < |v| ==> r[i] == Dot(v[i], y)
  {
    seq(|v|, i requires 0 <= i < |v| => Dot(v[i], y))
  }

  ghost predicate InSpan(m: nat, v: Mat, y: Vec) {
    exists c: Vec {:trigger MatVec(m, v, c)} :: |c| == |v| && y == MatVec(m, v, c)
  }

  // ------------------------------------------------------------------ inner products of combinations

  lemma DotCons(d: Vec, c: Vec)
    requires d != [] && c != []
    ensures Dot(d, c) == Times(c[0], d[0]) + Dot(d[1..], c[1..])
  {
  }

  lemma CoordsSplit(v: Mat, y: Vec)
    requires v != []
    ensures Coords(v, y)[0] == Dot(v[0], y) && Coords(v, y)[1..] == Coords(v[1..], y)
  {
  }

  /** y^T (V c) is the combination of the v_j^T y. */
  lemma {:induction false} DotCombination(m: nat, y: Vec, v: Mat, c: Vec)
    requires |y| == m && IsMat(v, m, |c|)
    ensures Dot(y, MatVec(m, v, c)) == Dot(Coords(v, y), c)
  {
    hide Dot, MatVec, Times, Coords;
    if c == [] {
      EmptyCombination(m, y, v, c);
    } else {
      var rest, tail := v[1..], c[1..];
      MatVecSplit(m, v, c);
      DotAdd(y, Scale(c[0], v[0]), MatVec(m, rest, tail));
      DotScale(y, c[0], v[0]);
      DotSymmetric(y, v[0]);
      DotCombination(m, y, rest, tail);
      CoordsSplit(v, y);
      DotCons(Coords(v, y), c);
    }
  }

  lemma EmptyCombination(m: nat, y: Vec, v: Mat, c: Vec)
    requires |y| == m && v == [] && c == []
    ensures Dot(y, MatVec(m, v, c)) == Dot(Coords(v, y), c)
  {
    assert MatVec(m, v, c) == Zero(m);
    DotZero(y);
  }

  /** (V c)^T y = c^T (V^T y) */
  lemma CombinationDot(m: nat, v: Mat, c: Vec, y: Vec)
    requires |y| == m && IsMat(v, m, |c|)
    ensures Dot(MatVec(m, v, c), y) == Dot(c, Coords(v, y))
  {
    hide Dot, MatVec;
    DotCombination(m, y, v, c);
    DotSymmetric(y, MatVec(m, v, c));
    DotSymmetric(Coords(v, y), c);
  }

  /** Row i of the identity picks entry i. */
  lemma {:induction false} DotUnit(n: nat, i: nat, c: Vec)
    requires i < n == |c|
    ensures Dot(Unit(n, i), c) == c[i]
  {
    var u := Unit(n, i);
    if i == 0 {
      assert u[1..] == Zero(n - 1);
      DotSymmetric(Zero(n - 1), c[1..]);
      DotZero(c[1..]);
    } else {
      assert u[1..] == Unit(n - 1, i - 1);
      DotUnit(n - 1, i - 1, c[1..]);
    }
  }

  lemma DotSub(w: Vec, u: Vec, v: Vec)
    requires |u| == |v| == |w|
    ensures Dot(w, Sub(u, v)) == Dot(w, u) - Dot(w, v)
  {
    hide Dot;
    assert Add(Sub(u, v), v) == u;
    DotAdd(w, Sub(u, v), v);
  }

  lemma {:induction false} DotSquare(v: Vec)
    ensures Dot(v, v) >= 0.0
    ensures Dot(v, v) == 0.0 ==> v == Zero(|v|)
  {
    if v != [] {
      DotSquare(v[1..]);
      SquareZero(v[0]);
      assert v == [v[0]] + v[1..];
    }
  }

  lemma PositiveProduct(x: real, y: real)
    requires x > 0.0 && y > 0.0
    ensures x * y > 0.0
  {
  }

  lemma SquareZero(x: real)
    ensures Times(x, x) >= 0.0 && (Times(x, x) == 0.0 ==> x == 0.0)
  {
    var y := -x;
    assert x * x + x * y == x * (x + y) == 0.0;
    assert x * y + y * y == (x + y) * y == 0.0;
    if x > 0.0 {
      PositiveProduct(x, x);
    } else if y > 0.0 {
      PositiveProduct(y, y);
    } else {
      assert x * x == 0.0;
    }
    assert Times(x, x) == x * x;
  }

  /** The identity is definite. */
  lemma IdentityDefinite(m: nat)
    ensures Definite(m, None)
  {
    forall x: Vec | |x| == m ensures Form(m, None, x, x) >= 0.0 && (Form(m, None, x, x) == 0.0 ==> x == Zero(m)) {
      DotSquare(x);
    }
  }

  // ------------------------------------------------------------------ forms of combinations

  /** A (V c) = (A V) c, for the columns A v_j. */
  function Images(m: nat, a: Option<Mat>, v: Mat): (r: Mat)
    ensures |r| == |v|
    ensures IsMat(v, m, |v|) ==> IsMat(r, m, |v|)
  {
    seq(|v|, j requires 0 <= j < |v| => Image(m, a, v[j]))
  }

  lemma ImageCombination(m: nat, a: Option<Mat>, v: Mat, c: Vec)
    requires IsMat(v, m, |c|)
    ensures Image(m, a, MatVec(m, v, c)) == MatVec(m, Images(m, a, v), c)
  {
    hide MatVec;
    if a.Some? {
      MatMulApply(m, a.value, v, c);
      assert Images(m, a, v) == MatMul(m, a.value, v);
    } else {
      assert Images(m, a, v) == v;
    }
  }

  /** The row of forms x^T A v_j. */
  function FormRow(m: nat, a: Option<Mat>, x: Vec, v: Mat): (r: Vec)
    ensures |r| == |v|
    ensures forall j :: 0 <= j < |v| ==> r[j] == Form(m, a, x, v[j])
  {
    seq(|v|, j requires 0 <= j < |v| => Form(m, a, x, v[j]))
  }

  /** x^T A (V c) */
  lemma FormRight(m: nat, a: Option<Mat>, x: Vec, v: Mat, c: Vec)
    requires |x| == m && IsMat(v, m, |c|)
    ensures Form(m, a, x, MatVec(m, v, c)) == Dot(FormRow(m, a, x, v), c)
  {
    hide Dot, MatVec, Image;
    var av := Images(m, a, v);
    ImageCombination(m, a, v, c);
    DotCombination(m, x, av, c);
    forall j | 0 <= j < |v| ensures Coords(av, x)[j] == FormRow(m, a, x, v)[j] {
      DotSymmetric(av[j], x);
    }
    assert Coords(av, x) == FormRow(m, a, x, v);
  }

  /** The column of forms v_i^T A y. */
  function FormColumn(m: nat, a: Option<Mat>, v: Mat, y: Vec): (r: Vec)
    ensures |r| == |v|
    ensures forall i :: 0 <= i < |v| ==> r[i] == Form(m, a, v[i], y)
  {
    seq(|v|, i requires 0 <= i < |v| => Form(m, a, v[i], y))
  }

  /** (V c)^T A y */
  lemma FormLeft(m: nat, a: Option<Mat>, v: Mat, c: Vec, y: Vec)
    requires |y| == m && IsMat(v, m, |c|)
    ensures Form(m, a, MatVec(m, v, c), y) == Dot(c, FormColumn(m, a, v, y))
  {
    hide Dot, MatVec, Image;
    CombinationDot(m, v, c, Image(m, a, y));
    assert Coords(v, Image(m, a, y)) == FormColumn(m, a, v, y);
  }

  /** Orthonormal columns: forms of combinations are inner products of their coefficients. */
  lemma FormOrthonormal(m: nat, a: Option<Mat>, v: Mat, c: Vec, d: Vec)
    requires IsMat(v, m, |v|) && Orthonormal(m, a, v) && |c| == |d| == |v|
    ensures Form(m, a, MatVec(m, v, c), MatVec(m, v, d)) == Dot(c, d)
  {
    hide Dot, MatVec, Form;
    FormLeft(m, a, v, c, MatVec(m, v, d));
    forall i | 0 <= i < |v| ensures FormColumn(m, a, v, MatVec(m, v, d))[i] == d[i] {
      FormPick(m, a, v, d, i);
    }
    assert FormColumn(m, a, v, MatVec(m, v, d)) == d;
  }

  /** v_i^T A (V d) = d_i for orthonormal columns. */
  lemma FormPick(m: nat, a: Option<Mat>, v: Mat, d: Vec, i: nat)
    requires IsMat(v, m, |v|) && Orthonormal(m, a, v) && |d| == |v| && i < |v|
    ensures Form(m, a, v[i], MatVec(m, v, d)) == d[i]
  {
    hide Dot, MatVec, Form;
    FormRight(m, a, v[i], v, d);
    assert FormRow(m, a, v[i], v) == Unit(|v|, i);
    DotUnit(|v|, i, d);
  }

  lemma FormZero(m: nat, a: Option<Mat>, v: Mat, x: Vec, c: Vec)
    requires |x| == m && IsMat(v, m, |c|)
    requires forall j :: 0 <= j < |v| ==> Form(m, a, x, v[j]) == 0.0
    ensures Form(m, a, x, MatVec(m, v, c)) == 0.0
  {
    hide Dot, MatVec, Form;
    FormRight(m, a, x, v, c);
    assert FormRow(m, a, x, v) == Zero(|c|);
    DotSymmetric(Zero(|c|), c);
    DotZero(c);
  }

  // ------------------------------------------------------------------ symmetric operators

  function Row(a: Mat, i: nat): (r: Vec)
    ensures |r| == |a|
    ensures forall j :: 0 <= j < |a| ==> r[j] == Entry(a[j], i)
  {
    seq(|a|, j requires 0 <= j < |a| => Entry(a[j], i))
  }

  lemma {:induction false} RowDotIsDot(a: Mat, v: Vec, i: nat)
    ensures RowDot(a, v, i) == Dot(Row(a, i), v)
  {
    if a != [] && v != [] {
      RowDotIsDot(a[1..], v[1..], i);
      assert Row(a, i)[1..] == Row(a[1..], i);
    }
  }

  lemma SymmetricCoords(a: Mat, x: Vec)
    requires Symmetric(a) && |x| == |a|
    ensures Coords(a, x) == MatVec(|a|, a, x)
  {
    forall i | 0 <= i < |a| ensures Coords(a, x)[i] == MatVec(|a|, a, x)[i] {
      RowDotIsDot(a, x, i);
      assert Row(a, i) == a[i];
    }
  }

  /** x^T A y = y^T A x */
  lemma FormSymmetric(m: nat, a: Option<Mat>, x: Vec, y: Vec)
    requires SymmetricOp(m, a) && |x| == |y| == m
    ensures Form(m, a, x, y) == Form(m, a, y, x)
  {
    hide Dot, MatVec;
    match a
    case None => DotSymmetric(x, y);
    case Some(b) =>
      DotCombination(m, x, b, y);
      SymmetricCoords(b, x);
      DotSymmetric(MatVec(m, b, x), y);
  }

  /** G = T^T A T, entry by entry. */
  ghost predicate GramOf(m: nat, a: Option<Mat>, t: Mat, g: Mat) {
    && IsMat(g, |t|, |t|)
    && forall i, j :: 0 <= i < |t| && 0 <= j < |t| ==> g[j][i] == Form(m, a, t[i], t[j])
  }

  lemma MatVecEntry(m: nat, a: Mat, v: Vec, i: nat)
    requires i < m
    ensures MatVec(m, a, v)[i] == RowDot(a, v, i)
  {
  }

  /** (T c)^T A (T d) = c^T (T^T A T) d */
  lemma FormInBasis(m: nat, a: Option<Mat>, t: Mat, g: Mat, c: Vec, d: Vec)
    requires IsMat(t, m, |t|) && SymmetricOp(m, a) && GramOf(m, a, t, g) && |c| == |d| == |t|
    ensures Form(m, a, MatVec(m, t, c), MatVec(m, t, d)) == Dot(c, MatVec(|t|, g, d))
  {
    hide Dot, MatVec, Form;
    var td := MatVec(m, t, d);
    FormLeft(m, a, t, c, td);
    forall i | 0 <= i < |t| ensures FormColumn(m, a, t, td)[i] == MatVec(|t|, g, d)[i] {
      FormRight(m, a, t[i], t, d);
      assert FormRow(m, a, t[i], t) == Row(g, i);
      RowDotIsDot(g, d, i);
      MatVecEntry(|t|, g, d, i);
    }
    assert FormColumn(m, a, t, td) == MatVec(|t|, g, d);
  }

  /** A Gram matrix of a symmetric operator is symmetric. */
  lemma GramSymmetric(m: nat, a: Option<Mat>, t: Mat, g: Mat)
    requires SymmetricOp(m, a) && IsMat(t, m, |t|) && GramOf(m, a, t, g)
    ensures Symmetric(g)
  {
    hide Form;
    forall i, j | 0 <= i < |t| && 0 <= j < |t| ensures g[i][j] == g[j][i] {
      FormSymmetric(m, a, t[i], t[j]);
    }
  }

  // ------------------------------------------------------------------ square orthonormal matrices

  /** z_i^T z_j = 1 if i = j, else 0, for n columns of n rows. */
  ghost predicate Square(z: Mat, n: nat) {
    IsMat(z, n, n) && Orthonormal(n, None, z)
  }

  /** What is left of c beside its components along z is as long as Pythagoras says. */
  lemma Bessel(z: Mat, n: nat, c: Vec)
    requires IsMat(z, n, |z|) && Orthonormal(n, None, z) && |c| == n
    ensures var k, y := Coords(z, c), Sub(c, MatVec(n, z, Coords(z, c)));
            Dot(y, y) == Dot(c, c) - Dot(k, k) && forall i :: 0 <= i < |z| ==> Dot(z[i], y) == 0.0
  {
    hide Dot, MatVec;
    var k := Coords(z, c);
    var zk := MatVec(n, z, k);
    var y := Sub(c, zk);
    forall i | 0 <= i < |z| ensures Dot(z[i], y) == 0.0 {
      DotSub(z[i], c, zk);
      FormPick(n, None, z, k, i);
    }
    CombinationDot(n, z, k, y);
    assert Coords(z, y) == Zero(|z|);
    DotZero(k);
    CombinationDot(n, z, k, c);
    DotSub(y, c, zk);
    DotSymmetric(y, c);
    DotSymmetric(y, zk);
    DotSub(c, c, zk);
    DotSymmetric(c, zk);
  }

  function Total(v: Vec): real {
    if v == [] then 0.0 else v[0] + Total(v[1..])
  }

  lemma {:induction false} TotalAdd(u: Vec, v: Vec)
    requires |u| == |v|
    ensures Total(Add(u, v)) == Total(u) + Total(v)
  {
    if u != [] {
      assert Add(u, v)[1..] == Add(u[1..], v[1..]);
      TotalAdd(u[1..], v[1..]);
    }
  }

  function Squares(v: Vec): (r: Vec)
    ensures |r| == |v| && forall i :: 0 <= i < |v| ==> r[i] == Times(v[i], v[i])
  {
    seq(|v|, i requires 0 <= i < |v| => Times(v[i], v[i]))
  }

  lemma {:induction false} TotalSquares(v: Vec)
    ensures Total(Squares(v)) == Dot(v, v)
  {
    hide Times;
    if v != [] {
      assert Squares(v)[1..] == Squares(v[1..]);
      TotalSquares(v[1..]);
    }
  }

  /** The squared lengths of the n rows. */
  function RowSquares(z: Mat, n: nat): (r: Vec)
    ensures |r| == n && forall i :: 0 <= i < n ==> r[i] == Dot(Row(z, i), Row(z, i))
  {
    seq(n, i requires 0 <= i => Dot(Row(z, i), Row(z, i)))
  }

  /** Summing the squares by rows or by columns. */
  lemma {:induction false} SquaresByColumns(z: Mat, n: nat)
    requires IsMat(z, n, |z|)
    requires forall j :: 0 <= j < |z| ==> Dot(z[j], z[j]) == 1.0
    ensures Total(RowSquares(z, n)) == |z| as real
  {
    hide Dot;
    if z == [] {
      EmptyRows(n);
    } else {
      var rest := z[1..];
      SquaresByColumns(rest, n);
      forall i | 0 <= i < n ensures RowSquares(z, n)[i] == Add(Squares(z[0]), RowSquares(rest, n))[i] {
        assert Row(z, i)[1..] == Row(rest, i);
        DotCons(Row(z, i), Row(z, i));
      }
      assert RowSquares(z, n) == Add(Squares(z[0]), RowSquares(rest, n));
      TotalAdd(Squares(z[0]), RowSquares(rest, n));
      TotalSquares(z[0]);
    }
  }

  lemma {:induction false} EmptyRows(n: nat)
    ensures Total(RowSquares([], n)) == 0.0
  {
    TotalNone(RowSquares([], n));
  }

  lemma {:induction false} TotalNone(v: Vec)
    requires forall i :: 0 <= i < |v| ==> v[i] == 0.0
    ensures Total(v) == 0.0
  {
    if v != [] {
      TotalNone(v[1..]);
    }
  }

  /** Numbers of at most one that sum to their count are all one. */
  lemma {:induction false} AllOne(v: Vec, i: nat)
    requires forall i :: 0 <= i < |v| ==> v[i] <= 1.0
    ensures Total(v) <= |v| as real
    ensures i < |v| && Total(v) == |v| as real ==> v[i] == 1.0
  {
    if v != [] {
      AllOne(v[1..], if i == 0 then 0 else i - 1);
    }
  }

  lemma UnitLength(n: nat, i: nat)
    requires i < n
    ensures Dot(Unit(n, i), Unit(n, i)) == 1.0
  {
    DotUnit(n, i, Unit(n, i));
  }

  lemma UnitCoords(z: Mat, n: nat, i: nat)
    requires IsMat(z, n, |z|) && i < n
    ensures Coords(z, Unit(n, i)) == Row(z, i)
  {
    hide Dot;
    forall j | 0 <= j < |z| ensures Coords(z, Unit(n, i))[j] == Row(z, i)[j] {
      DotUnit(n, i, z[j]);
      DotSymmetric(Unit(n, i), z[j]);
    }
  }

  /** n orthonormal columns of n rows recover every unit vector. */
  lemma SquareUnit(z: Mat, n: nat, i: nat)
    requires Square(z, n) && i < n
    ensures MatVec(n, z, Row(z, i)) == Unit(n, i)
  {
    hide Dot, MatVec;
    forall j | 0 <= j < n ensures RowSquares(z, n)[j] <= 1.0 {
      Bessel(z, n, Unit(n, j));
      UnitCoords(z, n, j);
      UnitLength(n, j);
      DotSquare(Sub(Unit(n, j), MatVec(n, z, Row(z, j))));
    }
    forall j | 0 <= j < |z| ensures Dot(z[j], z[j]) == 1.0 {
      assert Form(n, None, z[j], z[j]) == 1.0;
    }
    SquaresByColumns(z, n);
    AllOne(RowSquares(z, n), i);
    Bessel(z, n, Unit(n, i));
    UnitCoords(z, n, i);
    UnitLength(n, i);
    var y := Sub(Unit(n, i), MatVec(n, z, Row(z, i)));
    DotSquare(y);
    assert forall k :: 0 <= k < n ==> y[k] == 0.0;
  }

  /** A square matrix with orthonormal columns is complete: Z (Z^T c) = c for every c. */
  lemma SquareComplete(z: Mat, n: nat, c: Vec)
    requires Square(z, n) && |c| == n
    ensures MatVec(n, z, Coords(z, c)) == c
  {
    hide Dot, MatVec;
    var zk := MatVec(n, z, Coords(z, c));
    forall i | 0 <= i < n ensures zk[i] == c[i] {
      DotUnit(n, i, zk);
      DotCombination(n, Unit(n, i), z, Coords(z, c));
      UnitCoords(z, n, i);
      CombinationDot(n, z, Row(z, i), c);
      SquareUnit(z, n, i);
      DotUnit(n, i, c);
    }
  }

  // ------------------------------------------------------------------ spans

  lemma AddZero(m: nat, v: Vec)
    requires |v| == m
    ensures Add(Zero(m), v) == v
  {
  }

  lemma MatVecNone(m: nat)
    ensures MatVec(m, [], []) == Zero(m)
  {
  }

  /** Side by side: (U V) (c d) = U c + V d. */
  lemma {:induction false} MatVecConcat(m: nat, u: Mat, v: Mat, c: Vec, d: Vec)
    requires IsMat(u, m, |c|) && IsMat(v, m, |d|)
    ensures MatVec(m, u + v, c + d) == Add(MatVec(m, u, c), MatVec(m, v, d))
    decreases |u|
  {
    hide MatVec;
    if u == [] {
      assert u + v == v && c + d == d;
      MatVecNone(m);
      AddZero(m, MatVec(m, v, d));
    } else {
      assert (u + v)[1..] == u[1..] + v && (c + d)[1..] == c[1..] + d;
      MatVecConcat(m, u[1..], v, c[1..], d);
      MatVecSplit(m, u + v, c + d);
      MatVecSplit(m, u, c);
      AddAssociates(Scale(c[0], u[0]), MatVec(m, u[1..], c[1..]), MatVec(m, v, d));
    }
  }

  lemma AddAssociates(x: Vec, y: Vec, z: Vec)
    requires |x| == |y| == |z|
    ensures Add(Add(x, y), z) == Add(x, Add(y, z))
  {
  }

  /** Column i is the image of the i-th unit vector. */
  lemma UnitColumn(m: nat, v: Mat, i: nat)
    requires IsMat(v, m, |v|) && i < |v|
    ensures MatVec(m, v, Unit(|v|, i)) == v[i]
  {
    hide Dot;
    forall r | 0 <= r < m ensures MatVec(m, v, Unit(|v|, i))[r] == v[i][r] {
      RowDotIsDot(v, Unit(|v|, i), r);
      DotSymmetric(Row(v, r), Unit(|v|, i));
      DotUnit(|v|, i, Row(v, r));
    }
  }

  lemma Member(m: nat, v: Mat, c: Vec)
    requires |c| == |v|
    ensures InSpan(m, v, MatVec(m, v, c))
  {
  }

  lemma ColumnInSpan(m: nat, v: Mat, i: nat)
    requires IsMat(v, m, |v|) && i < |v|
    ensures InSpan(m, v, v[i])
  {
    hide MatVec;
    UnitColumn(m, v, i);
    Member(m, v, Unit(|v|, i));
  }

  /** Sums and multiples stay in the span. */
  lemma SpanAdd(m: nat, v: Mat, x: Vec, y: Vec)
    requires InSpan(m, v, x) && InSpan(m, v, y)
    ensures InSpan(m, v, Add(x, y))
  {
    hide MatVec;
    var c: Vec :| |c| == |v| && x == MatVec(m, v, c);
    var d: Vec :| |d| == |v| && y == MatVec(m, v, d);
    MatVecAdd(m, v, c, d);
    Member(m, v, Add(c, d));
  }

  lemma SpanScale(m: nat, v: Mat, k: real, x: Vec)
    requires InSpan(m, v, x)
    ensures InSpan(m, v, Scale(k, x))
  {
    hide MatVec;
    var c: Vec :| |c| == |v| && x == MatVec(m, v, c);
    MatVecScale(m, v, k, c);
    Member(m, v, Scale(k, c));
  }

  lemma SpanZero(m: nat, v: Mat)
    ensures InSpan(m, v, Zero(m))
  {
    MatVecZero(m, v, |v|);
    Member(m, v, Zero(|v|));
  }

  /** Combinations of members are members. */
  lemma {:induction false} SpanCombination(m: nat, v: Mat, u: Mat, c: Vec)
    requires IsMat(u, m, |c|) && forall j :: 0 <= j < |u| ==> InSpan(m, v, u[j])
    ensures InSpan(m, v, MatVec(m, u, c))
    decreases |u|
  {
    hide MatVec, InSpan;
    if u == [] {
      MatVecNone(m);
      SpanZero(m, v);
    } else {
      SpanCombination(m, v, u[1..], c[1..]);
      SpanScale(m, v, c[0], u[0]);
      SpanAdd(m, v, Scale(c[0], u[0]), MatVec(m, u[1..], c[1..]));
      MatVecSplit(m, u, c);
    }
  }

  lemma SpanTransitive(m: nat, v: Mat, u: Mat, y: Vec)
    requires IsMat(u, m, |u|) && (forall j :: 0 <= j < |u| ==> InSpan(m, v, u[j])) && InSpan(m, u, y)
    ensures InSpan(m, v, y)
  {
    hide MatVec;
    var c: Vec :| |c| == |u| && y == MatVec(m, u, c);
    SpanCombination(m, v, u, c);
  }

  lemma SpanJoin(m: nat, u: Mat, v: Mat, x: Vec, y: Vec)
    requires IsMat(u, m, |u|) && IsMat(v, m, |v|) && InSpan(m, u, x) && InSpan(m, v, y)
    ensures InSpan(m, u + v, Add(x, y))
  {
    hide MatVec;
    var c: Vec :| |c| == |u| && x == MatVec(m, u, c);
    var d: Vec :| |d| == |v| && y == MatVec(m, v, d);
    MatVecConcat(m, u, v, c, d);
    Member(m, u + v, c + d);
  }

  /** Every column of u is a combination of the columns of v. */
  ghost predicate Covers(m: nat, v: Mat, u: Mat) {
    forall j :: 0 <= j < |u| ==> InSpan(m, v, u[j])
  }

  lemma CoversItself(m: nat, v: Mat)
    requires IsMat(v, m, |v|)
    ensures Covers(m, v, v)
  {
    hide InSpan;
    forall j | 0 <= j < |v| ensures InSpan(m, v, v[j]) {
      ColumnInSpan(m, v, j);
    }
  }

  lemma CoversTransitive(m: nat, v: Mat, u: Mat, w: Mat)
    requires IsMat(u, m, |u|) && Covers(m, v, u) && Covers(m, u, w)
    ensures Covers(m, v, w)
  {
    hide InSpan;
    forall j | 0 <= j < |w| ensures InSpan(m, v, w[j]) {
      SpanTransitive(m, v, u, w[j]);
    }
  }

  lemma ZeroAdd(m: nat, v: Vec)
    requires |v| == m
    ensures Add(v, Zero(m)) == v
  {
  }

  lemma SpanLeft(m: nat, u: Mat, v: Mat, x: Vec)
    requires IsMat(u, m, |u|) && IsMat(v, m, |v|) && |x| == m && InSpan(m, u, x)
    ensures InSpan(m, u + v, x)
  {
    hide InSpan;
    SpanZero(m, v);
    SpanJoin(m, u, v, x, Zero(m));
    ZeroAdd(m, x);
  }

  lemma SpanRight(m: nat, u: Mat, v: Mat, x: Vec)
    requires IsMat(u, m, |u|) && IsMat(v, m, |v|) && |x| == m && InSpan(m, v, x)
    ensures InSpan(m, u + v, x)
  {
    hide InSpan;
    SpanZero(m, u);
    SpanJoin(m, u, v, Zero(m), x);
    AddZero(m, x);
  }

  /** If v and w cover u, they cover v and u together. */
  lemma CoversBeside(m: nat, v: Mat, w: Mat, u: Mat)
    requires IsMat(v, m, |v|) && IsMat(w, m, |w|) && Covers(m, v + w, u)
    ensures Covers(m, v + w, v + u)
  {
    hide InSpan;
    forall j | 0 <= j < |v + u| ensures InSpan(m, v + w, (v + u)[j]) {
      if j < |v| {
        ColumnInSpan(m, v, j);
        SpanLeft(m, v, w, v[j]);
      }
    }
  }

  /** If w covers u, then v and w do. */
  lemma CoversRight(m: nat, v: Mat, w: Mat, u: Mat)
    requires IsMat(v, m, |v|) && IsMat(w, m, |w|) && IsMat(u, m, |u|) && Covers(m, w, u)
    ensures Covers(m, v + w, u)
  {
    hide InSpan;
    forall j | 0 <= j < |u| ensures InSpan(m, v + w, u[j]) {
      SpanRight(m, v, w, u[j]);
    }
  }

  lemma CoversFront(m: nat, v: Mat, w: Mat, u: Mat)
    requires IsMat(v, m, |v|) && IsMat(w, m, |w|) && IsMat(u, m, |u|) && Covers(m, v, u)
    ensures Covers(m, v + w, u)
  {
    hide InSpan;
    forall j | 0 <= j < |u| ensures InSpan(m, v + w, u[j]) {
      SpanLeft(m, v, w, u[j]);
    }
  }

  lemma CoversBoth(m: nat, v: Mat, u: Mat, w: Mat)
    requires Covers(m, v, u) && Covers(m, v, w)
    ensures Covers(m, v, u + w)
  {
    hide InSpan;
  }

  // ------------------------------------------------------------------ joining blocks

  lemma CoversOrthogonal(m: nat, a: Option<Mat>, v: Mat, s: Mat, x: Mat)
    requires IsMat(v, m, |v|) && IsMat(s, m, |s|) && Orthogonal(m, a, v, s) && Covers(m, s, x)
    ensures Orthogonal(m, a, v, x)
  {
    hide Form, MatVec;
    forall i, j | 0 <= i < |v| && 0 <= j < |x| ensures Form(m, a, v[i], x[j]) == 0.0 {
      assert InSpan(m, s, x[j]);
      var c: Vec :| |c| == |s| && x[j] == MatVec(m, s, c);
      FormZero(m, a, s, v[i], c);
    }
  }

  lemma JoinOrthonormal(m: nat, a: Option<Mat>, v: Mat, w: Mat)
    requires IsMat(v, m, |v|) && IsMat(w, m, |w|) && SymmetricOp(m, a)
    requires Orthonormal(m, a, v) && Orthonormal(m, a, w) && Orthogonal(m, a, v, w)
    ensures Orthonormal(m, a, v + w)
  {
    hide Form;
    forall i, j | 0 <= i < |v + w| && 0 <= j < |v + w|
      ensures Form(m, a, (v + w)[i], (v + w)[j]) == if i == j then 1.0 else 0.0
    {
      if i >= |v| && j < |v| {
        FormSymmetric(m, a, w[i - |v|], v[j]);
      }
    }
  }

  lemma SplitOrthonormal(m: nat, a: Option<Mat>, v: Mat, w: Mat)
    requires Orthonormal(m, a, v + w)
    ensures Orthonormal(m, a, v) && Orthonormal(m, a, w) && Orthogonal(m, a, v, w)
  {
    hide Form;
    var s := v + w;
    forall i, j | 0 <= i < |w| && 0 <= j < |w| ensures Form(m, a, w[i], w[j]) == if i == j then 1.0 else 0.0 {
      assert w[i] == s[|v| + i] && w[j] == s[|v| + j];
    }
    forall i, j | 0 <= i < |v| && 0 <= j < |v| ensures Form(m, a, v[i], v[j]) == if i == j then 1.0 else 0.0 {
      assert v[i] == s[i] && v[j] == s[j];
    }
    forall i, j | 0 <= i < |v| && 0 <= j < |w| ensures Form(m, a, v[i], w[j]) == 0.0 {
      assert v[i] == s[i] && w[j] == s[|v| + j];
    }
  }

  lemma OrthogonalJoin(m: nat, a: Option<Mat>, v: Mat, x: Mat, p: Mat)
    requires Orthogonal(m, a, v, x) && Orthogonal(m, a, v, p)
    ensures Orthogonal(m, a, v, x + p)
  {
    hide Form;
  }
}
