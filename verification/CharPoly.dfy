/**
 The characteristic-polynomial machinery of the LOBPCG backward pass, over exact reals and
 without batching: coefficients from roots, and Horner evaluation at numbers, vectors and matrices.
 */
module CharPoly {
  import opened LinearAlgebra

  // ------------------------------------------------------------------ coefficients from roots

  /** The coefficients of (x - r) * p(x). */
  function MulLinear(p: seq<real>, r: real): (q: seq<real>)
    ensures |q| == |p| + 1
  {
    seq(|p| + 1, k requires 0 <= k => (if 0 < k <= |p| then p[k - 1] else 0.0) - Times(r, Entry(p, k)))
  }

  function FromRoots(roots: seq<real>): (c: seq<real>)
    ensures |c| == |roots| + 1
  {
    if roots == [] then [1.0] else MulLinear(FromRoots(roots[..|roots| - 1]), roots[|roots| - 1])
  }

  /** (x - r_1) * ... * (x - r_n) */
  function Product(roots: seq<real>, x: real): real {
    if roots == [] then 1.0 else Product(roots[..|roots| - 1], x) * (x - roots[|roots| - 1])
  }

  /** c_0 + c_1 x + ... + c_n x^n */
  function Value(c: seq<real>, x: real): real {
    if c == [] then 0.0 else c[0] + Times(x, Value(c[1..], x))
  }

  /** The buffer of the in-place sweep after `i` roots: the polynomial so far sits at the right end,
      zeros before it; the entry at index 0 is never read. */
  predicate Swept(buf: seq<real>, roots: seq<real>, i: nat) {
    && |buf| == |roots| + 2
    && i <= |roots|
    && buf[|roots| + 1 - i..] == FromRoots(roots[..i])
    && forall t :: 0 < t < |roots| + 1 - i ==> buf[t] == 0.0
  }

  /** The update `out -= root * shifted` at index `t`, for the sweep that covers indices [lo, hi). */
  function SweptEntry(buf: seq<real>, root: real, lo: int, hi: int, t: nat): real
    requires t < |buf| && hi < |buf|
  {
    if lo <= t < hi then buf[t] - Times(root, buf[t + 1]) else buf[t]
  }

  lemma SweepStep(before: seq<real>, after: seq<real>, roots: seq<real>, i: nat)
    requires 1 <= i <= |roots| && Swept(before, roots, i - 1) && |after| == |before|
    requires forall t :: 0 <= t < |before| ==>
               after[t] == SweptEntry(before, roots[i - 1], |roots| - i, |roots| + 1, t)
    requires before[|roots| + 1] == 1.0
    ensures Swept(after, roots, i) && after[|roots| + 1] == 1.0
  {
    var n, r := |roots|, roots[i - 1];
    var p, q := FromRoots(roots[..i - 1]), FromRoots(roots[..i]);
    assert roots[..i][..i - 1] == roots[..i - 1];
    assert q == MulLinear(p, r);
    forall k | 0 <= k <= i ensures after[n + 1 - i + k] == q[k] {
      var t := n + 1 - i + k;
      if k > 0 { assert before[t] == before[n + 2 - i..][k - 1] == p[k - 1]; }
      if k < i { assert before[t + 1] == before[n + 2 - i..][k] == p[k]; }
    }
    assert after[n + 1 - i..] == q;
    forall t | 0 < t < n + 1 - i ensures after[t] == 0.0 {
      assert before[t] == 0.0 && before[t + 1] == 0.0;
    }
  }

  /** One sweep: `out` is a window of `target`, and the subtracted product was formed from the old buffer. */
  method Sweep(target: array<real>, source: seq<real>, root: real, lo: nat, hi: nat)
    requires target[..] == source && lo <= hi < target.Length
    modifies target
    ensures forall t :: 0 <= t < target.Length ==> target[t] == SweptEntry(source, root, lo, hi, t)
  {
    var product := seq(hi - lo, j requires 0 <= j < hi - lo => Times(root, source[lo + j + 1]));
    for t := lo to hi
      invariant forall u :: 0 <= u < target.Length ==> target[u] == SweptEntry(source, root, lo, t, u)
    {
      target[t] := target[t] - product[t - lo];
    }
  }

  /** `_polynomial_coefficients_given_roots`.  With gradients each sweep works on a clone, without them in place. */
  method CoefficientsGivenRoots(roots: Vec, requiresGrad: bool) returns (coeffs: Vec)
    ensures coeffs == FromRoots(roots)
  {
    var n := |roots|;
    var buf := new real[n + 2](j => if j == 0 || j == n + 1 then 1.0 else 0.0);
    assert roots[..0] == [];
    assert buf[..][n + 1..] == [1.0];
    for i := 1 to n + 1
      invariant fresh(buf)
      invariant Swept(buf[..], roots, i - 1) && buf[..][n + 1] == 1.0
    {
      var source := buf[..];
      var target := buf;
      if requiresGrad {
        target := new real[n + 2](j requires 0 <= j < n + 2 => source[j]);
      }
      assert target[..] == source;
      Sweep(target, source, roots[i - 1], n - i, n + 1);
      SweepStep(source, target[..], roots, i);
      buf := target;
    }
    assert roots[..n] == roots;
    coeffs := buf[1..n + 2];
    assert buf[..][1..] == coeffs;
  }

  lemma {:induction false} MonicFromRoots(roots: seq<real>)
    ensures FromRoots(roots)[|roots|] == 1.0
  {
    if roots != [] {
      var front := roots[..|roots| - 1];
      MonicFromRoots(front);
      assert Entry(FromRoots(front), |roots|) == 0.0;
    }
  }

  /** Multiplying by a linear factor, seen through the values; `lead` is what shifts in from below. */
  function Shifted(p: seq<real>, lead: real, r: real): seq<real> {
    seq(|p| + 1, k requires 0 <= k => (if k == 0 then lead else if k <= |p| then p[k - 1] else 0.0) - Times(r, Entry(p, k)))
  }

  lemma ShiftedTail(p: seq<real>, lead: real, r: real)
    requires p != []
    ensures Shifted(p, lead, r)[1..] == Shifted(p[1..], p[0], r)
  {
    var s, t := Shifted(p, lead, r), Shifted(p[1..], p[0], r);
    forall k | 0 <= k < |p| ensures s[1..][k] == t[k] {
      assert Entry(p[1..], k) == Entry(p, k + 1);
      assert k > 0 ==> p[1..][k - 1] == p[k];
    }
  }

  lemma {:induction false} ShiftedValue(p: seq<real>, lead: real, r: real, x: real)
    ensures Value(Shifted(p, lead, r), x) == lead + Times(x - r, Value(p, x))
  {
    hide Times;
    var s := Shifted(p, lead, r);
    if p == [] {
      ShiftArithmetic(lead, r, x, 0.0, 0.0);
      assert s[1..] == [];
    } else {
      ShiftedValue(p[1..], p[0], r, x);
      ShiftedTail(p, lead, r);
      ShiftArithmetic(lead, r, x, p[0], Value(p[1..], x));
    }
  }

  lemma ShiftArithmetic(lead: real, r: real, x: real, p0: real, v: real)
    ensures Times(r, 0.0) == Times(x, 0.0) == Times(x - r, 0.0) == 0.0
    ensures (lead - Times(r, p0)) + Times(x, p0 + Times(x - r, v)) == lead + Times(x - r, p0 + Times(x, v))
  {
    assert x * (p0 + (x - r) * v) == x * p0 + (x - r) * (x * v);
    assert (x - r) * (p0 + x * v) == (x - r) * p0 + (x - r) * (x * v);
  }

  /** The coefficients denote the product of the linear factors, at every point. */
  lemma {:induction false} CoefficientsDenoteProduct(roots: seq<real>, x: real)
    ensures Value(FromRoots(roots), x) == Product(roots, x)
  {
    if roots == [] {
      assert Value([1.0], x) == 1.0;
    } else {
      var front, r := roots[..|roots| - 1], roots[|roots| - 1];
      CoefficientsDenoteProduct(front, x);
      assert MulLinear(FromRoots(front), r) == Shifted(FromRoots(front), 0.0, r);
      ShiftedValue(FromRoots(front), 0.0, r, x);
    }
  }

  lemma {:induction false} ProductAtRoot(roots: seq<real>, i: nat)
    requires i < |roots|
    ensures Product(roots, roots[i]) == 0.0
  {
    if i < |roots| - 1 {
      ProductAtRoot(roots[..|roots| - 1], i);
    }
  }

  // ------------------------------------------------------------------ Horner's rule

  /** `_polynomial_value`: the leading coefficient is taken to be one and never read. */
  function Horner<V>(poly: seq<real>, zeroPower: V, transition: (V, real) -> V): V {
    if |poly| <= 1 then zeroPower else transition(Horner(poly[1..], zeroPower, transition), poly[0])
  }

  method PolynomialValue<V>(poly: seq<real>, zeroPower: V, transition: (V, real) -> V) returns (res: V)
    ensures res == Horner(poly, zeroPower, transition)
  {
    res := zeroPower;
    if |poly| > 0 {
      for k := |poly| - 1 downto 0
        invariant res == Horner(poly[k..], zeroPower, transition)
      {
        res := transition(res, poly[k]);
        assert poly[k..][1..] == poly[k + 1..];
      }
      assert poly[0..] == poly;
    }
  }

  /** The value at `x` of the monic polynomial with the given lower coefficients. */
  function MonicValue(c: seq<real>, x: real): real {
    if |c| <= 1 then 1.0 else c[0] + x * MonicValue(c[1..], x)
  }

  lemma {:induction false} MonicIsValue(c: seq<real>, x: real)
    requires c != [] && c[|c| - 1] == 1.0
    ensures MonicValue(c, x) == Value(c, x)
  {
    if |c| == 1 {
      assert Value(c[1..], x) == 0.0;
    } else {
      MonicIsValue(c[1..], x);
    }
  }

  /** Coefficients from roots, evaluated by Horner's rule, give the product and vanish at every root. */
  lemma HornerOfRoots(roots: seq<real>, x: real)
    ensures MonicValue(FromRoots(roots), x) == Product(roots, x)
    ensures x in roots ==> MonicValue(FromRoots(roots), x) == 0.0
  {
    MonicFromRoots(roots);
    MonicIsValue(FromRoots(roots), x);
    CoefficientsDenoteProduct(roots, x);
    if x in roots {
      var i :| 0 <= i < |roots| && roots[i] == x;
      ProductAtRoot(roots, i);
    }
  }

  function Ones(n: nat): Vec { seq(n, _ => 1.0) }

  function VectorTransition(x: Vec): (Vec, real) -> Vec {
    (value: Vec, a: real) => seq(|x|, i requires 0 <= i < |x| => a + x[i] * Entry(value, i))
  }

  lemma {:induction false} VectorHorner(poly: seq<real>, x: Vec)
    ensures |Horner(poly, Ones(|x|), VectorTransition(x))| == |x|
    ensures forall i :: 0 <= i < |x| ==>
              Horner(poly, Ones(|x|), VectorTransition(x))[i] == MonicValue(poly, x[i])
  {
    if |poly| > 1 {
      VectorHorner(poly[1..], x);
    }
  }

  method VectorPolynomialValue(poly: seq<real>, x: Vec) returns (res: Vec)
    ensures |res| == |x|
    ensures forall i :: 0 <= i < |x| ==> res[i] == MonicValue(poly, x[i])
  {
    res := PolynomialValue(poly, Ones(|x|), VectorTransition(x));
    VectorHorner(poly, x);
  }

  function AddDiagonal(a: Mat, c: real): (r: Mat)
    ensures |r| == |a|
    ensures forall j :: 0 <= j < |a| ==> |r[j]| == |a[j]|
    ensures forall j, i :: 0 <= j < |a| && 0 <= i < |a[j]| ==> r[j][i] == a[j][i] + (if i == j then c else 0.0)
  {
    seq(|a|, j requires 0 <= j < |a| =>
      seq(|a[j]|, i requires 0 <= i < |a[j]| => a[j][i] + (if i == j then c else 0.0)))
  }

  function MatrixTransition(m: nat, a: Mat): (Mat, real) -> Mat {
    (value: Mat, c: real) => AddDiagonal(MatMul(m, a, value), c)
  }

  /** Horner's rule acting on a vector: A (... (A (A w + c_{n-1} w) + ...) ) + c_0 w. */
  function MonicApply(m: nat, a: Mat, c: seq<real>, w: Vec): Vec {
    if |c| <= 1 then w else Add(MatVec(m, a, MonicApply(m, a, c[1..], w)), Scale(c[0], w))
  }

  lemma {:induction false} RowDotDiagonal(p: Mat, q: Mat, u: Vec, i: nat, k: int, c: real)
    requires |p| == |q| == |u|
    requires forall j :: 0 <= j < |p| ==> Entry(q[j], i) == Entry(p[j], i) + (if j == k then c else 0.0)
    ensures RowDot(q, u, i) == RowDot(p, u, i) + (if 0 <= k < |u| then c * u[k] else 0.0)
  {
    if u != [] {
      forall j | 0 <= j < |p| - 1
        ensures Entry(q[1..][j], i) == Entry(p[1..][j], i) + (if j == k - 1 then c else 0.0)
      {
        assert q[1..][j] == q[j + 1] && p[1..][j] == p[j + 1];
      }
      RowDotDiagonal(p[1..], q[1..], u[1..], i, k - 1, c);
      if k == 0 {
        assert Entry(q[0], i) * u[0] == Entry(p[0], i) * u[0] + c * u[0];
      }
    }
  }

  lemma AddDiagonalApply(m: nat, a: Mat, c: real, u: Vec)
    requires IsMat(a, m, m) && |u| == m
    ensures MatVec(m, AddDiagonal(a, c), u) == Add(MatVec(m, a, u), Scale(c, u))
  {
    forall i | 0 <= i < m ensures MatVec(m, AddDiagonal(a, c), u)[i] == Add(MatVec(m, a, u), Scale(c, u))[i] {
      RowDotDiagonal(a, AddDiagonal(a, c), u, i, i, c);
    }
  }

  lemma {:induction false} MatrixHorner(m: nat, a: Mat, poly: seq<real>, u: Vec)
    requires |u| == m
    ensures var p := Horner(poly, Identity(m), MatrixTransition(m, a));
            IsMat(p, m, m) && MatVec(m, p, u) == MonicApply(m, a, poly, u)
  {
    if |poly| <= 1 {
      IdentityApply(m, u);
    } else {
      MatrixHorner(m, a, poly[1..], u);
      var p := Horner(poly[1..], Identity(m), MatrixTransition(m, a));
      var ap := MatMul(m, a, p);
      assert Horner(poly, Identity(m), MatrixTransition(m, a)) == AddDiagonal(ap, poly[0]);
      AddDiagonalApply(m, ap, poly[0], u);
      MatMulApply(m, a, p, u);
    }
  }

  method MatrixPolynomialValue(m: nat, poly: seq<real>, a: Mat) returns (res: Mat)
    ensures IsMat(res, m, m)
    ensures forall u: Vec :: |u| == m ==> MatVec(m, res, u) == MonicApply(m, a, poly, u)
  {
    res := PolynomialValue(poly, Identity(m), MatrixTransition(m, a));
    MatrixHorner(m, a, poly, Zero(m));
    forall u: Vec | |u| == m ensures MatVec(m, res, u) == MonicApply(m, a, poly, u) {
      MatrixHorner(m, a, poly, u);
    }
  }
}
