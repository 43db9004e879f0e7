/**
 The pieces of a LOBPCG update: sizes, matrix slices, residuals and the Rayleigh-Ritz steps.  The
 numerical kernels (eigensolver, Cholesky, QR) are function values of which only shapes are
 promised; all products, slices and assignments around them are explicit.
 */
module LobpcgSteps {
  import opened LinearAlgebra
  import opened Wrappers
  import opened Forms

  datatype Method = Basic | Ortho

  datatype Params = Params(m: nat, n: nat, k: int, niter: int, orthoIMax: nat, orthoJMax: nat,
                           variant: Method, largest: bool, cuda: bool)

  datatype Kernels = Kernels(
    ritz: Mat -> Mat,                       // _get_rayleigh_ritz_transform
    symeig: (Mat, bool) -> (Vec, Mat),      // eigenvalues and eigenvectors
    basis: Mat -> Mat,                      // orthogonal basis of the columns
    rsqrt: real -> real,                    // x ** -0.5
    tau: real,                              // the relative bound below which svqb raises an eigenvalue
    converged: (Vec, Vec, real) -> bool,    // rerr < tol for one pair, from its residual, vector and value
    innerDone: Mat -> bool,                 // the two stopping tests of _get_ortho
    outerDone: (Mat, Mat) -> bool)

  /** The shapes the kernels promise. */
  ghost predicate Shapes(ker: Kernels) {
    && (forall s: Mat {:trigger ker.ritz(s)} :: IsMat(ker.ritz(s), |s|, |s|))
    && (forall s: Mat, l: bool :: |ker.symeig(s, l).0| == |s| && IsMat(ker.symeig(s, l).1, |s|, |s|))
    && (forall s: Mat :: BasisOf(s, ker.basis(s)))
  }

  ghost predicate BasisOf(s: Mat, q: Mat) {
    forall rows: nat {:trigger IsMat(s, rows, |s|)} :: IsMat(s, rows, |s|) ==> IsMat(q, rows, Min(rows, |s|))
  }

  lemma KernelShapes(ker: Kernels, s: Mat, l: bool, rows: nat)
    requires Shapes(ker)
    ensures IsMat(ker.ritz(s), |s|, |s|)
    ensures |ker.symeig(s, l).0| == |s| && IsMat(ker.symeig(s, l).1, |s|, |s|)
    ensures IsMat(s, rows, |s|) ==> IsMat(ker.basis(s), rows, Min(rows, |s|))
  {
    assert BasisOf(s, ker.basis(s));
  }

  /** NotTall: `orgqr`, used for the basis on the CPU, needs at least as many rows as columns. */
  datatype Error = TooFewRows | Overdetermined | NotTall | CountDecreased

  // ------------------------------------------------------------------ matrix pieces

  function Min(a: nat, b: nat): nat { if a < b then a else b }

  /** `a[:, lo:hi]` with the clamping of Python slices. */
  function Cols(a: Mat, lo: nat, hi: nat): (r: Mat)
    ensures |r| == (if lo <= Min(hi, |a|) then Min(hi, |a|) - lo else 0)
    ensures forall rows: nat :: IsMat(a, rows, |a|) ==> IsMat(r, rows, |r|)
  {
    if lo <= Min(hi, |a|) then a[lo..Min(hi, |a|)] else []
  }

  /** `a[:, lo:hi] = value`, defined only when the widths agree. */
  function AssignCols(a: Mat, lo: nat, hi: nat, value: Mat): (r: Mat)
    requires lo <= hi <= |a| && |value| == hi - lo
    ensures |r| == |a|
    ensures r[..lo] == a[..lo]
    ensures forall rows: nat :: IsMat(a, rows, |a|) && IsMat(value, rows, |value|) ==> IsMat(r, rows, |a|)
  {
    a[..lo] + value + a[hi..]
  }

  /** Rows [0, hi) of the columns of `a`, transposed: entry (j, i) is a[j][i]. */
  function TransposeTop(a: Mat, hi: nat): (r: Mat)
    ensures IsMat(r, |a|, hi)
  {
    seq(hi, i requires 0 <= i => seq(|a|, j requires 0 <= j < |a| => Entry(a[j], i)))
  }

  /** V^T W */
  function TransposeMul(v: Mat, w: Mat): (r: Mat)
    ensures IsMat(r, |v|, |w|)
  {
    seq(|w|, j requires 0 <= j < |w| => seq(|v|, i requires 0 <= i < |v| => Dot(v[i], w[j])))
  }

  function SubMat(a: Mat, b: Mat): (r: Mat)
    requires |a| == |b|
    ensures |r| == |a|
    ensures forall rows: nat :: IsMat(a, rows, |a|) ==> IsMat(r, rows, |a|)
  {
    seq(|a|, j requires 0 <= j < |a| => Sub(a[j], b[j]))
  }

  lemma MatWidth(a: Mat, rows: nat, cols: nat)
    requires IsMat(a, rows, cols)
    ensures |a| == cols
  {
  }

  lemma DropShape(a: Mat, rows: nat, k: nat)
    requires IsMat(a, rows, |a|) && k <= |a|
    ensures IsMat(a[k..], rows, |a[k..]|)
  {
  }

  lemma JoinShape(a: Mat, b: Mat, rows: nat)
    requires IsMat(a, rows, |a|) && IsMat(b, rows, |b|)
    ensures IsMat(a + b, rows, |a + b|)
  {
  }

  /** `_utils.matmul`: None stands for the identity. */
  function Apply(m: nat, a: Option<Mat>, x: Mat): (r: Mat)
    ensures |r| == |x|
    ensures IsMat(x, m, |x|) ==> IsMat(r, m, |x|)
  {
    match a
    case None => x
    case Some(b) => MatMul(m, b, x)
  }

  /** S^T A S */
  function QForm(m: nat, a: Mat, s: Mat): (r: Mat)
    ensures IsMat(r, |s|, |s|)
  {
    TransposeMul(s, MatMul(m, a, s))
  }

  /** The residual of one pair depends on that pair alone. */
  function ResidualColumn(m: nat, a: Mat, b: Option<Mat>, x: Vec, e: real): (r: Vec)
    ensures |r| == m
  {
    match b
    case None => Sub(MatVec(m, a, x), Scale(e, x))
    case Some(bm) => Sub(MatVec(m, a, x), Scale(e, MatVec(m, bm, x)))
  }

  function Residual(m: nat, a: Mat, b: Option<Mat>, x: Mat, e: Vec): (r: Mat)
    requires |e| == |x|
    ensures IsMat(r, m, |x|)
    ensures forall j :: 0 <= j < |x| ==> r[j] == ResidualColumn(m, a, b, x[j], e[j])
  {
    seq(|x|, j requires 0 <= j < |x| => ResidualColumn(m, a, b, x[j], e[j]))
  }

  /** `a * e`: column j times e[j]. */
  function ScaleCols(a: Mat, e: Vec): (r: Mat)
    ensures |r| == |a|
    ensures forall j :: 0 <= j < |a| ==> r[j] == Scale(Entry(e, j), a[j])
    ensures forall rows: nat :: IsMat(a, rows, |a|) ==> IsMat(r, rows, |a|)
  {
    seq(|a|, j requires 0 <= j < |a| => Scale(Entry(e, j), a[j]))
  }

  /** The matrix expression A X - (B X) * E is the residual, column by column. */
  lemma ResidualByColumn(m: nat, a: Mat, b: Option<Mat>, x: Mat, e: Vec)
    requires |e| == |x|
    ensures SubMat(MatMul(m, a, x), ScaleCols(Apply(m, b, x), e)) == Residual(m, a, b, x, e)
  {
    hide MatVec, Scale, Sub;
    forall j | 0 <= j < |x| ensures Apply(m, b, x)[j] == Image(m, b, x[j]) {}
  }

  /** A pair has no residual exactly when it is an eigenpair of the pencil. */
  lemma NoResidual(m: nat, a: Mat, b: Option<Mat>, x: Vec, e: real)
    requires |x| == m
    ensures ResidualColumn(m, a, b, x, e) == Zero(m) <==> MatVec(m, a, x) == Scale(e, Image(m, b, x))
  {
    hide MatVec, Scale;
    var ax, ebx := MatVec(m, a, x), Scale(e, Image(m, b, x));
    assert ResidualColumn(m, a, b, x, e) == Sub(ax, ebx);
    if Sub(ax, ebx) == Zero(m) {
      forall i | 0 <= i < m ensures ax[i] == ebx[i] {
        assert Sub(ax, ebx)[i] == 0.0;
      }
    }
  }

  lemma ApplyNone(m: nat, x: Mat)
    ensures Apply(m, None, x) == x
  {
  }

  lemma ApplyColumn(m: nat, a: Option<Mat>, x: Mat, j: nat)
    requires j < |x|
    ensures Apply(m, a, x)[j] == Image(m, a, x[j])
  {
  }

  /** The number of leading pairs that pass the convergence test. */
  function Leading(ker: Kernels, r: Mat, x: Mat, e: Vec, from: nat): (c: nat)
    requires |r| == |x| == |e| && from <= |x|
    ensures from <= c <= |x|
    ensures forall j :: from <= j < c ==> ker.converged(r[j], x[j], e[j])
    ensures c < |x| ==> !ker.converged(r[c], x[c], e[c])
    decreases |x| - from
  {
    if from < |x| && ker.converged(r[from], x[from], e[from]) then Leading(ker, r, x, e, from + 1) else from
  }

  lemma {:induction false} LeadingAtLeast(ker: Kernels, r: Mat, x: Mat, e: Vec, from: nat, c: nat)
    requires |r| == |x| == |e| && from <= c <= |x|
    requires forall j :: from <= j < c ==> ker.converged(r[j], x[j], e[j])
    ensures Leading(ker, r, x, e, from) >= c
    decreases c - from
  {
    if from < c {
      LeadingAtLeast(ker, r, x, e, from + 1, c);
    }
  }

  // ------------------------------------------------------------------ problem sizes

  /** The sizes chosen by `_lobpcg` and its applicability test. */
  function Sizes(m: nat, k: Option<nat>, n: Option<nat>, xCols: Option<nat>): (r: Result<(nat, nat), Error>)
    ensures r.Err? <==> m < 3 * (if xCols.Some? then xCols.value else if n.Some? then n.value else if k.Some? then k.value else 1)
    ensures r.Ok? ==> 3 * r.value.1 <= m
    ensures r.Ok? && k.Some? ==> r.value.0 == k.value
    ensures r.Ok? && k.None? ==> r.value.0 == if xCols.Some? then xCols.value else 1
    ensures r.Ok? && xCols.Some? ==> r.value.1 == xCols.value
    ensures r.Ok? && xCols.None? ==> r.value.1 == if n.Some? then n.value else r.value.0
  {
    var kk := if k.Some? then k.value else if xCols.Some? then xCols.value else 1;
    var nn := if xCols.Some? then xCols.value else if n.Some? then n.value else kk;
    if m < 3 * nn then Err(TooFewRows) else Ok((kk, nn))
  }

  // ------------------------------------------------------------------ the Rayleigh-Ritz steps

  /** The outcome of a step: new vectors and values for the unlocked pairs, and the directions P. */
  datatype Step = Step(x: Mat, e: Vec, p: Mat)

  /** `v[:k]` */
  function Take(v: Vec, k: nat): Vec { v[..Min(k, |v|)] }

  /** The first step, the same for both methods. */
  function FirstStep(ker: Kernels, m: nat, a: Mat, x0: Mat, largest: bool): Step {
    var n, ri := |x0|, ker.ritz(x0);
    var ez := ker.symeig(QForm(n, QForm(m, a, x0), ri), largest);
    Step(MatMul(m, x0, MatMul(n, ri, ez.1)), ez.0, [])
  }

  /** The basic step on the search basis `s`.  P is cut from column n, not n - nc, of the eigenvectors. */
  function BasicStep(ker: Kernels, m: nat, n: nat, nc: nat, a: Mat, s: Mat, largest: bool): Step
    requires nc <= n
  {
    var w, ri := |s|, ker.ritz(s);
    var ez := ker.symeig(QForm(w, QForm(m, a, s), ri), largest);
    Step(MatMul(m, s, MatMul(w, ri, Cols(ez.1, 0, n - nc))),
         Take(ez.0, n - nc),
         MatMul(m, s, MatMul(w, ri, Cols(ez.1, n, 2 * n - nc))))
  }

  /** The part of the eigenvectors whose basis spans the directions of the orthogonal step. */
  function Corner(z: Mat, d: nat): Mat {
    TransposeTop(Cols(z, d, |z|), d)
  }

  function OrthoStep(ker: Kernels, m: nat, n: nat, nc: nat, a: Mat, s: Mat, largest: bool): Step
    requires nc <= n
  {
    var w, d := |s|, n - nc;
    var ez := ker.symeig(QForm(m, a, s), largest);
    Step(MatMul(m, s, Cols(ez.1, 0, d)),
         Take(ez.0, d),
         MatMul(m, s, MatMul(w, Cols(ez.1, d, |ez.1|), ker.basis(Corner(ez.1, d)))))
  }

  /** The rows and columns of the matrix given to `basis` when the search basis has `w` columns. */
  predicate Tall(n: nat, nc: nat, w: nat)
    requires nc <= n
  {
    w - (n - nc) >= n - nc
  }

  lemma FirstShape(ker: Kernels, m: nat, a: Mat, x0: Mat, largest: bool)
    requires Shapes(ker)
    ensures var step := FirstStep(ker, m, a, x0, largest);
            IsMat(step.x, m, |x0|) && |step.e| == |x0| && step.p == []
  {
    hide Shapes, QForm, MatMul;
    KernelShapes(ker, x0, largest, m);
    KernelShapes(ker, QForm(|x0|, QForm(m, a, x0), ker.ritz(x0)), largest, m);
  }

  lemma BasicShape(ker: Kernels, m: nat, n: nat, nc: nat, a: Mat, s: Mat, largest: bool)
    requires Shapes(ker) && nc <= n && n - nc <= |s|
    ensures var step := BasicStep(ker, m, n, nc, a, s, largest);
            && IsMat(step.x, m, n - nc) && |step.e| == n - nc && IsMat(step.p, m, |step.p|)
            && |step.p| == if n <= |s| then Min(2 * n - nc, |s|) - n else 0
  {
    hide Shapes, QForm, Cols, MatMul;
    KernelShapes(ker, s, largest, m);
    KernelShapes(ker, QForm(|s|, QForm(m, a, s), ker.ritz(s)), largest, m);
  }

  /** The basis gets a matrix of |s| - (n - nc) rows and n - nc columns, so P has the smaller number of columns. */
  lemma OrthoShape(ker: Kernels, m: nat, n: nat, nc: nat, a: Mat, s: Mat, largest: bool)
    requires Shapes(ker) && nc <= n && n - nc <= |s|
    ensures var step := OrthoStep(ker, m, n, nc, a, s, largest);
            && IsMat(step.x, m, n - nc) && |step.e| == n - nc
            && IsMat(step.p, m, Min(|s| - (n - nc), n - nc))
            && IsMat(Corner(ker.symeig(QForm(m, a, s), largest).1, n - nc), |s| - (n - nc), n - nc)
  {
    hide Shapes, QForm, Cols, MatMul, TransposeTop;
    KernelShapes(ker, QForm(m, a, s), largest, m);
    KernelShapes(ker, Corner(ker.symeig(QForm(m, a, s), largest).1, n - nc), largest, |s| - (n - nc));
  }
}
