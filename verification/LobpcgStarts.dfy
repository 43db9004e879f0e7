/** Starting vectors for which the orthogonal method fails on the CPU, and starts for which it does not. */
module LobpcgStarts {
  import opened LinearAlgebra
  import opened Wrappers
  import opened Forms
  import opened LobpcgSteps
  import opened LobpcgOrtho
  import opened Lobpcg

  /** A start whose residuals lose no column to svqb never fails. */
  lemma LosslessNeverFails(p: Params, ker: Kernels, a: Mat, b: Option<Mat>, x: Mat, e: Vec)
    requires Shapes(ker) && |e| == |x| == p.n && 3 * p.n <= p.m
    requires var start := FirstOrtho(p, ker, a, b, x, e);
             IsMat(start.r, p.m, |start.r|) && Lossless(ker, p.m, p.orthoIMax, p.orthoJMax, b, start.r, start.x)
    ensures !Starves(p, ker, a, b, x, e)
  {
    hide Shapes, FirstStep, Residual, Leading, Outer, OuterLossless, Apply;
    FirstShape(ker, p.m, a, x, p.largest);
    var start := FirstOrtho(p, ker, a, b, x, e);
    OuterWidth(ker, p.m, p.orthoIMax, p.orthoJMax, b, start.r, Apply(p.m, b, start.r), start.x);
  }

  /** With the initial zero values the residual is A X. */
  lemma ZeroResidual(m: nat, a: Mat, b: Option<Mat>, x: Mat)
    ensures Residual(m, a, b, x, Zero(|x|)) == MatMul(m, a, x)
  {
    hide MatVec, Apply;
    forall j | 0 <= j < |x| ensures ResidualColumn(m, a, b, x[j], 0.0) == MatVec(m, a, x[j]) {
      var bx := Apply(m, b, [x[j]])[0];
      forall i | 0 <= i < |bx| ensures Entry(Scale(0.0, bx), i) == 0.0 {}
    }
  }

  /** A start that spans an invariant subspace (A X = X C, exact eigenvectors in particular) leaves no new
      direction, so on the CPU the second update fails whenever it is reached with an unconverged pair. */
  lemma InvariantStartFails(p: Params, ker: Kernels, a: Mat, b: Option<Mat>, x: Mat, c: Mat)
    requires Shapes(ker) && |x| == p.n && p.m > 0 && p.orthoIMax > 0 && p.orthoJMax > 0
    requires var x1 := FirstStep(ker, p.m, a, x, p.largest).x;
             IsMat(c, |x1|, |x1|) && Orthonormal(p.m, b, x1) && MatMul(p.m, a, x1) == MatMul(p.m, x1, c)
    ensures var count := FirstOrtho(p, ker, a, b, x, Zero(p.n)).count;
            Starves(p, ker, a, b, x, Zero(p.n))
            <==> p.variant.Ortho? && !p.cuda && p.niter != 1 && count < p.k && count < p.n
  {
    hide Shapes, FirstStep, Residual, Leading, MatMul, Orthonormal, OrthoOf;
    FirstShape(ker, p.m, a, x, p.largest);
    var x1 := FirstStep(ker, p.m, a, x, p.largest).x;
    ZeroResidual(p.m, a, b, x1);
    CollinearIsEmpty(ker, p.m, p.orthoIMax, p.orthoJMax, b, x1, c);
  }

  /** Kernels that are exact for the 1 x 1 matrices of the example. */
  function ExampleKernels(): Kernels {
    Kernels((s: Mat) => Identity(|s|),
            (s: Mat, l: bool) => (seq(|s|, i requires 0 <= i < |s| => Entry(s[i], i)), Identity(|s|)),
            (s: Mat) => if s == [] then [] else s[..Min(|s[0]|, |s|)],
            (x: real) => 1.0,
            1.0,
            (r: Vec, x: Vec, e: real) => r == Zero(|r|),
            (u: Mat) => true,
            (v: Mat, u: Mat) => true)
  }

  lemma ExampleShapes()
    ensures Shapes(ExampleKernels())
  {
    hide Unit, Identity;
    var ker := ExampleKernels();
    forall s: Mat ensures BasisOf(s, ker.basis(s)) {
      if s != [] {
        assert ker.basis(s) == s[..Min(|s[0]|, |s|)];
      }
    }
  }

  /** The identity on three rows, and its first unit vector as the start. */
  function ExampleParams(): Params {
    Params(3, 1, 1, 1000, 3, 3, Ortho, true, false)
  }

  function ExampleStart(): (x: Mat)
    ensures IsMat(x, 3, 1)
  {
    [Unit(3, 0)]
  }

  lemma ExampleProduct(c: Mat)
    requires c == Identity(1)
    ensures MatMul(3, ExampleStart(), c) == ExampleStart()
  {
    var e := Unit(3, 0);
    assert c[0] == [1.0];
    forall i | 0 <= i < 3 ensures RowDot([e], [1.0], i) == e[i] {
      RowDotSingle([e], [1.0], i, 0, e[i]);
    }
    assert MatVec(3, [e], [1.0]) == e;
  }

  lemma ExampleFirst()
    ensures FirstStep(ExampleKernels(), 3, Identity(3), ExampleStart(), true).x == ExampleStart()
  {
    hide QForm, MatVec;
    IdentityApply(1, Unit(1, 0));
    assert MatMul(1, Identity(1), Identity(1)) == Identity(1);
    ExampleProduct(Identity(1));
  }

  lemma ExampleStarves()
    ensures Shapes(ExampleKernels())
    ensures Starves(ExampleParams(), ExampleKernels(), Identity(3), None, ExampleStart(), Zero(1))
  {
    hide FirstStep, MatVec, Shapes, OrthoOf, Dot;
    var ker, p, x := ExampleKernels(), ExampleParams(), ExampleStart();
    ExampleShapes();
    ExampleFirst();
    ExampleProduct(Identity(1));
    IdentityApply(3, Unit(3, 0));
    assert MatMul(3, Identity(3), x) == x;
    DotUnit(3, 0, Unit(3, 0));
    InvariantStartFails(p, ker, Identity(3), None, x, Identity(1));
    ZeroResidual(3, Identity(3), None, x);
    assert Unit(3, 0)[0] != Zero(3)[0];
  }

  /** From the initial values to the first failure: a new worker, watched for `watch` turns. */
  method RunFrom(p: Params, ker: Kernels, a: Mat, b: Option<Mat>, iK: Option<Mat>, x: Mat, watch: nat)
    returns (r: Result<(), Error>)
    requires Shapes(ker) && 3 * p.n <= p.m && IsMat(x, p.m, p.n)
    ensures r.Err? <==> watch > 0 && Starves(p, ker, a, b, x, Zero(p.n))
    ensures r.Err? ==> r.error == NotTall
  {
    hide Shapes, Starves, Locked, Stops;
    var worker := new Worker(p, ker, a, b, iK, x);
    var stopped;
    ghost var trace;
    stopped, r, trace := worker.Run(watch);
  }

  /** `lobpcg` started at an exact eigenvector of the identity fails in its second update. */
  method FailingRun(watch: nat) returns (r: Result<(), Error>)
    ensures r.Err? <==> watch > 0
    ensures r.Err? ==> r.error == NotTall
  {
    hide Starves, Shapes, Zero, Unit, Identity, ExampleKernels;
    ExampleStarves();
    r := RunFrom(ExampleParams(), ExampleKernels(), Identity(3), None, None, ExampleStart(), watch);
  }
}
