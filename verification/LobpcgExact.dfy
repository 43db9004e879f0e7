/** One update in exact arithmetic: the search basis stays B-orthonormal and the pairs solve the Rayleigh-Ritz problem. */
module LobpcgExact {
  import opened LinearAlgebra
  import opened Wrappers
  import opened Forms
  import opened LobpcgSteps
  import opened LobpcgOrtho
  import opened LobpcgRitz
  import opened LobpcgGram
  import opened LobpcgSpan

  /** Exact kernels, symmetric A, symmetric definite B, and for the orthogonal method at least two inner turns. */
  ghost predicate Ideal(p: Params, ker: Kernels, a: Mat, b: Option<Mat>) {
    && p.m > 0 && ExactEig(ker) && Symmetric(a) && |a| == p.m && SymmetricOp(p.m, b) && Definite(p.m, b)
    && (p.variant.Ortho? ==>
          && SvqbSetting(ker, p.m, b) && TrueTest(ker, p.m, b) && ExactBasis(ker)
          && p.orthoIMax > 0 && p.orthoJMax >= 2)
  }

  /** The orthogonal step from a B-orthonormal basis that begins with the locked vectors. */
  lemma OrthoStepExact(p: Params, ker: Kernels, a: Mat, b: Option<Mat>, locked: Mat, s: Mat)
    requires Ideal(p, ker, a, b) && p.variant.Ortho? && Shapes(ker)
    requires IsMat(locked, p.m, |locked|) && IsMat(s, p.m, |s|) && Orthonormal(p.m, b, locked + s)
    requires |locked| <= p.n && p.n - |locked| <= |s|
    ensures var step := OrthoStep(ker, p.m, p.n, |locked|, a, s, p.largest);
            && RitzPairs(p.m, a, b, s, p.largest, step.x, step.e)
            && Orthonormal(p.m, b, locked + step.x + step.p)
            && Covers(p.m, step.x + step.p, s[..p.n - |locked|])
            && Covers(p.m, locked + s, locked + step.x + step.p)
  {
    hide Ideal, Shapes, Orthonormal, Orthogonal, Covers, InSpan, Form, OrthoStep, Diagonal, Extreme;
    IdealParts(p, ker, a, b);
    var m, nc := p.m, |locked|;
    var step := OrthoStep(ker, m, p.n, nc, a, s, p.largest);
    SplitOrthonormal(m, b, locked, s);
    OrthoRitz(ker, m, p.n, nc, a, b, s, p.largest);
    OrthoShape(ker, m, p.n, nc, a, s, p.largest);
    RitzCovered(m, a, b, s, p.largest, step.x, step.e);
    CoversOrthogonal(m, b, locked, s, step.x);
    CoversOrthogonal(m, b, locked, s, step.p);
    OrthogonalJoin(m, b, locked, step.x, step.p);
    JoinShape(step.x, step.p, m);
    JoinOrthonormal(m, b, step.x, step.p);
    JoinOrthonormal(m, b, locked, step.x + step.p);
    assert locked + step.x + step.p == locked + (step.x + step.p);
    CoversBoth(m, s, step.x, step.p);
    CoversRight(m, locked, s, step.x + step.p);
    CoversBeside(m, locked, s, step.x + step.p);
  }

  lemma IdealParts(p: Params, ker: Kernels, a: Mat, b: Option<Mat>)
    requires Ideal(p, ker, a, b)
    ensures p.m > 0 && ExactEig(ker) && Symmetric(a) && |a| == p.m && SymmetricOp(p.m, b) && Definite(p.m, b)
    ensures p.variant.Ortho? ==>
              && SvqbSetting(ker, p.m, b) && TrueTest(ker, p.m, b) && ExactBasis(ker)
              && p.orthoIMax > 0 && p.orthoJMax >= 2
  {
  }

  lemma RitzCovered(m: nat, a: Mat, b: Option<Mat>, s: Mat, largest: bool, x: Mat, e: Vec)
    requires RitzPairs(m, a, b, s, largest, x, e)
    ensures Covers(m, s, x) && Orthonormal(m, b, x)
  {
  }

  /** The new block: beside a B-orthonormal V it is B-orthonormal, and nothing of the residuals is lost. */
  lemma BlockExact(p: Params, ker: Kernels, a: Mat, b: Option<Mat>, u: Mat, v: Mat)
    requires Ideal(p, ker, a, b) && p.variant.Ortho? && Shapes(ker)
    requires IsMat(v, p.m, |v|) && IsMat(u, p.m, |u|) && Orthonormal(p.m, b, v)
    ensures var r := OrthoOf(ker, p.m, p.orthoIMax, p.orthoJMax, b, u, v);
            r.Ok? ==>
              && Orthonormal(p.m, b, v + r.value)
              && Covers(p.m, v + r.value, u) && Covers(p.m, v + u, v + r.value)
  {
    hide Ideal, Shapes, Orthonormal, Orthogonal, Covers, OrthoOf, SvqbSetting, TrueTest, OneTurn;
    IdealParts(p, ker, a, b);
    var r := OrthoOf(ker, p.m, p.orthoIMax, p.orthoJMax, b, u, v);
    OrthoOrthogonal(ker, p.m, p.orthoIMax, p.orthoJMax, b, u, v);
    OrthoOrthonormal(ker, p.m, p.orthoIMax, p.orthoJMax, b, u, v);
    OrthoCovers(ker, p.m, p.orthoIMax, p.orthoJMax, b, u, v);
    if r.Ok? {
      BlockShape(ker, p.m, p.orthoIMax, p.orthoJMax, b, u, v);
      JoinOrthonormal(p.m, b, v, r.value);
      CoversBeside(p.m, v, u, r.value);
    }
  }

  lemma BlockShape(ker: Kernels, m: nat, iMax: nat, jMax: nat, b: Option<Mat>, u: Mat, v: Mat)
    requires Shapes(ker) && IsMat(u, m, |u|)
    ensures var r := OrthoOf(ker, m, iMax, jMax, b, u, v); r.Ok? ==> IsMat(r.value, m, |r.value|)
  {
    hide Shapes, Outer, Apply, OuterLossless;
    OuterWidth(ker, m, iMax, jMax, b, u, Apply(m, b, u), v);
  }
}
