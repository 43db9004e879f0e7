/**
 What the Rayleigh-Ritz steps achieve with an exact eigensolver: B-orthonormal vectors, diagonal in A with the
 returned values, which are the extreme ones of the trial space, and directions P B-orthogonal to them.
 */
module LobpcgRitz {
  import opened LinearAlgebra
  import opened Wrappers
  import opened Forms
  import opened LobpcgSteps

  // ------------------------------------------------------------------ exact kernels

  /** Values on the wanted side come first. */
  predicate Ordered(largest: bool, e: Vec) {
    forall i, j :: 0 <= i <= j < |e| ==> if largest then e[i] >= e[j] else e[i] <= e[j]
  }

  /** Eigenvalues in order, and orthonormal eigenvectors. */
  ghost predicate EigenOf(s: Mat, largest: bool, e: Vec, z: Mat) {
    && |e| == |s| && Square(z, |s|) && Ordered(largest, e)
    && forall j :: 0 <= j < |s| ==> MatVec(|s|, s, z[j]) == Scale(e[j], z[j])
  }

  /** The eigensolver is exact on symmetric matrices. */
  ghost predicate ExactEig(ker: Kernels) {
    forall s: Mat, l: bool :: Symmetric(s) ==> EigenOf(s, l, ker.symeig(s, l).0, ker.symeig(s, l).1)
  }

  lemma EigAt(ker: Kernels, s: Mat, l: bool)
    requires ExactEig(ker) && Symmetric(s)
    ensures EigenOf(s, l, ker.symeig(s, l).0, ker.symeig(s, l).1)
  {
  }

  /** `basis` returns orthonormal columns that span the given ones. */
  ghost predicate SpanningBasis(rows: nat, s: Mat, q: Mat) {
    && IsMat(q, rows, |q|) && Orthonormal(rows, None, q)
    && forall j :: 0 <= j < |s| ==> MatVec(rows, q, Coords(q, s[j])) == s[j]
  }

  ghost predicate ExactBasis(ker: Kernels) {
    forall s: Mat, rows: nat {:trigger ker.basis(s), IsMat(s, rows, |s|)} ::
      IsMat(s, rows, |s|) ==> SpanningBasis(rows, s, ker.basis(s))
  }

  lemma BasisAt(ker: Kernels, s: Mat, rows: nat)
    requires ExactBasis(ker) && IsMat(s, rows, |s|)
    ensures SpanningBasis(rows, s, ker.basis(s))
  {
  }

  /** Ri^T (S^T B S) Ri = I for an invertible Ri: the Cholesky factorisation of S^T B S succeeded. */
  ghost predicate RitzOf(m: nat, b: Option<Mat>, s: Mat, ri: Mat) {
    && IsMat(ri, |s|, |s|)
    && Orthonormal(m, b, MatMul(m, s, ri))
    && forall g: Vec {:trigger InSpan(|s|, ri, g)} :: |g| == |s| ==> InSpan(|s|, ri, g)
  }

  // ------------------------------------------------------------------ Ritz pairs of a trial space

  /** x_i^T A x_j = e_i if i = j, else 0. */
  ghost predicate Diagonal(m: nat, a: Mat, x: Mat, e: Vec)
    requires |e| == |x|
  {
    forall i, j :: 0 <= i < |x| && 0 <= j < |x| ==> Form(m, Some(a), x[i], x[j]) == if i == j then e[i] else 0.0
  }

  /** On the side asked for, `e` bounds the form of A by that of B at y. */
  predicate Bounds(m: nat, a: Mat, b: Option<Mat>, largest: bool, e: real, y: Vec) {
    var ya, yb := Form(m, Some(a), y, y), Times(e, Form(m, b, y, y));
    if largest then ya <= yb else ya >= yb
  }

  /** y is B-orthogonal to the first j vectors. */
  ghost predicate Beyond(m: nat, b: Option<Mat>, x: Mat, j: nat, y: Vec)
    requires j <= |x|
  {
    forall i :: 0 <= i < j ==> Form(m, b, x[i], y) == 0.0
  }

  /** Each value is extreme on the part of the trial space that is B-orthogonal to the vectors before it. */
  ghost predicate Extreme(m: nat, a: Mat, b: Option<Mat>, trial: Mat, largest: bool, x: Mat, e: Vec)
    requires |e| == |x|
  {
    forall j, y :: 0 <= j < |x| && InSpan(m, trial, y) && Beyond(m, b, x, j, y) ==> Bounds(m, a, b, largest, e[j], y)
  }

  /** B-orthonormal, diagonal in A, in the trial space, and extreme there. */
  ghost predicate RitzPairs(m: nat, a: Mat, b: Option<Mat>, trial: Mat, largest: bool, x: Mat, e: Vec) {
    && |e| == |x| && IsMat(x, m, |x|)
    && Orthonormal(m, b, x) && Diagonal(m, a, x, e)
    && (forall j :: 0 <= j < |x| ==> InSpan(m, trial, x[j]))
    && Extreme(m, a, b, trial, largest, x, e)
  }

  // ------------------------------------------------------------------ the argument in coordinates

  /** The trial columns are B-orthonormal, and (e, z) are the eigenpairs of T^T A T. */
  ghost predicate Solved(m: nat, a: Mat, b: Option<Mat>, t: Mat, largest: bool, e: Vec, z: Mat) {
    && Symmetric(a) && |a| == m && IsMat(t, m, |t|)
    && Orthonormal(m, b, t)
    && EigenOf(QForm(m, a, t), largest, e, z)
  }

  lemma QFormEntry(m: nat, a: Mat, t: Mat, i: nat, j: nat)
    requires i < |t| && j < |t|
    ensures QForm(m, a, t)[j][i] == Form(m, Some(a), t[i], t[j])
  {
  }

  lemma QFormGram(m: nat, a: Mat, t: Mat)
    ensures GramOf(m, Some(a), t, QForm(m, a, t))
  {
    hide Form, QForm;
    forall i, j | 0 <= i < |t| && 0 <= j < |t| ensures QForm(m, a, t)[j][i] == Form(m, Some(a), t[i], t[j]) {
      QFormEntry(m, a, t, i, j);
    }
  }

  lemma QFormSymmetric(m: nat, a: Mat, t: Mat)
    requires Symmetric(a) && |a| == m && IsMat(t, m, |t|)
    ensures Symmetric(QForm(m, a, t))
  {
    hide Form, QForm;
    QFormGram(m, a, t);
    GramSymmetric(m, Some(a), t, QForm(m, a, t));
  }

  /** (T c)^T A (T d) = c^T (T^T A T) d */
  lemma FormInTrial(m: nat, a: Mat, t: Mat, c: Vec, d: Vec)
    requires Symmetric(a) && |a| == m && IsMat(t, m, |t|) && |c| == |d| == |t|
    ensures Form(m, Some(a), MatVec(m, t, c), MatVec(m, t, d)) == Dot(c, MatVec(|t|, QForm(m, a, t), d))
  {
    hide Dot, MatVec, Form, QForm;
    QFormGram(m, a, t);
    FormInBasis(m, Some(a), t, QForm(m, a, t), c, d);
  }

  /** Entrywise products. */
  function Products(e: Vec, h: Vec): (r: Vec)
    requires |e| == |h|
    ensures |r| == |e| && forall i :: 0 <= i < |e| ==> r[i] == Times(e[i], h[i])
  {
    seq(|e|, i requires 0 <= i < |e| => Times(e[i], h[i]))
  }

  /** g^T M g = sum of e_k h_k^2 in the coordinates h along the eigenvectors. */
  lemma EnergyInCoords(s: Mat, l: bool, e: Vec, z: Mat, g: Vec)
    requires EigenOf(s, l, e, z) && Symmetric(s) && |g| == |s|
    ensures var h := Coords(z, g); Dot(g, MatVec(|s|, s, g)) == Dot(Products(e, h), h) && Dot(g, g) == Dot(h, h)
  {
    hide Dot, MatVec, Form;
    var n, h := |s|, Coords(z, g);
    SquareComplete(z, n, g);
    CombinationDot(n, z, h, g);
    FormRight(n, Some(s), g, z, h);
    FormIsDot(n, s, g, g);
    forall k | 0 <= k < n ensures FormRow(n, Some(s), g, z)[k] == Products(e, h)[k] {
      FormIsDot(n, s, g, z[k]);
      DotScale(g, e[k], z[k]);
      DotSymmetric(g, z[k]);
    }
    assert FormRow(n, Some(s), g, z) == Products(e, h);
  }

  lemma FormIsDot(m: nat, a: Mat, x: Vec, y: Vec)
    ensures Form(m, Some(a), x, y) == Dot(x, MatVec(m, a, y))
  {
  }

  lemma TimesBound(e: real, f: real, h: real)
    requires e <= f
    ensures Times(Times(e, h), h) <= Times(f, Times(h, h))
  {
    SquareZero(h);
    assert Times(Times(e, h), h) == e * (h * h);
    assert (f - e) * (h * h) >= 0.0;
  }

  lemma TimesAdd(f: real, x: real, y: real)
    ensures Times(f, x + y) == Times(f, x) + Times(f, y)
  {
  }

  /** If every value with a nonzero coordinate is at most f, so is the energy relative to the length. */
  lemma {:induction false} EnergyAtMost(e: Vec, h: Vec, f: real)
    requires |e| == |h|
    requires forall k :: 0 <= k < |e| ==> h[k] == 0.0 || e[k] <= f
    ensures Dot(Products(e, h), h) <= Times(f, Dot(h, h))
  {
    hide Times;
    if e == [] {
      TimesZero(f);
    } else {
      EnergyAtMost(e[1..], h[1..], f);
      assert Products(e, h)[1..] == Products(e[1..], h[1..]);
      if h[0] == 0.0 {
        TimesZero(Times(e[0], h[0]));
        TimesZero(h[0]);
        TimesZero(f);
      } else {
        TimesBound(e[0], f, h[0]);
      }
      TimesAdd(f, Times(h[0], h[0]), Dot(h[1..], h[1..]));
    }
  }

  lemma TimesZero(f: real)
    ensures Times(f, 0.0) == 0.0 && Times(0.0, f) == 0.0
  {
  }

  function Negated(e: Vec): (r: Vec)
    ensures |r| == |e| && forall k :: 0 <= k < |e| ==> r[k] == -e[k]
  {
    seq(|e|, k requires 0 <= k < |e| => -e[k])
  }

  lemma TimesNegative(x: real, y: real)
    ensures Times(-x, y) == -Times(x, y)
  {
  }

  lemma {:induction false} NegatedEnergy(e: Vec, h: Vec)
    requires |e| == |h|
    ensures Dot(Products(Negated(e), h), h) == -Dot(Products(e, h), h)
  {
    hide Times;
    if e != [] {
      NegatedEnergy(e[1..], h[1..]);
      assert Negated(e)[1..] == Negated(e[1..]);
      assert Products(Negated(e), h)[1..] == Products(Negated(e[1..]), h[1..]);
      assert Products(e, h)[1..] == Products(e[1..], h[1..]);
      TimesNegative(e[0], h[0]);
      TimesNegative(Times(e[0], h[0]), h[0]);
    }
  }

  lemma EnergyAtLeast(e: Vec, h: Vec, f: real)
    requires |e| == |h|
    requires forall k :: 0 <= k < |e| ==> h[k] == 0.0 || e[k] >= f
    ensures Dot(Products(e, h), h) >= Times(f, Dot(h, h))
  {
    hide Dot, Times;
    EnergyAtMost(Negated(e), h, -f);
    NegatedEnergy(e, h);
    TimesNegative(f, Dot(h, h));
  }

  // ------------------------------------------------------------------ the pairs

  /** The first `d` Ritz vectors. */
  function RitzVectors(m: nat, t: Mat, z: Mat, d: nat): (r: Mat)
    requires d <= |z|
    ensures IsMat(r, m, d)
    ensures forall j :: 0 <= j < d ==> r[j] == MatVec(m, t, z[j])
  {
    seq(d, j requires 0 <= j < d => MatVec(m, t, z[j]))
  }

  lemma RitzForms(m: nat, a: Mat, b: Option<Mat>, t: Mat, largest: bool, e: Vec, z: Mat, i: nat, j: nat)
    requires Solved(m, a, b, t, largest, e, z) && i < |t| && j < |t|
    ensures Form(m, b, MatVec(m, t, z[i]), MatVec(m, t, z[j])) == if i == j then 1.0 else 0.0
    ensures Form(m, Some(a), MatVec(m, t, z[i]), MatVec(m, t, z[j])) == if i == j then e[i] else 0.0
  {
    hide Dot, MatVec, QForm;
    FormOrthonormal(m, b, t, z[i], z[j]);
    assert Form(|t|, None, z[i], z[j]) == Dot(z[i], z[j]);
    FormInTrial(m, a, t, z[i], z[j]);
    DotScale(z[i], e[j], z[j]);
  }

  /** The form of A at a trial vector B-orthogonal to the first j Ritz vectors is bounded by value j. */
  lemma RitzBounds(m: nat, a: Mat, b: Option<Mat>, t: Mat, largest: bool, e: Vec, z: Mat, j: nat, g: Vec)
    requires Solved(m, a, b, t, largest, e, z) && j < |t| && |g| == |t|
    requires forall i :: 0 <= i < j ==> Form(m, b, MatVec(m, t, z[i]), MatVec(m, t, g)) == 0.0
    ensures Bounds(m, a, b, largest, e[j], MatVec(m, t, g))
  {
    hide Dot, MatVec, QForm, Form, Times;
    var q, h := QForm(m, a, t), Coords(z, g);
    QFormSymmetric(m, a, t);
    EnergyInCoords(q, largest, e, z, g);
    FormInTrial(m, a, t, g, g);
    FormOrthonormal(m, b, t, g, g);
    forall i | 0 <= i < j ensures h[i] == 0.0 {
      FormOrthonormal(m, b, t, z[i], g);
    }
    if largest {
      EnergyAtMost(e, h, e[j]);
    } else {
      EnergyAtLeast(e, h, e[j]);
    }
  }

  lemma RitzExtreme(m: nat, a: Mat, b: Option<Mat>, t: Mat, largest: bool, e: Vec, z: Mat, d: nat)
    requires Solved(m, a, b, t, largest, e, z) && d <= |t|
    ensures Extreme(m, a, b, t, largest, RitzVectors(m, t, z, d), e[..d])
  {
    hide MatVec, QForm, Form, Bounds;
    var x := RitzVectors(m, t, z, d);
    forall j, y | 0 <= j < d && InSpan(m, t, y) && Beyond(m, b, x, j, y) ensures Bounds(m, a, b, largest, e[..d][j], y) {
      var g :| |g| == |t| && y == MatVec(m, t, g);
      forall i | 0 <= i < j ensures Form(m, b, MatVec(m, t, z[i]), y) == 0.0 {
        assert x[i] == MatVec(m, t, z[i]);
      }
      RitzBounds(m, a, b, t, largest, e, z, j, g);
    }
  }

  /** The first `d` Ritz vectors and values of a B-orthonormal trial basis. */
  lemma RitzSolves(m: nat, a: Mat, b: Option<Mat>, t: Mat, largest: bool, e: Vec, z: Mat, d: nat)
    requires Solved(m, a, b, t, largest, e, z) && d <= |t|
    ensures RitzPairs(m, a, b, t, largest, RitzVectors(m, t, z, d), e[..d])
  {
    hide MatVec, QForm, Form, Extreme, InSpan;
    var x := RitzVectors(m, t, z, d);
    forall i, j | 0 <= i < d && 0 <= j < d
      ensures Form(m, b, x[i], x[j]) == (if i == j then 1.0 else 0.0)
      ensures Form(m, Some(a), x[i], x[j]) == if i == j then e[..d][i] else 0.0
    {
      RitzForms(m, a, b, t, largest, e, z, i, j);
    }
    forall j | 0 <= j < d ensures InSpan(m, t, x[j]) {
      Member(m, t, z[j]);
    }
    RitzExtreme(m, a, b, t, largest, e, z, d);
  }

  // ------------------------------------------------------------------ the transformed trial basis

  /** Ri^T (S^T A S) Ri = (S Ri)^T A (S Ri) */
  lemma QFormTwice(m: nat, a: Mat, s: Mat, ri: Mat)
    requires Symmetric(a) && |a| == m && IsMat(s, m, |s|) && IsMat(ri, |s|, |s|)
    ensures QForm(|s|, QForm(m, a, s), ri) == QForm(m, a, MatMul(m, s, ri))
  {
    hide Form, MatVec, QForm;
    var w, t := |s|, MatMul(m, s, ri);
    var q, r := QForm(w, QForm(m, a, s), ri), QForm(m, a, t);
    forall i, j | 0 <= i < w && 0 <= j < w ensures q[j][i] == r[j][i] {
      QFormEntry(w, QForm(m, a, s), ri, i, j);
      QFormEntry(m, a, t, i, j);
      FormInTrial(m, a, s, ri[i], ri[j]);
      FormIsDot(w, QForm(m, a, s), ri[i], ri[j]);
    }
    forall j | 0 <= j < w ensures q[j] == r[j] {}
  }

  /** The products in the code, taken from the right, are the Ritz vectors. */
  lemma ProductIsRitz(m: nat, s: Mat, ri: Mat, z: Mat, lo: nat, hi: nat)
    requires IsMat(ri, |s|, |s|) && IsMat(z, |s|, |z|) && lo <= hi <= |z|
    ensures MatMul(m, s, MatMul(|s|, ri, z[lo..hi])) == RitzVectors(m, MatMul(m, s, ri), z, |z|)[lo..hi]
  {
    hide MatVec;
    forall j | lo <= j < hi ensures MatVec(m, s, MatVec(|s|, ri, z[j])) == MatVec(m, MatMul(m, s, ri), z[j]) {
      ProductApply(m, |s|, s, ri, z[j]);
    }
  }

  /** With an invertible Ri, S and S Ri have the same combinations. */
  lemma SpanTransformed(m: nat, b: Option<Mat>, s: Mat, ri: Mat, y: Vec)
    requires RitzOf(m, b, s, ri) && InSpan(m, s, y)
    ensures InSpan(m, MatMul(m, s, ri), y)
  {
    hide MatVec, Orthonormal;
    var g: Vec :| |g| == |s| && y == MatVec(m, s, g);
    assert InSpan(|s|, ri, g);
    var d: Vec :| |d| == |ri| && g == MatVec(|s|, ri, d);
    ProductApply(m, |s|, s, ri, d);
    Member(m, MatMul(m, s, ri), d);
  }

  lemma SpanBack(m: nat, b: Option<Mat>, s: Mat, ri: Mat, y: Vec)
    requires RitzOf(m, b, s, ri) && InSpan(m, MatMul(m, s, ri), y)
    ensures InSpan(m, s, y)
  {
    hide MatVec, Orthonormal;
    var t := MatMul(m, s, ri);
    var d: Vec :| |d| == |t| && y == MatVec(m, t, d);
    ProductApply(m, |s|, s, ri, d);
    Member(m, s, MatVec(|s|, ri, d));
  }

  lemma SameTrial(m: nat, a: Mat, b: Option<Mat>, s: Mat, ri: Mat, largest: bool, x: Mat, e: Vec)
    requires RitzOf(m, b, s, ri) && RitzPairs(m, a, b, MatMul(m, s, ri), largest, x, e)
    ensures RitzPairs(m, a, b, s, largest, x, e)
  {
    hide MatVec, Orthonormal, InSpan, RitzOf, Bounds, Beyond, Diagonal;
    var t := MatMul(m, s, ri);
    forall j | 0 <= j < |x| ensures InSpan(m, s, x[j]) {
      SpanBack(m, b, s, ri, x[j]);
    }
    forall j, y | 0 <= j < |x| && InSpan(m, s, y) && Beyond(m, b, x, j, y) ensures Bounds(m, a, b, largest, e[j], y) {
      SpanTransformed(m, b, s, ri, y);
    }
  }

  /** All Ritz pairs of a trial space, computed through the transformation Ri. */
  lemma TransformedRitz(ker: Kernels, m: nat, a: Mat, b: Option<Mat>, s: Mat, ri: Mat, largest: bool, d: nat)
    requires ExactEig(ker) && Symmetric(a) && |a| == m && IsMat(s, m, |s|) && RitzOf(m, b, s, ri) && d <= |s|
    ensures var ez := ker.symeig(QForm(|s|, QForm(m, a, s), ri), largest);
            && |ez.0| == |s| && IsMat(ez.1, |s|, |s|)
            && RitzPairs(m, a, b, s, largest, RitzVectors(m, MatMul(m, s, ri), ez.1, d), ez.0[..d])
  {
    hide MatVec, Orthonormal, QForm, RitzPairs, Ordered, ExactEig;
    var t := MatMul(m, s, ri);
    QFormTwice(m, a, s, ri);
    QFormSymmetric(m, a, t);
    EigAt(ker, QForm(m, a, t), largest);
    var ez := ker.symeig(QForm(m, a, t), largest);
    RitzSolves(m, a, b, t, largest, ez.0, ez.1, d);
    SameTrial(m, a, b, s, ri, largest, RitzVectors(m, t, ez.1, d), ez.0[..d]);
  }

  // ------------------------------------------------------------------ the three steps

  /** The first step solves the Rayleigh-Ritz problem on the span of the start. */
  lemma FirstRitz(ker: Kernels, m: nat, a: Mat, b: Option<Mat>, x0: Mat, largest: bool)
    requires ExactEig(ker) && Symmetric(a) && |a| == m && IsMat(x0, m, |x0|) && RitzOf(m, b, x0, ker.ritz(x0))
    ensures var step := FirstStep(ker, m, a, x0, largest); RitzPairs(m, a, b, x0, largest, step.x, step.e)
  {
    hide MatVec, Orthonormal, QForm, RitzPairs, ExactEig, InSpan;
    var n, ri := |x0|, ker.ritz(x0);
    TransformedRitz(ker, m, a, b, x0, ri, largest, n);
    var ez := ker.symeig(QForm(n, QForm(m, a, x0), ri), largest);
    ProductIsRitz(m, x0, ri, ez.1, 0, n);
    assert ez.1[0..n] == ez.1 && ez.0[..n] == ez.0;
    assert RitzVectors(m, MatMul(m, x0, ri), ez.1, n)[0..n] == RitzVectors(m, MatMul(m, x0, ri), ez.1, n);
  }

  /** The pairs are the first n - nc of all, and P holds up to n - nc vectors from number n on. */
  predicate CutFrom(step: Step, all: Mat, values: Vec, n: nat, nc: nat)
    requires nc <= n && n - nc <= |all| == |values|
  {
    && step.x == all[..n - nc] && step.e == values[..n - nc]
    && step.p == if n <= |all| then all[n..Min(2 * n - nc, |all|)] else []
  }

  /** The basic step: the first Ritz pairs of the span of S, and as P the Ritz vectors from number n on. */
  lemma BasicRitz(ker: Kernels, m: nat, n: nat, nc: nat, a: Mat, b: Option<Mat>, s: Mat, largest: bool)
    returns (all: Mat, values: Vec)
    requires ExactEig(ker) && Symmetric(a) && |a| == m && IsMat(s, m, |s|) && RitzOf(m, b, s, ker.ritz(s))
    requires nc <= n && n - nc <= |s|
    ensures |all| == |values| == |s| && RitzPairs(m, a, b, s, largest, all, values)
    ensures var step := BasicStep(ker, m, n, nc, a, s, largest);
            RitzPairs(m, a, b, s, largest, step.x, step.e) && CutFrom(step, all, values, n, nc)
  {
    hide MatVec, Orthonormal, QForm, RitzPairs, ExactEig, InSpan;
    var w, ri, d := |s|, ker.ritz(s), n - nc;
    TransformedRitz(ker, m, a, b, s, ri, largest, w);
    TransformedRitz(ker, m, a, b, s, ri, largest, d);
    var ez := ker.symeig(QForm(w, QForm(m, a, s), ri), largest);
    var t := MatMul(m, s, ri);
    all, values := RitzVectors(m, t, ez.1, w), ez.0;
    assert ez.0[..w] == ez.0;
    ProductIsRitz(m, s, ri, ez.1, 0, d);
    assert all[0..d] == all[..d] == RitzVectors(m, t, ez.1, d);
    if n <= w {
      ProductIsRitz(m, s, ri, ez.1, n, Min(2 * n - nc, w));
    }
  }

  /** The directions are orthonormal in B. */
  lemma DirectionsOrthonormal(m: nat, b: Option<Mat>, s: Mat, z: Mat, d: nat, q: Mat)
    requires IsMat(s, m, |s|) && Orthonormal(m, b, s) && Square(z, |s|) && d <= |s|
    requires IsMat(q, |s| - d, |q|) && Orthonormal(|s| - d, None, q)
    ensures Orthonormal(m, b, MatMul(m, s, MatMul(|s|, z[d..], q)))
  {
    hide Form, MatVec, Dot;
    var w, z2 := |s|, z[d..];
    var p := MatMul(m, s, MatMul(w, z2, q));
    assert Orthonormal(w, None, z2);
    forall i, j | 0 <= i < |q| && 0 <= j < |q| ensures Form(m, b, p[i], p[j]) == if i == j then 1.0 else 0.0 {
      var zi, zj := MatVec(w, z2, q[i]), MatVec(w, z2, q[j]);
      FormOrthonormal(m, b, s, zi, zj);
      FormOrthonormal(w, None, z2, q[i], q[j]);
      PlainForm(w, zi, zj);
      PlainForm(w - d, q[i], q[j]);
    }
  }

  lemma PlainForm(m: nat, x: Vec, y: Vec)
    ensures Form(m, None, x, y) == Dot(x, y)
  {
  }

  /** The directions are B-orthogonal to the new vectors. */
  lemma DirectionsOrthogonal(m: nat, b: Option<Mat>, s: Mat, z: Mat, d: nat, q: Mat)
    requires IsMat(s, m, |s|) && Orthonormal(m, b, s) && Square(z, |s|) && d <= |s|
    requires IsMat(q, |s| - d, |q|)
    ensures Orthogonal(m, b, RitzVectors(m, s, z, d), MatMul(m, s, MatMul(|s|, z[d..], q)))
  {
    hide Form, MatVec, Dot;
    var w, z2 := |s|, z[d..];
    var x, p := RitzVectors(m, s, z, d), MatMul(m, s, MatMul(w, z2, q));
    forall i, j | 0 <= i < d && 0 <= j < |q| ensures Form(m, b, x[i], p[j]) == 0.0 {
      var zj := MatVec(w, z2, q[j]);
      FormOrthonormal(m, b, s, z[i], zj);
      FormZero(w, None, z2, z[i], q[j]);
      PlainForm(w, z[i], zj);
    }
  }

  lemma CornerColumn(z: Mat, d: nat, i: nat)
    requires i < d <= |z|
    ensures Corner(z, d)[i] == Row(z[d..], i)
  {
  }

  /** A unit vector in the eigenvectors: its part along the first d, and its part along the basis of the corner. */
  lemma UnitInParts(z: Mat, w: nat, d: nat, q: Mat, i: nat)
    requires Square(z, w) && i < d <= w && SpanningBasis(w - d, Corner(z, d), q)
    ensures var h := Coords(q, Corner(z, d)[i]);
            Unit(w, i) == Add(MatVec(w, z[..d], Row(z, i)[..d]), MatVec(w, MatMul(w, z[d..], q), h))
  {
    hide MatVec, Coords, Orthonormal;
    var z1, z2, k := z[..d], z[d..], Row(z, i);
    SquareUnit(z, w, i);
    MatVecConcat(w, z1, z2, k[..d], k[d..]);
    assert z1 + z2 == z && k[..d] + k[d..] == k;
    CornerColumn(z, d, i);
    assert k[d..] == Row(z2, i);
    ProductApply(w, w - d, z2, q, Coords(q, Corner(z, d)[i]));
  }

  /** The old vectors stay in the span of the new ones and the directions. */
  lemma OldInSpan(m: nat, s: Mat, z: Mat, d: nat, q: Mat, i: nat)
    requires IsMat(s, m, |s|) && Square(z, |s|) && i < d <= |s|
    requires SpanningBasis(|s| - d, Corner(z, d), q)
    ensures InSpan(m, RitzVectors(m, s, z, d) + MatMul(m, s, MatMul(|s|, z[d..], q)), s[i])
  {
    hide MatVec, Coords, Orthonormal, InSpan;
    var w := |s|;
    var z1, k, zq, h := z[..d], Row(z, i)[..d], MatMul(w, z[d..], q), Coords(q, Corner(z, d)[i]);
    var x, p := RitzVectors(m, s, z, d), MatMul(m, s, zq);
    UnitInParts(z, w, d, q, i);
    UnitColumn(m, s, i);
    MatVecAdd(m, s, MatVec(w, z1, k), MatVec(w, zq, h));
    ProductApply(m, w, s, z1, k);
    ProductApply(m, w, s, zq, h);
    assert MatMul(m, s, z1) == x;
    Member(m, x, k);
    Member(m, p, h);
    SpanJoin(m, x, p, MatVec(m, x, k), MatVec(m, p, h));
  }

  /** The orthogonal step: the first Ritz pairs of the span of S; P is B-orthonormal and B-orthogonal to them; and the
      vectors that were replaced stay in the span of the new vectors and P. */
  lemma OrthoRitz(ker: Kernels, m: nat, n: nat, nc: nat, a: Mat, b: Option<Mat>, s: Mat, largest: bool)
    requires ExactEig(ker) && ExactBasis(ker) && Symmetric(a) && |a| == m && IsMat(s, m, |s|) && Orthonormal(m, b, s)
    requires nc <= n && n - nc <= |s|
    ensures var step := OrthoStep(ker, m, n, nc, a, s, largest);
            && RitzPairs(m, a, b, s, largest, step.x, step.e)
            && Orthonormal(m, b, step.p) && Orthogonal(m, b, step.x, step.p) && Covers(m, s, step.p)
            && Covers(m, step.x + step.p, s[..n - nc])
  {
    hide MatVec, QForm, RitzPairs, ExactEig, ExactBasis, Ordered, Form, InSpan, Orthogonal;
    var w, d := |s|, n - nc;
    QFormSymmetric(m, a, s);
    EigAt(ker, QForm(m, a, s), largest);
    var ez := ker.symeig(QForm(m, a, s), largest);
    var z := ez.1;
    RitzSolves(m, a, b, s, largest, ez.0, z, d);
    assert Cols(z, 0, d) == z[..d] && Cols(z, d, w) == z[d..];
    assert MatMul(m, s, z[..d]) == RitzVectors(m, s, z, d);
    BasisAt(ker, Corner(z, d), w - d);
    var q := ker.basis(Corner(z, d));
    DirectionsOrthonormal(m, b, s, z, d, q);
    DirectionsOrthogonal(m, b, s, z, d, q);
    var zq := MatMul(w, z[d..], q);
    forall i | 0 <= i < d ensures InSpan(m, RitzVectors(m, s, z, d) + MatMul(m, s, zq), s[..d][i]) {
      OldInSpan(m, s, z, d, q, i);
    }
    forall j | 0 <= j < |zq| ensures InSpan(m, s, MatMul(m, s, zq)[j]) {
      Member(m, s, zq[j]);
    }
  }
}
