/**
 What the orthogonalisation achieves with an exact eigensolver: the result is B-orthonormal and B-orthogonal to V,
 and together with V it spans what U and V spanned.
 */
module LobpcgGram {
  import opened LinearAlgebra
  import opened Wrappers
  import opened Forms
  import opened LobpcgSteps
  import opened LobpcgOrtho
  import opened LobpcgRitz

  // ------------------------------------------------------------------ one whitening

  /** `x ** -0.5` is exact: its square times x is one for positive x. */
  ghost predicate ExactRoots(ker: Kernels) {
    forall x: real :: x > 0.0 ==> Times(x, Times(ker.rsqrt(x), ker.rsqrt(x))) == 1.0
  }

  lemma RootAt(ker: Kernels, x: real)
    requires ExactRoots(ker) && x > 0.0
    ensures Times(x, Times(ker.rsqrt(x), ker.rsqrt(x))) == 1.0 && ker.rsqrt(x) != 0.0
  {
    if ker.rsqrt(x) == 0.0 {
      TimesZero(0.0);
      TimesZero(x);
    }
  }

  /** The columns are pairwise B-orthogonal. */
  ghost predicate Pairwise(m: nat, b: Option<Mat>, u: Mat) {
    forall i, j :: 0 <= i < |u| && 0 <= j < |u| && i != j ==> Form(m, b, u[i], u[j]) == 0.0
  }

  /** Every column has x^T B x > 0. */
  ghost predicate PositiveColumns(m: nat, b: Option<Mat>, u: Mat) {
    forall i :: 0 <= i < |u| ==> Form(m, b, u[i], u[i]) > 0.0
  }

  /** B is symmetric and definite, eigensolver and roots are exact, and the bound is relative. */
  ghost predicate SvqbSetting(ker: Kernels, m: nat, b: Option<Mat>) {
    ExactEig(ker) && ExactRoots(ker) && SymmetricOp(m, b) && Definite(m, b) && 0.0 < ker.tau <= 1.0
  }

  lemma ScaleForms(m: nat, b: Option<Mat>, x: Vec, y: Vec, p: real, q: real)
    requires |x| == |y| == m
    ensures Form(m, b, Scale(p, x), Scale(q, y)) == Times(Times(Form(m, b, x, y), p), q)
  {
    hide Dot, MatVec, Times;
    var yb := Image(m, b, y);
    assert Image(m, b, Scale(q, y)) == Scale(q, yb) by {
      if b.Some? {
        MatVecScale(m, b.value, q, y);
      }
    }
    DotScale(Scale(p, x), q, yb);
    DotSymmetric(Scale(p, x), yb);
    DotScale(yb, p, x);
    DotSymmetric(yb, x);
    TimesCommutes(p, Dot(x, yb));
    TimesCommutes(q, Times(Dot(x, yb), p));
  }

  lemma TimesCommutes(x: real, y: real)
    ensures Times(x, y) == Times(y, x)
  {
  }

  lemma ScaledColumn(ker: Kernels, m: nat, b: Option<Mat>, u: Mat, i: nat)
    requires i < |u|
    ensures Scaled(ker, m, b, u)[i] == Scale(ker.rsqrt(Form(m, b, u[i], u[i])), u[i])
  {
    hide Form, TransposeMul, Apply;
    ProductEntry(m, b, u, u, i, i);
  }

  lemma NormalGramEntry(ker: Kernels, m: nat, b: Option<Mat>, u: Mat, i: nat, j: nat)
    requires i < |u| && j < |u|
    ensures IsMat(NormalGram(ker, m, b, u), |u|, |u|)
    ensures NormalGram(ker, m, b, u)[j][i] ==
            Times(Times(Form(m, b, u[i], u[j]), ker.rsqrt(Form(m, b, u[i], u[i]))), ker.rsqrt(Form(m, b, u[j], u[j])))
  {
    hide Form, TransposeMul, Apply, Times;
    ProductEntry(m, b, u, u, i, i);
    ProductEntry(m, b, u, u, j, j);
    ProductEntry(m, b, u, u, i, j);
  }

  /** The normalized Gram matrix is that of the scaled columns. */
  lemma NormalGramIsGram(ker: Kernels, m: nat, b: Option<Mat>, u: Mat)
    requires IsMat(u, m, |u|) && SymmetricOp(m, b)
    ensures GramOf(m, b, Scaled(ker, m, b, u), NormalGram(ker, m, b, u))
  {
    hide Form, Scaled, NormalGram, Times, Scale;
    var v, g := Scaled(ker, m, b, u), NormalGram(ker, m, b, u);
    forall i, j | 0 <= i < |u| && 0 <= j < |u| ensures IsMat(g, |u|, |u|) && g[j][i] == Form(m, b, v[i], v[j]) {
      ScaledColumn(ker, m, b, u, i);
      ScaledColumn(ker, m, b, u, j);
      NormalGramEntry(ker, m, b, u, i, j);
      ScaleForms(m, b, u[i], u[j], ker.rsqrt(Form(m, b, u[i], u[i])), ker.rsqrt(Form(m, b, u[j], u[j])));
    }
    if u == [] {
      assert NormalGram(ker, m, b, u) == [];
    }
  }

  /** One whitening: the Gram matrix of the result is diagonal, with entry e_i / max(e_i, t). */
  lemma WhitenedForms(ker: Kernels, m: nat, b: Option<Mat>, u: Mat, i: nat, j: nat)
    requires SvqbSetting(ker, m, b) && IsMat(u, m, |u|) && i < |u| && j < |u|
    ensures var ez, w := ker.symeig(NormalGram(ker, m, b, u), false), Whitened(ker, m, b, u);
            && EigenOf(NormalGram(ker, m, b, u), false, ez.0, ez.1) && IsMat(w, m, |u|)
            && var r := EigRoots(ker, ez.0);
               && |r| == |u|
               && Form(m, b, w[i], w[j]) == if i == j then Times(Times(ez.0[i], r[i]), r[i]) else 0.0
  {
    hide Form, Scaled, NormalGram, Times, MatVec, Dot, EigRoots, Ordered, ExactRoots, Definite, Orthonormal;
    var v, g := Scaled(ker, m, b, u), NormalGram(ker, m, b, u);
    NormalGramIsGram(ker, m, b, u);
    GramSymmetric(m, b, v, g);
    EigAt(ker, g, false);
    var ez := ker.symeig(g, false);
    var r := EigRoots(ker, ez.0);
    RootsLength(ker, ez.0);
    MatVecScale(m, v, r[i], ez.1[i]);
    MatVecScale(m, v, r[j], ez.1[j]);
    var vi, vj := MatVec(m, v, ez.1[i]), MatVec(m, v, ez.1[j]);
    ScaleForms(m, b, vi, vj, r[i], r[j]);
    FormInBasis(m, b, v, g, ez.1[i], ez.1[j]);
    DotScale(ez.1[i], ez.0[j], ez.1[j]);
    UnitDot(ez.1, |u|, i, j);
    TimesOne(ez.0[j]);
    TimesZero(ez.0[j]);
    TimesZero(r[i]);
    TimesZero(r[j]);
  }

  lemma RootsLength(ker: Kernels, e: Vec)
    ensures |EigRoots(ker, e)| == |e|
  {
  }

  lemma UnitDot(z: Mat, n: nat, i: nat, j: nat)
    requires Square(z, n) && i < n && j < n
    ensures Dot(z[i], z[j]) == if i == j then 1.0 else 0.0
  {
    assert Form(n, None, z[i], z[j]) == Dot(z[i], z[j]);
  }

  lemma TimesOne(x: real)
    ensures Times(x, 1.0) == x && Times(1.0, x) == x
  {
  }

  lemma TimesSwap(d: real, p: real, q: real)
    ensures Times(Times(d, p), q) == Times(d, Times(p, q))
  {
  }

  lemma ProductSign(x: real, y: real)
    ensures x >= 0.0 && y >= 0.0 ==> Times(x, y) >= 0.0
    ensures x > 0.0 && y > 0.0 ==> Times(x, y) > 0.0
  {
    if x > 0.0 && y > 0.0 {
      PositiveProduct(x, y);
    } else if x == 0.0 || y == 0.0 {
      TimesZero(x);
      TimesZero(y);
    }
  }

  /** The normalized Gram matrix has ones on its diagonal. */
  lemma UnitDiagonal(ker: Kernels, m: nat, b: Option<Mat>, u: Mat, i: nat)
    requires ExactRoots(ker) && i < |u| && Form(m, b, u[i], u[i]) > 0.0
    ensures NormalGram(ker, m, b, u)[i][i] == 1.0
  {
    hide Form, NormalGram, Times, ExactRoots;
    var d := Form(m, b, u[i], u[i]);
    NormalGramEntry(ker, m, b, u, i, i);
    RootAt(ker, d);
    TimesSwap(d, ker.rsqrt(d), ker.rsqrt(d));
  }

  /** The eigenvalues are not negative. */
  lemma EigNonnegative(ker: Kernels, m: nat, b: Option<Mat>, u: Mat, i: nat)
    requires SvqbSetting(ker, m, b) && IsMat(u, m, |u|) && i < |u|
    ensures var e := ker.symeig(NormalGram(ker, m, b, u), false).0; |e| == |u| && e[i] >= 0.0
  {
    hide Form, Scaled, NormalGram, Times, MatVec, Dot, Ordered, Orthonormal;
    var v, g := Scaled(ker, m, b, u), NormalGram(ker, m, b, u);
    NormalGramIsGram(ker, m, b, u);
    GramSymmetric(m, b, v, g);
    EigAt(ker, g, false);
    var ez := ker.symeig(g, false);
    FormInBasis(m, b, v, g, ez.1[i], ez.1[i]);
    DotScale(ez.1[i], ez.0[i], ez.1[i]);
    UnitDot(ez.1, |u|, i, i);
    TimesOne(ez.0[i]);
    assert Form(m, b, MatVec(m, v, ez.1[i]), MatVec(m, v, ez.1[i])) >= 0.0;
  }

  /** Not all eigenvalues of a matrix with a nonzero diagonal entry are zero. */
  lemma SomeEig(g: Mat, e: Vec, z: Mat)
    requires Symmetric(g) && g != [] && g[0][0] == 1.0 && EigenOf(g, false, e, z)
    ensures MaxAbs(e) > 0.0
  {
    hide MatVec, Dot, Times, Orthonormal, MaxAbs;
    var n := |g|;
    var x := Unit(n, 0);
    var h := Coords(z, x);
    EnergyInCoords(g, false, e, z, x);
    UnitColumn(n, g, 0);
    DotUnit(n, 0, g[0]);
    if MaxAbs(e) <= 0.0 {
      assert forall k :: 0 <= k < n ==> e[k] == 0.0;
      EnergyAtMost(e, h, 0.0);
      TimesZero(Dot(h, h));
    }
  }

  /** Whitening succeeds exactly on the eigenvalues that are not raised. */
  lemma RootOfEig(ker: Kernels, e: Vec, i: nat)
    requires ExactRoots(ker) && 0.0 < ker.tau && MaxAbs(e) > 0.0 && i < |e| && e[i] >= 0.0
    ensures var r := EigRoots(ker, e);
            && |r| == |e| && Times(Times(e[i], r[i]), r[i]) >= 0.0
            && (e[i] >= Threshold(ker, e) ==> Times(Times(e[i], r[i]), r[i]) == 1.0)
  {
    hide Times, MaxAbs, ExactRoots;
    var t := Threshold(ker, e);
    ProductSign(ker.tau, MaxAbs(e));
    var x := if e[i] < t then t else e[i];
    var r := ker.rsqrt(x);
    RootAt(ker, x);
    assert EigRoots(ker, e)[i] == r;
    TimesSwap(e[i], r, r);
    SquareZero(r);
    ProductSign(e[i], Times(r, r));
  }

  /** No eigenvalue of the normalized Gram matrix is below the bound. */
  predicate Unclipped(ker: Kernels, m: nat, b: Option<Mat>, u: Mat) {
    var e := ker.symeig(NormalGram(ker, m, b, u), false).0;
    forall i :: 0 <= i < |e| ==> e[i] >= Threshold(ker, e)
  }

  /** One whitening of columns with x^T B x > 0: the result is pairwise B-orthogonal, and B-orthonormal when no
      eigenvalue was raised. */
  lemma WhitenedGram(ker: Kernels, m: nat, b: Option<Mat>, u: Mat)
    requires SvqbSetting(ker, m, b) && IsMat(u, m, |u|) && u != [] && PositiveColumns(m, b, u)
    ensures var w := Whitened(ker, m, b, u);
            && IsMat(w, m, |u|) && Pairwise(m, b, w)
            && (Unclipped(ker, m, b, u) ==> Orthonormal(m, b, w))
  {
    hide Form, Whitened, NormalGram, Times, EigRoots, Threshold, MaxAbs, Orthonormal, ExactRoots, Definite, Ordered;
    var g, w := NormalGram(ker, m, b, u), Whitened(ker, m, b, u);
    var ez := ker.symeig(g, false);
    NormalGramIsGram(ker, m, b, u);
    GramSymmetric(m, b, Scaled(ker, m, b, u), g);
    EigAt(ker, g, false);
    UnitDiagonal(ker, m, b, u, 0);
    SomeEig(g, ez.0, ez.1);
    forall i, j | 0 <= i < |u| && 0 <= j < |u|
      ensures IsMat(w, m, |u|)
      ensures i != j ==> Form(m, b, w[i], w[j]) == 0.0
      ensures i == j && Unclipped(ker, m, b, u) ==> Form(m, b, w[i], w[j]) == 1.0
    {
      WhitenedForms(ker, m, b, u, i, j);
      EigNonnegative(ker, m, b, u, i);
      RootOfEig(ker, ez.0, i);
    }
    assert IsMat(w, m, |u|) by { WhitenedForms(ker, m, b, u, 0, 0); }
    UnclippedOrthonormal(ker, m, b, u, w);
  }

  lemma UnclippedOrthonormal(ker: Kernels, m: nat, b: Option<Mat>, u: Mat, w: Mat)
    requires |w| == |u|
    requires forall i, j :: 0 <= i < |u| && 0 <= j < |u| && i != j ==> Form(m, b, w[i], w[j]) == 0.0
    requires Unclipped(ker, m, b, u) ==> forall i :: 0 <= i < |u| ==> Form(m, b, w[i], w[i]) == 1.0
    ensures Unclipped(ker, m, b, u) ==> Orthonormal(m, b, w)
  {
    hide Form, Unclipped;
  }

  /** On pairwise B-orthogonal columns the normalized Gram matrix is the identity, and nothing is raised. */
  lemma PairwiseUnclipped(ker: Kernels, m: nat, b: Option<Mat>, u: Mat)
    requires SvqbSetting(ker, m, b) && IsMat(u, m, |u|) && PositiveColumns(m, b, u) && Pairwise(m, b, u)
    ensures Unclipped(ker, m, b, u)
  {
    hide Form, NormalGram, Times, MaxAbs, Orthonormal, ExactRoots, Definite, Ordered, MatVec, Dot;
    var n, g := |u|, NormalGram(ker, m, b, u);
    NormalGramIsGram(ker, m, b, u);
    GramSymmetric(m, b, Scaled(ker, m, b, u), g);
    EigAt(ker, g, false);
    var ez := ker.symeig(g, false);
    forall i, j | 0 <= i < n && 0 <= j < n ensures g[j][i] == if i == j then 1.0 else 0.0 {
      PairwiseEntry(ker, m, b, u, i, j);
    }
    IdentityByEntries(g, n);
    forall i | 0 <= i < n ensures ez.0[i] == 1.0 {
      IdentityApply(n, ez.1[i]);
      DotScale(ez.1[i], ez.0[i], ez.1[i]);
      UnitDot(ez.1, n, i, i);
      TimesOne(ez.0[i]);
    }
    OnesUnclipped(ker, ez.0);
  }

  lemma IdentityByEntries(g: Mat, n: nat)
    requires IsMat(g, n, n)
    requires forall i, j :: 0 <= i < n && 0 <= j < n ==> g[j][i] == if i == j then 1.0 else 0.0
    ensures g == Identity(n)
  {
    forall j | 0 <= j < n ensures g[j] == Identity(n)[j] {
      assert g[j] == Unit(n, j);
    }
  }

  lemma PairwiseEntry(ker: Kernels, m: nat, b: Option<Mat>, u: Mat, i: nat, j: nat)
    requires ExactRoots(ker) && PositiveColumns(m, b, u) && Pairwise(m, b, u) && i < |u| && j < |u|
    ensures NormalGram(ker, m, b, u)[j][i] == if i == j then 1.0 else 0.0
  {
    hide Form, NormalGram, Times, ExactRoots;
    if i == j {
      UnitDiagonal(ker, m, b, u, i);
    } else {
      NormalGramEntry(ker, m, b, u, i, j);
      TimesZero(ker.rsqrt(Form(m, b, u[i], u[i])));
      TimesZero(ker.rsqrt(Form(m, b, u[j], u[j])));
    }
  }

  lemma {:induction false} OnesMax(e: Vec)
    requires forall i :: 0 <= i < |e| ==> e[i] == 1.0
    ensures MaxAbs(e) <= 1.0
  {
    if e != [] {
      OnesMax(e[1..]);
    }
  }

  lemma OnesUnclipped(ker: Kernels, e: Vec)
    requires 0.0 < ker.tau <= 1.0 && forall i :: 0 <= i < |e| ==> e[i] == 1.0
    ensures forall i :: 0 <= i < |e| ==> e[i] >= Threshold(ker, e)
  {
    OnesMax(e);
    assert ker.tau * MaxAbs(e) <= 1.0 by {
      assert (1.0 - ker.tau) * MaxAbs(e) >= 0.0;
    }
  }

  // ------------------------------------------------------------------ dropping columns, and svqb

  lemma {:induction false} NonzeroKept(m: nat, b: Option<Mat>, u: Mat)
    ensures forall k :: 0 <= k < |Nonzero(m, b, u)| ==> BNorm(m, b, Nonzero(m, b, u)[k]) != 0.0
    ensures forall j :: 0 <= j < |u| ==> BNorm(m, b, u[j]) == 0.0 || u[j] in Nonzero(m, b, u)
  {
    hide BNorm;
    if u != [] {
      NonzeroKept(m, b, u[1..]);
      assert u == [u[0]] + u[1..];
    }
  }

  /** With a definite B the kept columns have x^T B x > 0, and only zero columns were dropped. */
  lemma NonzeroPositive(m: nat, b: Option<Mat>, u: Mat)
    requires IsMat(u, m, |u|) && Definite(m, b)
    ensures PositiveColumns(m, b, Nonzero(m, b, u))
    ensures forall j :: 0 <= j < |u| ==> u[j] == Zero(m) || u[j] in Nonzero(m, b, u)
  {
    hide Form, Nonzero;
    NonzeroKept(m, b, u);
    var kept := Nonzero(m, b, u);
    forall k | 0 <= k < |kept| ensures Form(m, b, kept[k], kept[k]) > 0.0 {
      assert BNorm(m, b, kept[k]) != 0.0;
    }
  }

  lemma {:induction false} NonzeroFrom(m: nat, b: Option<Mat>, u: Mat, k: nat)
    requires k < |Nonzero(m, b, u)|
    ensures Nonzero(m, b, u)[k] in u
  {
    hide BNorm;
    if BNorm(m, b, u[0]) == 0.0 {
      NonzeroFrom(m, b, u[1..], k);
    } else if k > 0 {
      NonzeroFrom(m, b, u[1..], k - 1);
    }
  }

  lemma {:induction false} NonzeroPairwise(m: nat, b: Option<Mat>, u: Mat)
    requires Pairwise(m, b, u)
    ensures Pairwise(m, b, Nonzero(m, b, u))
  {
    hide Form;
    if u != [] {
      var kept := Nonzero(m, b, u[1..]);
      NonzeroPairwise(m, b, u[1..]);
      forall k | 0 <= k < |kept| ensures Form(m, b, u[0], kept[k]) == 0.0 == Form(m, b, kept[k], u[0]) {
        NonzeroFrom(m, b, u[1..], k);
        var j :| 0 <= j < |u[1..]| && u[1..][j] == kept[k];
        assert u[j + 1] == kept[k];
      }
    }
  }

  lemma NonzeroOrthogonal(m: nat, b: Option<Mat>, v: Mat, u: Mat)
    requires Orthogonal(m, b, v, u)
    ensures Orthogonal(m, b, v, Nonzero(m, b, u))
  {
    hide Form, Nonzero;
    var kept := Nonzero(m, b, u);
    forall i, k | 0 <= i < |v| && 0 <= k < |kept| ensures Form(m, b, v[i], kept[k]) == 0.0 {
      NonzeroFrom(m, b, u, k);
    }
  }

  /** svqb makes columns pairwise B-orthogonal; on pairwise B-orthogonal columns it makes them B-orthonormal. */
  lemma SvqbGram(ker: Kernels, m: nat, b: Option<Mat>, u: Mat)
    requires SvqbSetting(ker, m, b) && m > 0 && IsMat(u, m, |u|)
    ensures var r := Svqb(ker, m, b, u);
            && IsMat(r, m, |r|) && Pairwise(m, b, r)
            && (Pairwise(m, b, u) || Unclipped(ker, m, b, Nonzero(m, b, u)) ==> Orthonormal(m, b, r))
  {
    hide Form, Whitened, Unclipped, Nonzero, Definite, ExactRoots;
    var kept := Nonzero(m, b, u);
    NonzeroPositive(m, b, u);
    if kept != [] {
      WhitenedGram(ker, m, b, kept);
      if Pairwise(m, b, u) {
        NonzeroPairwise(m, b, u);
        PairwiseUnclipped(ker, m, b, kept);
      }
    }
  }

  lemma OrthogonalCombination(m: nat, b: Option<Mat>, v: Mat, u: Mat, c: Mat)
    requires IsMat(v, m, |v|) && IsMat(u, m, |u|) && IsMat(c, |u|, |c|) && Orthogonal(m, b, v, u)
    ensures Orthogonal(m, b, v, MatMul(m, u, c))
  {
    hide Form, MatVec;
    forall i, j | 0 <= i < |v| && 0 <= j < |c| ensures Form(m, b, v[i], MatMul(m, u, c)[j]) == 0.0 {
      FormZero(m, b, u, v[i], c[j]);
    }
  }

  lemma ScaledOrthogonal(ker: Kernels, m: nat, b: Option<Mat>, v: Mat, u: Mat)
    requires IsMat(v, m, |v|) && IsMat(u, m, |u|) && Orthogonal(m, b, v, u)
    ensures Orthogonal(m, b, v, Scaled(ker, m, b, u))
  {
    hide Form, Scaled, Times, Scale;
    forall i, j | 0 <= i < |v| && 0 <= j < |u| ensures Form(m, b, v[i], Scaled(ker, m, b, u)[j]) == 0.0 {
      var r := ker.rsqrt(Form(m, b, u[j], u[j]));
      ScaledColumn(ker, m, b, u, j);
      ScaleForms(m, b, v[i], u[j], 1.0, r);
      ScaleOne(v[i]);
      TimesZero(1.0);
      TimesZero(r);
    }
  }

  lemma ScaleOne(v: Vec)
    ensures Scale(1.0, v) == v
  {
  }

  /** For all kernels, svqb keeps columns B-orthogonal to V. */
  lemma SvqbOrthogonal(ker: Kernels, m: nat, b: Option<Mat>, v: Mat, u: Mat)
    requires Shapes(ker) && IsMat(v, m, |v|) && IsMat(u, m, |u|) && Orthogonal(m, b, v, u)
    ensures Orthogonal(m, b, v, Svqb(ker, m, b, u))
  {
    hide Form, Shapes, Nonzero, Scaled, NormalGram, EigRoots, Orthogonal, ScaleCols, MatMul;
    if m > 0 {
      var kept := Nonzero(m, b, u);
      NonzeroOrthogonal(m, b, v, u);
      ScaledOrthogonal(ker, m, b, v, kept);
      KernelShapes(ker, NormalGram(ker, m, b, kept), false, m);
      var ez := ker.symeig(NormalGram(ker, m, b, kept), false);
      if kept != [] {
        OrthogonalCombination(m, b, v, Scaled(ker, m, b, kept), ScaleCols(ez.1, EigRoots(ker, ez.0)));
      } else {
        OrthogonalNone(m, b, v);
      }
    }
  }

  lemma OrthogonalNone(m: nat, b: Option<Mat>, v: Mat)
    ensures Orthogonal(m, b, v, [])
  {
  }

  // ------------------------------------------------------------------ the loops of the orthogonalisation

  /** The stopping test of the inner loop accepts only B-orthonormal columns. */
  ghost predicate TrueTest(ker: Kernels, m: nat, b: Option<Mat>) {
    forall u: Mat {:trigger ker.innerDone(u)} :: IsMat(u, m, |u|) && ker.innerDone(u) ==> Orthonormal(m, b, u)
  }

  lemma OrthonormalNone(m: nat, b: Option<Mat>)
    ensures Orthonormal(m, b, [])
  {
  }

  lemma OrthonormalPairwise(m: nat, b: Option<Mat>, u: Mat)
    requires Orthonormal(m, b, u)
    ensures Pairwise(m, b, u)
  {
    hide Form;
  }

  /** Two turns of the inner loop make any columns B-orthonormal, one turn does when nothing is raised. */
  lemma {:induction false} InnerOrthonormal(ker: Kernels, m: nat, turns: nat, b: Option<Mat>, u: Mat, bu: Mat)
    requires Shapes(ker) && SvqbSetting(ker, m, b) && TrueTest(ker, m, b) && m > 0 && IsMat(u, m, |u|)
    requires turns >= 2 || (turns == 1 && (Pairwise(m, b, u) || Unclipped(ker, m, b, Nonzero(m, b, u))))
    ensures Orthonormal(m, b, Inner(ker, m, turns, b, u, bu).u)
    decreases turns
  {
    hide Shapes, Svqb, Apply, Unclipped, Nonzero, SvqbSetting, Orthonormal, Pairwise;
    SvqbShape(ker, m, b, u);
    SvqbGram(ker, m, b, u);
    var u' := Svqb(ker, m, b, u);
    if |u'| == 0 {
      OrthonormalNone(m, b);
    } else if !ker.innerDone(u') && turns > 1 {
      InnerOrthonormal(ker, m, turns - 1, b, u', Apply(m, b, u'));
    }
  }

  lemma {:induction false} InnerOrthogonal(ker: Kernels, m: nat, turns: nat, b: Option<Mat>, v: Mat, u: Mat, bu: Mat)
    requires Shapes(ker) && IsMat(v, m, |v|) && IsMat(u, m, |u|) && Orthogonal(m, b, v, u)
    ensures Orthogonal(m, b, v, Inner(ker, m, turns, b, u, bu).u)
    decreases turns
  {
    hide Shapes, Svqb, Apply, Orthogonal;
    if turns > 0 {
      SvqbShape(ker, m, b, u);
      SvqbOrthogonal(ker, m, b, v, u);
      var u' := Svqb(ker, m, b, u);
      InnerOrthogonal(ker, m, turns - 1, b, v, u', Apply(m, b, u'));
    }
  }

  /** After a turn the block's product with B is up to date. */
  lemma {:induction false} InnerProduct(ker: Kernels, m: nat, turns: nat, b: Option<Mat>, u: Mat, bu: Mat)
    ensures var r := Inner(ker, m, turns, b, u, bu); turns > 0 && !r.empty ==> r.bu == Apply(m, b, r.u)
    decreases turns
  {
    hide Svqb, Apply;
    if turns > 0 {
      var u' := Svqb(ker, m, b, u);
      InnerProduct(ker, m, turns - 1, b, u', Apply(m, b, u'));
    }
  }

  lemma ImageSub(m: nat, b: Option<Mat>, x: Vec, y: Vec)
    requires |x| == |y| == m
    ensures Image(m, b, Sub(x, y)) == Sub(Image(m, b, x), Image(m, b, y))
  {
    hide MatVec;
    if b.Some? {
      assert Add(Sub(x, y), y) == x;
      MatVecAdd(m, b.value, Sub(x, y), y);
      forall i | 0 <= i < m
        ensures Image(m, b, Sub(x, y))[i] == Sub(Image(m, b, x), Image(m, b, y))[i] {}
    }
  }

  lemma FormSub(m: nat, b: Option<Mat>, w: Vec, x: Vec, y: Vec)
    requires |x| == |y| == |w| == m
    ensures Form(m, b, w, Sub(x, y)) == Form(m, b, w, x) - Form(m, b, w, y)
  {
    hide Dot, Image;
    ImageSub(m, b, x, y);
    DotSub(w, Image(m, b, x), Image(m, b, y));
  }

  /** Removing the components along B-orthonormal V leaves columns B-orthogonal to V. */
  lemma DeflateOrthogonal(m: nat, b: Option<Mat>, v: Mat, u: Mat)
    requires IsMat(v, m, |v|) && IsMat(u, m, |u|) && Orthonormal(m, b, v)
    ensures Orthogonal(m, b, v, Deflate(m, v, u, Apply(m, b, u)))
  {
    hide Form, Deflate, Apply, MatVec;
    var d := Deflate(m, v, u, Apply(m, b, u));
    forall i, j | 0 <= i < |v| && 0 <= j < |u| ensures Form(m, b, v[i], d[j]) == 0.0 {
      var c := FormColumn(m, b, v, u[j]);
      DeflatedColumn(m, b, v, u, j);
      FormSub(m, b, v[i], u[j], MatVec(m, v, c));
      FormPick(m, b, v, c, i);
    }
  }

  /** Columns already B-orthogonal to V are left as they are. */
  lemma DeflateNothing(m: nat, b: Option<Mat>, v: Mat, u: Mat)
    requires IsMat(v, m, |v|) && IsMat(u, m, |u|) && Orthogonal(m, b, v, u)
    ensures Deflate(m, v, u, Apply(m, b, u)) == u
  {
    hide Form, Deflate, Apply, MatVec;
    forall j | 0 <= j < |u| ensures Deflate(m, v, u, Apply(m, b, u))[j] == u[j] {
      DeflatedColumn(m, b, v, u, j);
      assert FormColumn(m, b, v, u[j]) == Zero(|v|);
      MatVecZero(m, v, |v|);
    }
  }

  /** The documented contract, first half: for B-orthonormal V every result is B-orthogonal to V, for all kernels. */
  lemma {:induction false} OuterOrthogonal(ker: Kernels, m: nat, turns: nat, jMax: nat, b: Option<Mat>, u: Mat, v: Mat)
    requires Shapes(ker) && IsMat(v, m, |v|) && IsMat(u, m, |u|) && Orthonormal(m, b, v) && jMax > 0
    requires turns > 0 || Orthogonal(m, b, v, u)
    ensures var r := Outer(ker, m, turns, jMax, b, u, Apply(m, b, u), v); r.Ok? ==> Orthogonal(m, b, v, r.value)
    decreases turns
  {
    hide Shapes, Inner, Deflate, Orthogonal, Orthonormal, Apply;
    if turns > 0 {
      var d := Deflate(m, v, u, Apply(m, b, u));
      DeflateOrthogonal(m, b, v, u);
      InnerShape(ker, m, jMax, b, d, Apply(m, b, u));
      InnerOrthogonal(ker, m, jMax, b, v, d, Apply(m, b, u));
      InnerProduct(ker, m, jMax, b, d, Apply(m, b, u));
      var block := Inner(ker, m, jMax, b, d, Apply(m, b, u));
      if !block.empty {
        OuterOrthogonal(ker, m, turns - 1, jMax, b, block.u, v);
      }
    }
  }

  lemma OrthoOrthogonal(ker: Kernels, m: nat, iMax: nat, jMax: nat, b: Option<Mat>, u: Mat, v: Mat)
    requires Shapes(ker) && IsMat(v, m, |v|) && IsMat(u, m, |u|) && Orthonormal(m, b, v) && iMax > 0 && jMax > 0
    ensures var r := OrthoOf(ker, m, iMax, jMax, b, u, v); r.Ok? ==> Orthogonal(m, b, v, r.value)
  {
    hide Shapes, Outer, Orthogonal, Orthonormal, Apply;
    OuterOrthogonal(ker, m, iMax, jMax, b, u, v);
  }

  /** One turn of the inner loop is enough for the deflated columns. */
  predicate OneTurn(ker: Kernels, m: nat, b: Option<Mat>, u: Mat, v: Mat) {
    var d := Deflate(m, v, u, Apply(m, b, u));
    Unclipped(ker, m, b, Nonzero(m, b, d))
  }

  lemma {:induction false} OuterOrthonormal(ker: Kernels, m: nat, turns: nat, jMax: nat, b: Option<Mat>, u: Mat, v: Mat)
    requires Shapes(ker) && SvqbSetting(ker, m, b) && TrueTest(ker, m, b) && m > 0 && jMax > 0
    requires IsMat(v, m, |v|) && IsMat(u, m, |u|) && Orthonormal(m, b, v)
    requires turns > 0 || Orthonormal(m, b, u)
    requires jMax >= 2 || OneTurn(ker, m, b, u, v) || (Orthonormal(m, b, u) && Orthogonal(m, b, v, u))
    ensures var r := Outer(ker, m, turns, jMax, b, u, Apply(m, b, u), v); r.Ok? ==> Orthonormal(m, b, r.value)
    decreases turns
  {
    hide Shapes, Inner, Deflate, Orthogonal, Orthonormal, Apply, SvqbSetting, TrueTest, Unclipped, Nonzero, Pairwise;
    if turns > 0 {
      var d := Deflate(m, v, u, Apply(m, b, u));
      DeflateOrthogonal(m, b, v, u);
      InnerShape(ker, m, jMax, b, d, Apply(m, b, u));
      InnerOrthogonal(ker, m, jMax, b, v, d, Apply(m, b, u));
      InnerProduct(ker, m, jMax, b, d, Apply(m, b, u));
      if Orthonormal(m, b, u) && Orthogonal(m, b, v, u) {
        DeflateNothing(m, b, v, u);
        OrthonormalPairwise(m, b, u);
      }
      InnerOrthonormal(ker, m, jMax, b, d, Apply(m, b, u));
      var block := Inner(ker, m, jMax, b, d, Apply(m, b, u));
      if !block.empty {
        OuterOrthonormal(ker, m, turns - 1, jMax, b, block.u, v);
      }
    }
  }

  /** The documented contract, second half: with at least two inner turns, or one that raises no eigenvalue, every
      result is B-orthonormal. */
  lemma OrthoOrthonormal(ker: Kernels, m: nat, iMax: nat, jMax: nat, b: Option<Mat>, u: Mat, v: Mat)
    requires Shapes(ker) && SvqbSetting(ker, m, b) && TrueTest(ker, m, b) && m > 0 && iMax > 0 && jMax > 0
    requires IsMat(v, m, |v|) && IsMat(u, m, |u|) && Orthonormal(m, b, v)
    requires jMax >= 2 || OneTurn(ker, m, b, u, v)
    ensures var r := OrthoOf(ker, m, iMax, jMax, b, u, v); r.Ok? ==> Orthonormal(m, b, r.value)
  {
    hide Shapes, Outer, Orthogonal, Orthonormal, Apply, SvqbSetting, TrueTest, OneTurn;
    OuterOrthonormal(ker, m, iMax, jMax, b, u, v);
  }
}
