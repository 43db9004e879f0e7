/** The orthogonalisation loses and adds nothing: V and the result span exactly what V and U spanned. */
module LobpcgSpan {
  import opened LinearAlgebra
  import opened Wrappers
  import opened Forms
  import opened LobpcgSteps
  import opened LobpcgOrtho
  import opened LobpcgRitz
  import opened LobpcgGram

  lemma Unscale(c: real, x: real)
    requires c != 0.0
    ensures Times(1.0 / c, Times(c, x)) == x
  {
    assert (1.0 / c) * c == 1.0;
  }

  lemma ScaleBack(c: real, v: Vec)
    requires c != 0.0
    ensures Scale(1.0 / c, Scale(c, v)) == v
  {
    hide Times;
    forall i | 0 <= i < |v| ensures Scale(1.0 / c, Scale(c, v))[i] == v[i] {
      Unscale(c, v[i]);
    }
  }

  lemma SpanUnscale(m: nat, v: Mat, c: real, x: Vec)
    requires c != 0.0 && InSpan(m, v, Scale(c, x))
    ensures InSpan(m, v, x)
  {
    hide InSpan, Scale;
    SpanScale(m, v, 1.0 / c, Scale(c, x));
    ScaleBack(c, x);
  }

  /** The roots of the raised eigenvalues are not zero. */
  lemma EigRootNonzero(ker: Kernels, e: Vec, i: nat)
    requires ExactRoots(ker) && 0.0 < ker.tau && MaxAbs(e) > 0.0 && i < |e|
    ensures |EigRoots(ker, e)| == |e| && EigRoots(ker, e)[i] != 0.0
  {
    hide Times, MaxAbs, ExactRoots;
    var t := Threshold(ker, e);
    ProductSign(ker.tau, MaxAbs(e));
    RootAt(ker, if e[i] < t then t else e[i]);
  }

  /** Whitening keeps the span. */
  lemma WhitenedCovers(ker: Kernels, m: nat, b: Option<Mat>, u: Mat)
    requires SvqbSetting(ker, m, b) && IsMat(u, m, |u|) && u != [] && PositiveColumns(m, b, u)
    ensures var w := Whitened(ker, m, b, u); IsMat(w, m, |u|) && Covers(m, w, u) && Covers(m, u, w)
  {
    hide Form, Scaled, NormalGram, EigRoots, MatVec, InSpan, Times, Orthonormal, Definite, ExactRoots, Ordered, MaxAbs;
    hide Scale;
    var n, v, g, w := |u|, Scaled(ker, m, b, u), NormalGram(ker, m, b, u), Whitened(ker, m, b, u);
    NormalGramIsGram(ker, m, b, u);
    GramSymmetric(m, b, v, g);
    EigAt(ker, g, false);
    var e, z := ker.symeig(g, false).0, ker.symeig(g, false).1;
    var r := EigRoots(ker, e);
    UnitDiagonal(ker, m, b, u, 0);
    SomeEig(g, e, z);
    RootsLength(ker, e);
    var vz := MatMul(m, v, z);
    CoversItself(m, w);
    forall i | 0 <= i < n ensures InSpan(m, w, vz[i]) {
      MatVecScale(m, v, r[i], z[i]);
      EigRootNonzero(ker, e, i);
      SpanUnscale(m, w, r[i], vz[i]);
    }
    forall j | 0 <= j < n ensures InSpan(m, w, u[j]) {
      SquareUnit(z, n, j);
      ProductApply(m, n, v, z, Row(z, j));
      UnitColumn(m, v, j);
      SpanCombination(m, w, vz, Row(z, j));
      ScaledColumn(ker, m, b, u, j);
      RootAt(ker, Form(m, b, u[j], u[j]));
      SpanUnscale(m, w, ker.rsqrt(Form(m, b, u[j], u[j])), u[j]);
    }
    forall j | 0 <= j < n ensures InSpan(m, u, v[j]) {
      ScaledColumn(ker, m, b, u, j);
      ColumnInSpan(m, u, j);
      SpanScale(m, u, ker.rsqrt(Form(m, b, u[j], u[j])), u[j]);
    }
    forall i | 0 <= i < n ensures InSpan(m, u, w[i]) {
      SpanCombination(m, u, v, Scale(r[i], z[i]));
    }
  }

  /** svqb keeps the span: only zero columns are dropped. */
  lemma SvqbCovers(ker: Kernels, m: nat, b: Option<Mat>, u: Mat)
    requires SvqbSetting(ker, m, b) && m > 0 && IsMat(u, m, |u|)
    ensures var r := Svqb(ker, m, b, u); IsMat(r, m, |r|) && Covers(m, r, u) && Covers(m, u, r)
  {
    hide Whitened, InSpan, Nonzero, Definite, ExactRoots, ExactEig, PositiveColumns;
    var kept, r := Nonzero(m, b, u), Svqb(ker, m, b, u);
    NonzeroPositive(m, b, u);
    if kept != [] {
      WhitenedCovers(ker, m, b, kept);
    }
    forall j | 0 <= j < |u| ensures InSpan(m, r, u[j]) {
      if u[j] in kept {
        var k :| 0 <= k < |kept| && kept[k] == u[j];
        assert InSpan(m, r, kept[k]);
      } else {
        SpanZero(m, r);
      }
    }
    forall k | 0 <= k < |kept| ensures InSpan(m, u, kept[k]) {
      NonzeroFrom(m, b, u, k);
      var j :| 0 <= j < |u| && u[j] == kept[k];
      ColumnInSpan(m, u, j);
    }
    CoversTransitive(m, u, kept, r);
  }

  lemma {:induction false} InnerCovers(ker: Kernels, m: nat, turns: nat, b: Option<Mat>, u: Mat, bu: Mat)
    requires Shapes(ker) && SvqbSetting(ker, m, b) && m > 0 && IsMat(u, m, |u|)
    ensures var r := Inner(ker, m, turns, b, u, bu).u; IsMat(r, m, |r|) && Covers(m, r, u) && Covers(m, u, r)
    decreases turns
  {
    hide Shapes, Svqb, Apply, SvqbSetting, Covers;
    CoversItself(m, u);
    if turns > 0 {
      SvqbCovers(ker, m, b, u);
      var u' := Svqb(ker, m, b, u);
      CoversItself(m, u');
      InnerCovers(ker, m, turns - 1, b, u', Apply(m, b, u'));
      var r := Inner(ker, m, turns - 1, b, u', Apply(m, b, u')).u;
      CoversTransitive(m, r, u', u);
      CoversTransitive(m, u, u', r);
    }
  }

  lemma AddBack(x: Vec, y: Vec)
    requires |x| == |y|
    ensures Add(Sub(x, y), y) == x && Sub(x, y) == Add(x, Scale(-1.0, y))
  {
  }

  /** Deflating keeps the span of V and U. */
  lemma DeflateCovers(m: nat, b: Option<Mat>, v: Mat, u: Mat)
    requires IsMat(v, m, |v|) && IsMat(u, m, |u|)
    ensures var d := Deflate(m, v, u, Apply(m, b, u)); Covers(m, v + d, u) && Covers(m, v + u, d)
  {
    hide Deflate, Apply, MatVec, InSpan, Scale, Add, Sub;
    var d := Deflate(m, v, u, Apply(m, b, u));
    forall j | 0 <= j < |u| ensures InSpan(m, v + d, u[j]) && InSpan(m, v + u, d[j]) {
      var vc := MatVec(m, v, FormColumn(m, b, v, u[j]));
      DeflatedColumn(m, b, v, u, j);
      AddBack(u[j], vc);
      Member(m, v, FormColumn(m, b, v, u[j]));
      ColumnInSpan(m, d, j);
      ColumnInSpan(m, u, j);
      SpanLeft(m, v, d, vc);
      SpanRight(m, v, d, d[j]);
      SpanAdd(m, v + d, d[j], vc);
      SpanLeft(m, v, u, vc);
      SpanScale(m, v + u, -1.0, vc);
      SpanRight(m, v, u, u[j]);
      SpanAdd(m, v + u, u[j], Scale(-1.0, vc));
    }
  }

  /** Replacing a part beside V: covers compose. */
  lemma CoversChain(m: nat, v: Mat, r: Mat, w: Mat, u: Mat)
    requires IsMat(v, m, |v|) && IsMat(r, m, |r|) && IsMat(w, m, |w|)
    requires Covers(m, v + r, w) && Covers(m, v + w, u)
    ensures Covers(m, v + r, u)
  {
    hide Covers;
    CoversBeside(m, v, r, w);
    CoversTransitive(m, v + r, v + w, u);
  }

  lemma {:induction false} OuterCovers(ker: Kernels, m: nat, turns: nat, jMax: nat, b: Option<Mat>, u: Mat, v: Mat)
    requires Shapes(ker) && SvqbSetting(ker, m, b) && m > 0 && jMax > 0 && IsMat(v, m, |v|) && IsMat(u, m, |u|)
    ensures var r := Outer(ker, m, turns, jMax, b, u, Apply(m, b, u), v);
            r.Ok? ==> IsMat(r.value, m, |r.value|) && Covers(m, v + r.value, u) && Covers(m, v + u, r.value)
    decreases turns
  {
    hide Shapes, Inner, Deflate, Apply, SvqbSetting, Covers;
    if turns == 0 {
      CoversItself(m, u);
      CoversRight(m, v, u, u);
    } else {
      var bu := Apply(m, b, u);
      var d := Deflate(m, v, u, bu);
      InnerShape(ker, m, jMax, b, d, bu);
      InnerCovers(ker, m, jMax, b, d, bu);
      InnerProduct(ker, m, jMax, b, d, bu);
      var block := Inner(ker, m, jMax, b, d, bu);
      DeflateCovers(m, b, v, u);
      CoversRight(m, v, block.u, d);
      CoversRight(m, v, d, block.u);
      CoversChain(m, v, block.u, d, u);
      CoversChain(m, v, u, d, block.u);
      if !block.empty {
        OuterCovers(ker, m, turns - 1, jMax, b, block.u, v);
        var r := Outer(ker, m, turns - 1, jMax, b, block.u, Apply(m, b, block.u), v);
        if r.Ok? {
          CoversChain(m, v, r.value, block.u, u);
          CoversChain(m, v, u, block.u, r.value);
        }
      }
    }
  }

  /** For exact kernels and definite B: V and the result span exactly what V and U spanned. */
  lemma OrthoCovers(ker: Kernels, m: nat, iMax: nat, jMax: nat, b: Option<Mat>, u: Mat, v: Mat)
    requires Shapes(ker) && SvqbSetting(ker, m, b) && m > 0 && jMax > 0 && IsMat(v, m, |v|) && IsMat(u, m, |u|)
    ensures var r := OrthoOf(ker, m, iMax, jMax, b, u, v);
            r.Ok? ==> Covers(m, v + r.value, u) && Covers(m, v + u, r.value)
  {
    hide Shapes, Outer, Apply, SvqbSetting, Covers;
    OuterCovers(ker, m, iMax, jMax, b, u, v);
  }
}
