/** `_get_ortho` and `_get_svqb`: which columns survive when U is made B-orthonormal and B-orthogonal to V. */
module LobpcgOrtho {
  import opened LinearAlgebra
  import opened Wrappers
  import opened Forms
  import opened LobpcgSteps

  /** x^T B x */
  function BNorm(m: nat, b: Option<Mat>, x: Vec): real {
    Form(m, b, x, x)
  }

  /** The columns that svqb keeps: those with nonzero x^T B x. */
  function Nonzero(m: nat, b: Option<Mat>, u: Mat): (r: Mat)
    ensures |r| <= |u|
    ensures IsMat(u, m, |u|) ==> IsMat(r, m, |r|)
  {
    if u == [] then []
    else if BNorm(m, b, u[0]) != 0.0 then [u[0]] + Nonzero(m, b, u[1..])
    else Nonzero(m, b, u[1..])
  }

  /** svqb drops nothing from `u`. */
  predicate NoneDropped(m: nat, b: Option<Mat>, u: Mat) {
    m == 0 || forall j :: 0 <= j < |u| ==> BNorm(m, b, u[j]) != 0.0
  }

  /** d ** -0.5 for the diagonal d of the Gram matrix. */
  function InverseRoots(ker: Kernels, g: Mat): (r: Vec)
    ensures |r| == |g|
    ensures forall i :: 0 <= i < |g| ==> r[i] == ker.rsqrt(Entry(g[i], i))
  {
    seq(|g|, i requires 0 <= i < |g| => ker.rsqrt(Entry(g[i], i)))
  }

  /** `(UBU * d_col) * d_col.T` */
  function Normalized(g: Mat, r: Vec): (n: Mat)
    ensures IsMat(n, |g|, |g|)
    ensures forall i, j :: 0 <= i < |g| && 0 <= j < |g| ==> n[j][i] == Times(Times(Entry(g[j], i), Entry(r, i)), Entry(r, j))
  {
    seq(|g|, j requires 0 <= j < |g| =>
      seq(|g|, i requires 0 <= i < |g| => Times(Times(Entry(g[j], i), Entry(r, i)), Entry(r, j))))
  }

  /** `abs(E).max()` */
  function MaxAbs(e: Vec): (r: real)
    ensures r >= 0.0
    ensures forall i :: 0 <= i < |e| ==> -r <= e[i] <= r
  {
    if e == [] then 0.0
    else
      var x, rest := if e[0] < 0.0 then -e[0] else e[0], MaxAbs(e[1..]);
      assert forall i :: 1 <= i < |e| ==> e[i] == e[1..][i - 1];
      if x > rest then x else rest
  }

  /** `E[E < t] = t` */
  function Raised(e: Vec, t: real): (r: Vec)
    ensures |r| == |e|
    ensures forall i :: 0 <= i < |e| ==> r[i] == if e[i] < t then t else e[i]
  {
    seq(|e|, i requires 0 <= i < |e| => if e[i] < t then t else e[i])
  }

  /** `E ** -0.5` */
  function Roots(ker: Kernels, e: Vec): (r: Vec)
    ensures |r| == |e| && forall i :: 0 <= i < |e| ==> r[i] == ker.rsqrt(e[i])
  {
    seq(|e|, i requires 0 <= i < |e| => ker.rsqrt(e[i]))
  }

  /** The bound below which svqb raises eigenvalues. */
  function Threshold(ker: Kernels, e: Vec): real { Times(ker.tau, MaxAbs(e)) }

  /** `U * d_col.T` */
  function Scaled(ker: Kernels, m: nat, b: Option<Mat>, u: Mat): (r: Mat)
    ensures |r| == |u|
    ensures forall rows: nat :: IsMat(u, rows, |u|) ==> IsMat(r, rows, |u|)
  {
    ScaleCols(u, InverseRoots(ker, TransposeMul(u, Apply(m, b, u))))
  }

  /** `DUBUD` */
  function NormalGram(ker: Kernels, m: nat, b: Option<Mat>, u: Mat): (r: Mat)
    ensures IsMat(r, |u|, |u|)
  {
    var g := TransposeMul(u, Apply(m, b, u));
    Normalized(g, InverseRoots(ker, g))
  }

  /** `E ** -0.5` after the eigenvalues below the bound were raised. */
  function EigRoots(ker: Kernels, e: Vec): Vec {
    Roots(ker, Raised(e, Threshold(ker, e)))
  }

  /** The original algorithm, after zero columns were dropped. */
  function Whitened(ker: Kernels, m: nat, b: Option<Mat>, u: Mat): Mat {
    var ez := ker.symeig(NormalGram(ker, m, b, u), false);
    MatMul(m, Scaled(ker, m, b, u), ScaleCols(ez.1, EigRoots(ker, ez.0)))
  }

  /** `_get_svqb` with `drop` off. */
  function Svqb(ker: Kernels, m: nat, b: Option<Mat>, u: Mat): Mat {
    if m == 0 then u
    else
      var kept := Nonzero(m, b, u);
      if kept == [] then [] else Whitened(ker, m, b, kept)
  }

  lemma {:induction false} NonzeroWidth(m: nat, b: Option<Mat>, u: Mat)
    ensures |Nonzero(m, b, u)| == |u| <==> forall j :: 0 <= j < |u| ==> BNorm(m, b, u[j]) != 0.0
  {
    hide BNorm;
    if u != [] {
      NonzeroWidth(m, b, u[1..]);
      assert u == [u[0]] + u[1..];
    }
  }

  /** svqb loses columns exactly when it meets one with x^T B x = 0. */
  lemma SvqbShape(ker: Kernels, m: nat, b: Option<Mat>, u: Mat)
    requires Shapes(ker) && IsMat(u, m, |u|)
    ensures var r := Svqb(ker, m, b, u); IsMat(r, m, |r|) && |r| <= |u| && (|r| == |u| <==> NoneDropped(m, b, u))
  {
    hide Shapes, BNorm, Nonzero, MatMul, Scaled, NormalGram, EigRoots, ScaleCols;
    var kept := Nonzero(m, b, u);
    KernelShapes(ker, NormalGram(ker, m, b, kept), false, m);
    NonzeroWidth(m, b, u);
  }

  /** The inner loop: the block, its product with B, and whether the block became empty. */
  datatype Block = Block(u: Mat, bu: Mat, empty: bool)

  function Inner(ker: Kernels, m: nat, turns: nat, b: Option<Mat>, u: Mat, bu: Mat): Block {
    if turns == 0 then Block(u, bu, false)
    else
      var u' := Svqb(ker, m, b, u);
      if |u'| == 0 || m == 0 then Block(u', bu, true)
      else if ker.innerDone(u') then Block(u', Apply(m, b, u'), false)
      else Inner(ker, m, turns - 1, b, u', Apply(m, b, u'))
  }

  /** U - V V^T (B U), where `bu` stands for B U. */
  function Deflate(m: nat, v: Mat, u: Mat, bu: Mat): (r: Mat)
    requires |bu| == |u|
    ensures |r| == |u|
    ensures IsMat(u, m, |u|) ==> IsMat(r, m, |u|)
  {
    SubMat(u, MatMul(m, v, TransposeMul(v, bu)))
  }

  lemma {:induction false} InnerShape(ker: Kernels, m: nat, turns: nat, b: Option<Mat>, u: Mat, bu: Mat)
    requires Shapes(ker) && IsMat(u, m, |u|) && |bu| == |u|
    ensures var r := Inner(ker, m, turns, b, u, bu);
            IsMat(r.u, m, |r.u|) && |r.u| <= |u| && (r.empty || |r.bu| == |r.u|)
    decreases turns
  {
    hide Shapes, Svqb, Apply;
    if turns > 0 {
      SvqbShape(ker, m, b, u);
      var u' := Svqb(ker, m, b, u);
      InnerShape(ker, m, turns - 1, b, u', Apply(m, b, u'));
    }
  }

  ghost function Outer(ker: Kernels, m: nat, turns: nat, jMax: nat, b: Option<Mat>, u: Mat, bu: Mat, v: Mat)
    : Result<Mat, Error>
    requires Shapes(ker) && IsMat(u, m, |u|) && |bu| == |u|
  {
    if turns == 0 then Ok(u)
    else
      InnerShape(ker, m, jMax, b, Deflate(m, v, u, bu), bu);
      var block := Inner(ker, m, jMax, b, Deflate(m, v, u, bu), bu);
      if block.empty || ker.outerDone(v, block.u) then Ok(block.u)
      else if m < |block.u| + |v| then Err(Overdetermined)
      else Outer(ker, m, turns - 1, jMax, b, block.u, block.bu, v)
  }

  /** What `_get_ortho` computes. */
  ghost function OrthoOf(ker: Kernels, m: nat, iMax: nat, jMax: nat, b: Option<Mat>, u: Mat, v: Mat): Result<Mat, Error>
    requires Shapes(ker) && IsMat(u, m, |u|)
  {
    Outer(ker, m, iMax, jMax, b, u, Apply(m, b, u), v)
  }

  /** No call of svqb in the inner loop drops a column. */
  predicate InnerLossless(ker: Kernels, m: nat, turns: nat, b: Option<Mat>, u: Mat) {
    turns == 0
    || (&& NoneDropped(m, b, u)
        && var u' := Svqb(ker, m, b, u);
           |u'| == 0 || m == 0 || ker.innerDone(u') || InnerLossless(ker, m, turns - 1, b, u'))
  }

  ghost predicate OuterLossless(ker: Kernels, m: nat, turns: nat, jMax: nat, b: Option<Mat>, u: Mat, bu: Mat, v: Mat)
    requires Shapes(ker) && IsMat(u, m, |u|) && |bu| == |u|
  {
    turns == 0
    || (InnerShape(ker, m, jMax, b, Deflate(m, v, u, bu), bu);
        var block := Inner(ker, m, jMax, b, Deflate(m, v, u, bu), bu);
        && InnerLossless(ker, m, jMax, b, Deflate(m, v, u, bu))
        && (block.empty || ker.outerDone(v, block.u) || m < |block.u| + |v|
            || OuterLossless(ker, m, turns - 1, jMax, b, block.u, block.bu, v)))
  }

  /** No matrix that `_get_ortho` passes to svqb has a column with x^T B x = 0. */
  ghost predicate Lossless(ker: Kernels, m: nat, iMax: nat, jMax: nat, b: Option<Mat>, u: Mat, v: Mat)
    requires Shapes(ker) && IsMat(u, m, |u|)
  {
    OuterLossless(ker, m, iMax, jMax, b, u, Apply(m, b, u), v)
  }

  lemma {:induction false} InnerWidth(ker: Kernels, m: nat, turns: nat, b: Option<Mat>, u: Mat, bu: Mat)
    requires Shapes(ker) && IsMat(u, m, |u|) && |bu| == |u|
    ensures |Inner(ker, m, turns, b, u, bu).u| == |u| <==> InnerLossless(ker, m, turns, b, u)
    decreases turns
  {
    hide Shapes, Svqb, Apply, NoneDropped;
    if turns > 0 {
      SvqbShape(ker, m, b, u);
      var u' := Svqb(ker, m, b, u);
      InnerShape(ker, m, turns - 1, b, u', Apply(m, b, u'));
      InnerWidth(ker, m, turns - 1, b, u', Apply(m, b, u'));
    }
  }

  lemma {:induction false} OuterWidth(ker: Kernels, m: nat, turns: nat, jMax: nat, b: Option<Mat>, u: Mat, bu: Mat, v: Mat)
    requires Shapes(ker) && IsMat(u, m, |u|) && |bu| == |u|
    ensures var r := Outer(ker, m, turns, jMax, b, u, bu, v);
            && (r.Ok? ==> IsMat(r.value, m, |r.value|) && |r.value| <= |u|)
            && (r.Ok? ==> (|r.value| == |u| <==> OuterLossless(ker, m, turns, jMax, b, u, bu, v)))
            && (r.Err? ==> r.error == Overdetermined && m < |u| + |v|)
    decreases turns
  {
    hide Shapes, Inner, InnerLossless, Deflate;
    if turns > 0 {
      var d := Deflate(m, v, u, bu);
      InnerShape(ker, m, jMax, b, d, bu);
      InnerWidth(ker, m, jMax, b, d, bu);
      var block := Inner(ker, m, jMax, b, d, bu);
      if !block.empty {
        OuterWidth(ker, m, turns - 1, jMax, b, block.u, block.bu, v);
      }
    }
  }

  /** `_get_ortho`: never more columns than `u`, fewer exactly when some svqb met a column with x^T B x = 0,
      and the error only if u and v together exceed the rows. */
  method GetOrtho(ker: Kernels, m: nat, iMax: nat, jMax: nat, b: Option<Mat>, u0: Mat, v: Mat) returns (r: Result<Mat, Error>)
    requires Shapes(ker) && IsMat(u0, m, |u0|) && IsMat(v, m, |v|)
    ensures r == OrthoOf(ker, m, iMax, jMax, b, u0, v)
    ensures r.Ok? ==> IsMat(r.value, m, |r.value|) && |r.value| <= |u0|
    ensures r.Ok? ==> (|r.value| == |u0| <==> Lossless(ker, m, iMax, jMax, b, u0, v))
    ensures r.Err? ==> r.error == Overdetermined && m < |u0| + |v|
  {
    hide Shapes, Apply, TransposeMul, SubMat, MatMul, Svqb, OuterLossless;
    OuterWidth(ker, m, iMax, jMax, b, u0, Apply(m, b, u0), v);
    var u := u0;
    var bu := Apply(m, b, u);
    var vbu := TransposeMul(v, bu);
    var i := 0;
    while i < iMax
      invariant i <= iMax && IsMat(u, m, |u|) && |bu| == |u| && vbu == TransposeMul(v, bu)
      invariant Outer(ker, m, iMax - i, jMax, b, u, bu, v) == OrthoOf(ker, m, iMax, jMax, b, u0, v)
    {
      ghost var d, bu0 := Deflate(m, v, u, bu), bu;
      u := SubMat(u, MatMul(m, v, vbu));
      var j := 0;
      while j < jMax
        invariant j <= jMax && IsMat(u, m, |u|) && |bu| == |u|
        invariant Inner(ker, m, jMax - j, b, u, bu) == Inner(ker, m, jMax, b, d, bu0)
      {
        SvqbShape(ker, m, b, u);
        u := Svqb(ker, m, b, u);
        if |u| == 0 || m == 0 {
          return Ok(u);
        }
        bu := Apply(m, b, u);
        if ker.innerDone(u) { break; }
        j := j + 1;
      }
      assert Block(u, bu, false) == Inner(ker, m, jMax, b, d, bu0);
      vbu := TransposeMul(v, bu);
      if ker.outerDone(v, u) { break; }
      if m < |u| + |v| {
        return Err(Overdetermined);
      }
      i := i + 1;
    }
    r := Ok(u);
  }

  /** With more columns than rows between U and V and nothing dropped, the first turn decides: the error, unless its
      block already passes the outer test. */
  lemma OverdeterminedIff(ker: Kernels, m: nat, iMax: nat, jMax: nat, b: Option<Mat>, u: Mat, v: Mat)
    requires Shapes(ker) && IsMat(u, m, |u|) && u != [] && m > 0 && iMax > 0 && m < |u| + |v|
    requires Lossless(ker, m, iMax, jMax, b, u, v)
    ensures OrthoOf(ker, m, iMax, jMax, b, u, v).Err?
            <==> !ker.outerDone(v, Inner(ker, m, jMax, b, Deflate(m, v, u, Apply(m, b, u)), Apply(m, b, u)).u)
  {
    hide Shapes, Inner, Deflate, InnerLossless, Apply;
    var bu := Apply(m, b, u);
    var d := Deflate(m, v, u, bu);
    InnerShape(ker, m, jMax, b, d, bu);
    InnerWidth(ker, m, jMax, b, d, bu);
    NotEmpty(ker, m, jMax, b, d, bu);
  }

  lemma {:induction false} NotEmpty(ker: Kernels, m: nat, turns: nat, b: Option<Mat>, u: Mat, bu: Mat)
    requires m > 0 && Inner(ker, m, turns, b, u, bu).u != []
    ensures !Inner(ker, m, turns, b, u, bu).empty
    decreases turns
  {
    hide Svqb, Apply;
    if turns > 0 {
      var u' := Svqb(ker, m, b, u);
      if |u'| > 0 && !ker.innerDone(u') {
        NotEmpty(ker, m, turns - 1, b, u', Apply(m, b, u'));
      }
    }
  }

  // ------------------------------------------------------------------ columns collinear to V

  predicate AllZero(m: nat, u: Mat) {
    forall j :: 0 <= j < |u| ==> u[j] == Zero(m)
  }

  lemma BNormZero(m: nat, b: Option<Mat>)
    ensures BNorm(m, b, Zero(m)) == 0.0
  {
    if b.Some? {
      MatVecZero(m, b.value, m);
    }
    DotZero(Zero(m));
  }

  lemma {:induction false} NonzeroNone(m: nat, b: Option<Mat>, u: Mat)
    requires AllZero(m, u)
    ensures Nonzero(m, b, u) == []
  {
    if u != [] {
      BNormZero(m, b);
      NonzeroNone(m, b, u[1..]);
    }
  }

  /** If nothing of U is left once its components along V are removed, no column is returned. */
  lemma OrthoVanishes(ker: Kernels, m: nat, iMax: nat, jMax: nat, b: Option<Mat>, u: Mat, v: Mat)
    requires Shapes(ker) && IsMat(u, m, |u|) && m > 0 && iMax > 0 && jMax > 0
    requires AllZero(m, Deflate(m, v, u, Apply(m, b, u)))
    ensures OrthoOf(ker, m, iMax, jMax, b, u, v) == Ok([])
  {
    hide Shapes, Deflate, Nonzero, Apply;
    NonzeroNone(m, b, Deflate(m, v, u, Apply(m, b, u)));
  }

  /** Entry (i, j) of V^T (B U). */
  lemma ProductEntry(m: nat, b: Option<Mat>, v: Mat, u: Mat, i: nat, j: nat)
    requires i < |v| && j < |u|
    ensures TransposeMul(v, Apply(m, b, u))[j][i] == Form(m, b, v[i], u[j])
  {
    ApplyColumn(m, b, u, j);
  }

  lemma ProductColumn(m: nat, b: Option<Mat>, v: Mat, u: Mat, j: nat)
    requires j < |u|
    ensures TransposeMul(v, Apply(m, b, u))[j] == FormColumn(m, b, v, u[j])
  {
    hide Form, TransposeMul, Apply;
    forall i | 0 <= i < |v| ensures TransposeMul(v, Apply(m, b, u))[j][i] == FormColumn(m, b, v, u[j])[i] {
      ProductEntry(m, b, v, u, i, j);
    }
  }

  /** Column j of the deflated block. */
  lemma DeflatedColumn(m: nat, b: Option<Mat>, v: Mat, u: Mat, j: nat)
    requires j < |u|
    ensures Deflate(m, v, u, Apply(m, b, u))[j] == Sub(u[j], MatVec(m, v, FormColumn(m, b, v, u[j])))
  {
    hide MatVec, TransposeMul, Apply, FormColumn;
    ProductColumn(m, b, v, u, j);
  }

  lemma SubSelf(v: Vec)
    ensures Sub(v, v) == Zero(|v|)
  {
  }

  /** Removing the components along orthonormal V from a combination of V leaves zero. */
  lemma DeflateCollinear(m: nat, b: Option<Mat>, v: Mat, c: Mat)
    requires IsMat(v, m, |v|) && IsMat(c, |v|, |c|) && Orthonormal(m, b, v)
    ensures var u := MatMul(m, v, c); AllZero(m, Deflate(m, v, u, Apply(m, b, u)))
  {
    hide Form, MatVec, Apply, Orthonormal, Deflate;
    var u := MatMul(m, v, c);
    forall j | 0 <= j < |c| ensures Deflate(m, v, u, Apply(m, b, u))[j] == Zero(m) {
      DeflatedColumn(m, b, v, u, j);
      forall i | 0 <= i < |v| ensures FormColumn(m, b, v, u[j])[i] == c[j][i] {
        FormPick(m, b, v, c[j], i);
      }
      assert FormColumn(m, b, v, u[j]) == c[j];
      SubSelf(u[j]);
    }
  }

  /** The documented case: if all columns of U are B-collinear to V, the result is empty. */
  lemma CollinearIsEmpty(ker: Kernels, m: nat, iMax: nat, jMax: nat, b: Option<Mat>, v: Mat, c: Mat)
    requires Shapes(ker) && m > 0 && iMax > 0 && jMax > 0
    requires IsMat(v, m, |v|) && IsMat(c, |v|, |c|) && Orthonormal(m, b, v)
    ensures OrthoOf(ker, m, iMax, jMax, b, MatMul(m, v, c), v) == Ok([])
  {
    hide Shapes, MatMul, Orthonormal, AllZero, OrthoOf;
    DeflateCollinear(m, b, v, c);
    OrthoVanishes(ker, m, iMax, jMax, b, MatMul(m, v, c), v);
  }
}
