/**
 The series of the LOBPCG backward pass that solves the Sylvester equation
 A X - X diag(D) = p(A) U, where p is the characteristic polynomial of diag(D), and the sign
 that makes the restriction of p(A) positive definite.
 */
module Sylvester {
  import opened LinearAlgebra
  import opened CharPoly
  import opened Wrappers

  // ------------------------------------------------------------------ the one-pass series

  /** The series for one column `w` with root `d`:  sum over k >= 1 of p_k(d) A^(k-1) w,
      where p_k is the polynomial with the first k coefficients dropped. */
  function Series(m: nat, a: Mat, c: seq<real>, w: Vec, d: real): (r: Vec)
    requires |w| == m
    ensures |r| == m
  {
    if |c| <= 1 then Zero(m)
    else Add(Scale(MonicValue(c[1..], d), w), Series(m, a, c[1..], MatVec(m, a, w), d))
  }

  lemma {:induction false} ApplyLength(m: nat, a: Mat, c: seq<real>, w: Vec)
    requires |w| == m
    ensures |MonicApply(m, a, c, w)| == m
  {
    if |c| > 1 {
      ApplyLength(m, a, c[1..], w);
    }
  }

  /** p(A) commutes with A. */
  lemma {:induction false} ApplyCommutes(m: nat, a: Mat, c: seq<real>, w: Vec)
    requires |w| == m
    ensures MatVec(m, a, MonicApply(m, a, c, w)) == MonicApply(m, a, c, MatVec(m, a, w))
  {
    hide Times;
    if |c| > 1 {
      var inner := MonicApply(m, a, c[1..], w);
      ApplyLength(m, a, c[1..], w);
      ApplyCommutes(m, a, c[1..], w);
      MatVecAdd(m, a, MatVec(m, a, inner), Scale(c[0], w));
      MatVecScale(m, a, c[0], w);
    }
  }

  lemma SylvesterArithmetic(h: real, d: real, c0: real, aw: real, w: real, ar: real, r: real, p: real)
    requires ar - d * r == p - h * aw
    ensures (h * aw + ar) - d * (h * w + r) == (p + c0 * w) - (c0 + d * h) * w
  {
    assert d * (h * w + r) == d * h * w + d * r;
    assert (c0 + d * h) * w == c0 * w + d * h * w;
  }

  lemma SylvesterVector(m: nat, h: real, d: real, c0: real, v: real, aw: Vec, w: Vec, ar: Vec, r: Vec, p: Vec)
    requires v == c0 + d * h
    requires |aw| == |w| == |ar| == |r| == |p| == m
    requires Sub(ar, Scale(d, r)) == Sub(p, Scale(h, aw))
    ensures Sub(Add(Scale(h, aw), ar), Scale(d, Add(Scale(h, w), r)))
            == Sub(Add(p, Scale(c0, w)), Scale(v, w))
  {
    var x := Add(Scale(h, w), r);
    var lhs, rhs := Sub(Add(Scale(h, aw), ar), Scale(d, x)), Sub(Add(p, Scale(c0, w)), Scale(v, w));
    forall i | 0 <= i < m ensures lhs[i] == rhs[i] {
      assert Sub(ar, Scale(d, r))[i] == ar[i] - d * r[i];
      assert Sub(p, Scale(h, aw))[i] == p[i] - h * aw[i];
      SylvesterArithmetic(h, d, c0, aw[i], w[i], ar[i], r[i], p[i]);
      assert x[i] == h * w[i] + r[i];
      assert Scale(d, x)[i] == d * x[i];
    }
  }

  lemma ZeroSides(m: nat, d: real, w: Vec)
    requires |w| == m
    ensures Sub(Zero(m), Scale(d, Zero(m))) == Sub(w, Scale(1.0, w))
  {
    forall i | 0 <= i < m ensures Sub(Zero(m), Scale(d, Zero(m)))[i] == Sub(w, Scale(1.0, w))[i] {
      assert d * Zero(m)[i] == 0.0;
    }
  }

  /** Before using that `d` is a root:  A X - d X = p(A) w - p(d) w  for the series X. */
  lemma {:induction false} SeriesIdentity(m: nat, a: Mat, c: seq<real>, w: Vec, d: real)
    requires |w| == m
    ensures Sub(MatVec(m, a, Series(m, a, c, w, d)), Scale(d, Series(m, a, c, w, d)))
            == Sub(MonicApply(m, a, c, w), Scale(MonicValue(c, d), w))
  {
    hide Times;
    if |c| <= 1 {
      MatVecZero(m, a, m);
      ZeroSides(m, d, w);
    } else {
      var aw, h := MatVec(m, a, w), MonicValue(c[1..], d);
      var rest, p := Series(m, a, c[1..], aw, d), MonicApply(m, a, c[1..], aw);
      SeriesIdentity(m, a, c[1..], aw, d);
      ApplyCommutes(m, a, c[1..], w);
      ApplyLength(m, a, c[1..], aw);
      MatVecAdd(m, a, Scale(h, w), rest);
      MatVecScale(m, a, h, w);
      SylvesterVector(m, h, d, c[0], MonicValue(c, d), aw, w, MatVec(m, a, rest), rest, p);
    }
  }

  /** For a root `d` of the characteristic polynomial the series solves  A X - d X = p(A) w. */
  lemma SeriesSolves(m: nat, a: Mat, roots: seq<real>, w: Vec, d: real)
    requires |w| == m && d in roots
    ensures Sub(MatVec(m, a, Series(m, a, FromRoots(roots), w, d)), Scale(d, Series(m, a, FromRoots(roots), w, d)))
            == MonicApply(m, a, FromRoots(roots), w)
  {
    var c := FromRoots(roots);
    SeriesIdentity(m, a, c, w, d);
    HornerOfRoots(roots, d);
    ApplyLength(m, a, c, w);
    var p := MonicApply(m, a, c, w);
    forall i | 0 <= i < m ensures Sub(p, Scale(MonicValue(c, d), w))[i] == p[i] {
      assert MonicValue(c, d) * w[i] == 0.0;
    }
    assert Sub(p, Scale(MonicValue(c, d), w)) == p;
  }

  // ------------------------------------------------------------------ the naive double sum

  function Power(x: real, k: nat): real {
    if k == 0 then 1.0 else Times(Power(x, k - 1), x)
  }

  /** A^k w */
  function ApplyPower(m: nat, a: Mat, k: nat, w: Vec): (r: Vec)
    requires |w| == m
    ensures |r| == m
  {
    if k == 0 then w else ApplyPower(m, a, k - 1, MatVec(m, a, w))
  }

  /** The inner loop: sum over i < n of A^(k-1-i) w * d^i. */
  function InnerSum(m: nat, a: Mat, w: Vec, d: real, k: nat, n: nat): (r: Vec)
    requires |w| == m && n <= k
    ensures |r| == m
  {
    if n == 0 then Zero(m)
    else Add(InnerSum(m, a, w, d, k, n - 1), Scale(Power(d, n - 1), ApplyPower(m, a, k - n, w)))
  }

  /** The outer loop: sum over 1 <= k <= n of c_k times the inner sum. */
  function NaiveSum(m: nat, a: Mat, c: seq<real>, w: Vec, d: real, n: nat): (r: Vec)
    requires |w| == m && n < |c|
    ensures |r| == m
  {
    if n == 0 then Zero(m)
    else Add(NaiveSum(m, a, c, w, d, n - 1), Scale(c[n], InnerSum(m, a, w, d, n, n)))
  }

  /** c_0 d^0 + ... + c_{n-1} d^(n-1) */
  function PowerSum(c: seq<real>, d: real, n: nat): real
    requires n <= |c|
  {
    if n == 0 then 0.0 else PowerSum(c, d, n - 1) + Times(c[n - 1], Power(d, n - 1))
  }

  lemma {:induction false} InnerShift(m: nat, a: Mat, w: Vec, d: real, k: nat, n: nat)
    requires |w| == m && n <= k
    ensures InnerSum(m, a, w, d, k + 1, n) == InnerSum(m, a, MatVec(m, a, w), d, k, n)
  {
    if n > 0 {
      InnerShift(m, a, w, d, k, n - 1);
    }
  }

  lemma ExchangeArithmetic(n: real, ps: real, w: real, ck: real, inner: real, pk: real)
    ensures (n + ps * w) + ck * (inner + pk * w) == (n + ck * inner) + (ps + ck * pk) * w
  {
    assert ck * (inner + pk * w) == ck * inner + ck * pk * w;
    assert (ps + ck * pk) * w == ps * w + ck * pk * w;
  }

  lemma ExchangeVector(m: nat, n: Vec, ps: real, total: real, w: Vec, ck: real, inner: Vec, pk: real)
    requires total == ps + Times(ck, pk)
    requires |n| == |w| == |inner| == m
    ensures Add(Add(n, Scale(ps, w)), Scale(ck, Add(inner, Scale(pk, w))))
            == Add(Add(n, Scale(ck, inner)), Scale(total, w))
  {
    var x := Add(inner, Scale(pk, w));
    var lhs, rhs := Add(Add(n, Scale(ps, w)), Scale(ck, x)), Add(Add(n, Scale(ck, inner)), Scale(total, w));
    forall i | 0 <= i < m ensures lhs[i] == rhs[i] {
      ExchangeArithmetic(n[i], ps, w[i], ck, inner[i], pk);
      assert x[i] == inner[i] + pk * w[i];
      assert Scale(ck, x)[i] == ck * x[i];
    }
  }

  lemma FirstTerm(m: nat, c1: real, total: real, w: Vec)
    requires |w| == m && total == c1
    ensures Add(Zero(m), Scale(c1, Add(Zero(m), Scale(1.0, w)))) == Add(Zero(m), Scale(total, w))
  {
    assert Add(Zero(m), Scale(1.0, w)) == w;
  }

  lemma InnerPeel(m: nat, a: Mat, w: Vec, d: real, n: nat)
    requires |w| == m
    ensures InnerSum(m, a, w, d, n + 1, n + 1)
            == Add(InnerSum(m, a, MatVec(m, a, w), d, n, n), Scale(Power(d, n), w))
  {
    InnerShift(m, a, w, d, n, n);
  }

  lemma NaiveFirst(m: nat, a: Mat, c: seq<real>, w: Vec, d: real)
    requires |w| == m && 1 < |c|
    ensures NaiveSum(m, a, c, w, d, 1)
            == Add(NaiveSum(m, a, c[1..], MatVec(m, a, w), d, 0), Scale(PowerSum(c[1..], d, 1), w))
  {
    InnerPeel(m, a, w, d, 0);
    assert PowerSum(c[1..], d, 0) == 0.0;
    FirstTerm(m, c[1], PowerSum(c[1..], d, 1), w);
  }

  /** Exchange of summation: peeling the first coefficient off the double sum. */
  lemma {:induction false} NaivePeel(m: nat, a: Mat, c: seq<real>, w: Vec, d: real, n: nat)
    requires |w| == m && n + 1 < |c|
    ensures NaiveSum(m, a, c, w, d, n + 1)
            == Add(NaiveSum(m, a, c[1..], MatVec(m, a, w), d, n), Scale(PowerSum(c[1..], d, n + 1), w))
  {
    hide Times;
    if n == 0 {
      NaiveFirst(m, a, c, w, d);
    } else {
      var c', aw := c[1..], MatVec(m, a, w);
      NaivePeel(m, a, c, w, d, n - 1);
      InnerPeel(m, a, w, d, n);
      var inner := InnerSum(m, a, aw, d, n, n);
      var total := PowerSum(c', d, n + 1);
      ExchangeVector(m, NaiveSum(m, a, c', aw, d, n - 1), PowerSum(c', d, n), total, w, c'[n], inner, Power(d, n));
      assert NaiveSum(m, a, c', aw, d, n) == Add(NaiveSum(m, a, c', aw, d, n - 1), Scale(c'[n], inner));
    }
  }

  lemma {:induction false} PowerSumPeel(c: seq<real>, d: real, n: nat)
    requires n < |c|
    ensures PowerSum(c, d, n + 1) == c[0] + d * PowerSum(c[1..], d, n)
  {
    if n > 0 {
      PowerSumPeel(c, d, n - 1);
      assert d * (PowerSum(c[1..], d, n - 1) + c[n] * Power(d, n - 1))
          == d * PowerSum(c[1..], d, n - 1) + c[n] * (Power(d, n - 1) * d);
    } else {
      assert PowerSum(c, d, 1) == PowerSum(c, d, 0) + c[0] * Power(d, 0);
    }
  }

  lemma {:induction false} PowerSumIsMonic(c: seq<real>, d: real)
    requires c != [] && c[|c| - 1] == 1.0
    ensures PowerSum(c, d, |c|) == MonicValue(c, d)
  {
    PowerSumPeel(c, d, |c| - 1);
    if |c| > 1 {
      PowerSumIsMonic(c[1..], d);
    }
  }

  lemma AddCommutes(u: Vec, v: Vec)
    requires |u| == |v|
    ensures Add(u, v) == Add(v, u)
  {
  }

  /** The one-pass series equals the naive double sum, for every monic polynomial, matrix, vector and `d`. */
  lemma {:induction false} SeriesIsNaive(m: nat, a: Mat, c: seq<real>, w: Vec, d: real)
    requires |w| == m && c != [] && c[|c| - 1] == 1.0
    ensures Series(m, a, c, w, d) == NaiveSum(m, a, c, w, d, |c| - 1)
  {
    hide Times, InnerSum, Power, ApplyPower;
    if |c| > 1 {
      var c', aw := c[1..], MatVec(m, a, w);
      SeriesIsNaive(m, a, c', aw, d);
      NaivePeel(m, a, c, w, d, |c'| - 1);
      PowerSumIsMonic(c', d);
      var first, rest := Scale(MonicValue(c', d), w), NaiveSum(m, a, c', aw, d, |c'| - 1);
      assert Series(m, a, c, w, d) == Add(first, rest);
      assert NaiveSum(m, a, c, w, d, |c'|) == Add(rest, first);
      AddCommutes(first, rest);
    }
  }

  /** Horner's rule at the matrix equals the sum of the powers, c_0 w + c_1 A w + ... + c_n A^n w. */
  function PowersApplied(m: nat, a: Mat, c: seq<real>, w: Vec): (r: Vec)
    requires |w| == m
    ensures |r| == m
  {
    if c == [] then Zero(m)
    else Add(PowersApplied(m, a, c[..|c| - 1], w), Scale(c[|c| - 1], ApplyPower(m, a, |c| - 1, w)))
  }

  lemma AddSwap(u: Vec, v: Vec, w: Vec)
    requires |u| == |v| == |w|
    ensures Add(Add(u, v), w) == Add(Add(u, w), v)
  {
  }

  lemma {:induction false} PowersPeel(m: nat, a: Mat, c: seq<real>, w: Vec)
    requires |w| == m && c != []
    ensures PowersApplied(m, a, c, w) == Add(PowersApplied(m, a, c[1..], MatVec(m, a, w)), Scale(c[0], w))
  {
    hide Times;
    var aw, n := MatVec(m, a, w), |c| - 1;
    if n == 0 {
      assert c[..0] == [] && c[1..] == [];
    } else {
      PowersPeel(m, a, c[..n], w);
      var middle, last := c[1..][..n - 1], Scale(c[n], ApplyPower(m, a, n, w));
      assert c[..n][1..] == middle;
      AddSwap(PowersApplied(m, a, middle, aw), Scale(c[0], w), last);
    }
  }

  lemma {:induction false} MonicIsPowers(m: nat, a: Mat, c: seq<real>, w: Vec)
    requires |w| == m && c != [] && c[|c| - 1] == 1.0
    ensures MonicApply(m, a, c, w) == PowersApplied(m, a, c, w)
  {
    PowersPeel(m, a, c, w);
    if |c| == 1 {
      assert c[1..] == [];
      assert Scale(1.0, w) == w;
      assert Add(Zero(m), w) == w;
    } else {
      MonicIsPowers(m, a, c[1..], w);
      MonicIsPowers(m, a, c[1..], MatVec(m, a, w));
      ApplyCommutes(m, a, c[1..], w);
    }
  }

  // ------------------------------------------------------------------ the sign before Cholesky

  /** Every eigenvalue left out lies below the `largest` ones, or above the smallest ones. */
  predicate Beyond(roots: seq<real>, x: real, largest: bool) {
    forall i :: 0 <= i < |roots| ==> if largest then x < roots[i] else roots[i] < x
  }

  function Sign(largest: bool, k: nat): real {
    if largest && k % 2 == 1 then -1.0 else 1.0
  }

  lemma SignRule(p: real, f: real)
    requires p > 0.0 && f > 0.0
    ensures Times(p, f) > 0.0
  {
  }

  lemma NegativeRule(p: real, f: real)
    requires p < 0.0 && f < 0.0
    ensures Times(p, f) > 0.0
  {
  }

  lemma {:induction false} SignOfProduct(roots: seq<real>, x: real, largest: bool)
    requires Beyond(roots, x, largest)
    ensures Sign(largest, |roots|) * Product(roots, x) > 0.0
  {
    if roots != [] {
      var n := |roots| - 1;
      SignOfProduct(roots[..n], x, largest);
      var p, f := Product(roots[..n], x), x - roots[n];
      assert Product(roots, x) == p * f;
      if !largest {
        SignRule(p, f);
      } else if n % 2 == 0 {
        SignRule(p, -f);
      } else {
        NegativeRule(p, f);
      }
    }
  }

  /** The same through the code's coefficients and Horner's rule. */
  lemma SignOfHorner(roots: seq<real>, x: real, largest: bool)
    requires Beyond(roots, x, largest)
    ensures Sign(largest, |roots|) * MonicValue(FromRoots(roots), x) > 0.0
  {
    SignOfProduct(roots, x, largest);
    HornerOfRoots(roots, x);
  }

  lemma {:induction false} ApplyAdd(m: nat, a: Mat, c: seq<real>, u: Vec, v: Vec)
    requires |u| == |v| == m
    ensures MonicApply(m, a, c, Add(u, v)) == Add(MonicApply(m, a, c, u), MonicApply(m, a, c, v))
  {
    hide Times;
    if |c| > 1 {
      var pu, pv := MonicApply(m, a, c[1..], u), MonicApply(m, a, c[1..], v);
      ApplyAdd(m, a, c[1..], u, v);
      ApplyLength(m, a, c[1..], u);
      ApplyLength(m, a, c[1..], v);
      MatVecAdd(m, a, pu, pv);
      AddScaled(m, MatVec(m, a, pu), MatVec(m, a, pv), c[0], u, v);
    }
  }

  lemma AddScaled(m: nat, p: Vec, q: Vec, c: real, u: Vec, v: Vec)
    requires |p| == |q| == |u| == |v| == m
    ensures Add(Add(p, q), Scale(c, Add(u, v))) == Add(Add(p, Scale(c, u)), Add(q, Scale(c, v)))
  {
    var lhs, rhs := Add(Add(p, q), Scale(c, Add(u, v))), Add(Add(p, Scale(c, u)), Add(q, Scale(c, v)));
    forall i | 0 <= i < m ensures lhs[i] == rhs[i] {
      assert Scale(c, Add(u, v))[i] == c * (u[i] + v[i]) == c * u[i] + c * v[i];
    }
  }

  lemma ScaleOne(v: Vec)
    ensures Scale(1.0, v) == v
  {
  }

  lemma EigenStep(m: nat, x: real, h: real, c0: real, total: real, v: Vec)
    requires |v| == m && total == c0 + x * h
    ensures Add(Scale(h, Scale(x, v)), Scale(c0, v)) == Scale(total, v)
  {
    var lhs, rhs := Add(Scale(h, Scale(x, v)), Scale(c0, v)), Scale(total, v);
    forall i | 0 <= i < m ensures lhs[i] == rhs[i] {
      assert Scale(h, Scale(x, v))[i] == h * (x * v[i]);
      assert h * (x * v[i]) + c0 * v[i] == (c0 + x * h) * v[i];
    }
  }

  /** On an eigenvector, p(A) multiplies by p(eigenvalue). */
  lemma {:induction false} ApplyEigenvector(m: nat, a: Mat, c: seq<real>, v: Vec, x: real)
    requires |v| == m && MatVec(m, a, v) == Scale(x, v)
    ensures MonicApply(m, a, c, v) == Scale(MonicValue(c, x), v)
  {
    hide Times;
    if |c| <= 1 {
      ScaleOne(v);
    } else {
      var h := MonicValue(c[1..], x);
      ApplyEigenvector(m, a, c[1..], v, x);
      MatVecScale(m, a, h, v);
      EigenStep(m, x, h, c[0], MonicValue(c, x), v);
    }
  }

  lemma {:induction false} ApplyScale(m: nat, a: Mat, c: seq<real>, k: real, v: Vec)
    requires |v| == m
    ensures MonicApply(m, a, c, Scale(k, v)) == Scale(k, MonicApply(m, a, c, v))
  {
    hide Times;
    if |c| > 1 {
      var pv := MonicApply(m, a, c[1..], v);
      ApplyScale(m, a, c[1..], k, v);
      ApplyLength(m, a, c[1..], v);
      MatVecScale(m, a, k, pv);
      ScaleOut(m, MatVec(m, a, pv), k, c[0], v);
    }
  }

  lemma ScaleOut(m: nat, p: Vec, k: real, c: real, v: Vec)
    requires |p| == |v| == m
    ensures Add(Scale(k, p), Scale(c, Scale(k, v))) == Scale(k, Add(p, Scale(c, v)))
  {
    var lhs, rhs := Add(Scale(k, p), Scale(c, Scale(k, v))), Scale(k, Add(p, Scale(c, v)));
    forall i | 0 <= i < m ensures lhs[i] == rhs[i] {
      assert Scale(c, Scale(k, v))[i] == c * (k * v[i]);
      assert k * (p[i] + c * v[i]) == k * p[i] + c * (k * v[i]);
    }
  }

  /** Pairwise orthogonal, nonzero eigenvectors `vs` of `a` with eigenvalues `xs`. */
  ghost predicate Eigenbasis(m: nat, a: Mat, vs: Mat, xs: seq<real>) {
    && IsMat(vs, m, |xs|)
    && (forall j :: 0 <= j < |vs| ==> MatVec(m, a, vs[j]) == Scale(xs[j], vs[j]))
    && (forall i, j :: 0 <= i < j < |vs| ==> Dot(vs[i], vs[j]) == 0.0)
    && (forall j :: 0 <= j < |vs| ==> Dot(vs[j], vs[j]) > 0.0)
  }

  /** The combination t_0 v_0 + ... of the basis, and its image under p(A), split at the first vector. */
  lemma CombinationSplit(m: nat, a: Mat, c: seq<real>, vs: Mat, xs: seq<real>, t: seq<real>)
    requires Eigenbasis(m, a, vs, xs) && |t| == |vs| > 0
    ensures MatVec(m, vs, t) == Add(Scale(t[0], vs[0]), MatVec(m, vs[1..], t[1..]))
    ensures MonicApply(m, a, c, MatVec(m, vs, t))
            == Add(Scale(t[0], Scale(MonicValue(c, xs[0]), vs[0])), MonicApply(m, a, c, MatVec(m, vs[1..], t[1..])))
    ensures Eigenbasis(m, a, vs[1..], xs[1..])
  {
    hide Times;
    MatVecSplit(m, vs, t);
    ApplyAdd(m, a, c, Scale(t[0], vs[0]), MatVec(m, vs[1..], t[1..]));
    ApplyScale(m, a, c, t[0], vs[0]);
    ApplyEigenvector(m, a, c, vs[0], xs[0]);
  }

  lemma TimesZero()
    ensures forall k :: Times(k, 0.0) == 0.0
  {
  }

  /** A vector orthogonal to the basis is orthogonal to every combination and to its image under p(A). */
  lemma {:induction false} SpanOrthogonal(m: nat, a: Mat, c: seq<real>, vs: Mat, xs: seq<real>, t: seq<real>, v: Vec)
    requires Eigenbasis(m, a, vs, xs) && |t| == |vs| && |v| == m
    requires forall j :: 0 <= j < |vs| ==> Dot(v, vs[j]) == 0.0
    ensures Dot(v, MatVec(m, vs, t)) == 0.0
    ensures Dot(v, MonicApply(m, a, c, MatVec(m, vs, t))) == 0.0
  {
    hide Times, Dot;
    if vs == [] {
      assert MatVec(m, vs, t) == Zero(m);
      DotZero(v);
      ApplyZero(m, a, c);
    } else {
      TimesZero();
      var rest := MatVec(m, vs[1..], t[1..]);
      var k, p0 := t[0], MonicValue(c, xs[0]);
      CombinationSplit(m, a, c, vs, xs, t);
      SpanOrthogonal(m, a, c, vs[1..], xs[1..], t[1..], v);
      ApplyLength(m, a, c, rest);
      DotAdd(v, Scale(k, vs[0]), rest);
      DotScale(v, k, vs[0]);
      DotAdd(v, Scale(k, Scale(p0, vs[0])), MonicApply(m, a, c, rest));
      DotScale(v, k, Scale(p0, vs[0]));
      DotScale(v, p0, vs[0]);
    }
  }

  lemma {:induction false} ApplyZero(m: nat, a: Mat, c: seq<real>)
    ensures MonicApply(m, a, c, Zero(m)) == Zero(m)
  {
    if |c| > 1 {
      ApplyZero(m, a, c[1..]);
      MatVecZero(m, a, m);
      forall i | 0 <= i < m ensures Add(Zero(m), Scale(c[0], Zero(m)))[i] == 0.0 {
        assert c[0] * Zero(m)[i] == 0.0;
      }
    }
  }

  lemma DotThrough(v: Vec, k: real, p: real, u: Vec, w: Vec)
    requires |v| == |u| == |w|
    ensures Dot(v, Add(Scale(k, Scale(p, u)), w)) == Times(k, Times(p, Dot(v, u))) + Dot(v, w)
  {
    hide Times, Dot;
    DotAdd(v, Scale(k, Scale(p, u)), w);
    DotScale(v, k, Scale(p, u));
    DotScale(v, p, u);
  }

  lemma DotFromLeft(k: real, v: Vec, rest: Vec, image: Vec)
    requires |v| == |rest| == |image|
    ensures Dot(Add(Scale(k, v), rest), image) == Times(k, Dot(v, image)) + Dot(rest, image)
  {
    hide Times, Dot;
    DotSymmetric(Add(Scale(k, v), rest), image);
    DotAdd(image, Scale(k, v), rest);
    DotSymmetric(image, rest);
    DotScale(image, k, v);
    DotSymmetric(image, v);
  }

  lemma QuadraticArithmetic(k: real, p: real, vv: real)
    ensures Times(k, Times(p, 0.0)) == 0.0
    ensures Times(k, Times(k, Times(p, vv))) == Times(Times(k, k), Times(p, vv))
  {
  }

  /** <k v + rest, k p v + prest> when v is orthogonal to rest and to prest. */
  lemma QuadraticSplit(k: real, p: real, v: Vec, rest: Vec, prest: Vec)
    requires |v| == |rest| == |prest| && Dot(v, rest) == 0.0 && Dot(v, prest) == 0.0
    ensures Dot(Add(Scale(k, v), rest), Add(Scale(k, Scale(p, v)), prest))
            == Times(Times(k, k), Times(p, Dot(v, v))) + Dot(rest, prest)
  {
    hide Times, Dot;
    var image := Add(Scale(k, Scale(p, v)), prest);
    DotFromLeft(k, v, rest, image);
    DotThrough(v, k, p, v, prest);
    DotThrough(rest, k, p, v, prest);
    DotSymmetric(rest, v);
    QuadraticArithmetic(k, p, Dot(v, v));
  }

  /** The quadratic form of p(A) on the basis is diagonal: peeling one vector adds t^2 p(x) |v|^2. */
  lemma QuadraticPeel(m: nat, a: Mat, c: seq<real>, vs: Mat, xs: seq<real>, t: seq<real>)
    requires Eigenbasis(m, a, vs, xs) && |t| == |vs| > 0
    ensures var w, rest := MatVec(m, vs, t), MatVec(m, vs[1..], t[1..]);
            Dot(w, MonicApply(m, a, c, w))
            == Times(Times(t[0], t[0]), Times(MonicValue(c, xs[0]), Dot(vs[0], vs[0])))
               + Dot(rest, MonicApply(m, a, c, rest))
  {
    hide Times, Dot;
    var rest := MatVec(m, vs[1..], t[1..]);
    CombinationSplit(m, a, c, vs, xs, t);
    SpanOrthogonal(m, a, c, vs[1..], xs[1..], t[1..], vs[0]);
    ApplyLength(m, a, c, rest);
    QuadraticSplit(t[0], MonicValue(c, xs[0]), vs[0], rest, MonicApply(m, a, c, rest));
  }

  ghost predicate Nonzero(t: seq<real>) {
    exists j :: 0 <= j < |t| && t[j] != 0.0
  }

  lemma NonzeroTail(t: seq<real>)
    requires Nonzero(t) && t[0] == 0.0
    ensures Nonzero(t[1..])
  {
    var j :| 0 <= j < |t| && t[j] != 0.0;
    assert t[1..][j - 1] != 0.0;
  }

  /** The quadratic form of p(A), with the chosen sign, at the combination `t` of the basis `vs`. */
  ghost function SignedForm(m: nat, a: Mat, roots: seq<real>, largest: bool, vs: Mat, t: seq<real>): real {
    var w := MatVec(m, vs, t);
    Times(Sign(largest, |roots|), Dot(w, MonicApply(m, a, FromRoots(roots), w)))
  }

  lemma FormPeel(m: nat, a: Mat, roots: seq<real>, largest: bool, vs: Mat, xs: seq<real>, t: seq<real>)
    requires Eigenbasis(m, a, vs, xs) && |t| == |vs| > 0 && Beyond(roots, xs[0], largest)
    ensures SignedForm(m, a, roots, largest, vs, t) >= SignedForm(m, a, roots, largest, vs[1..], t[1..])
    ensures t[0] != 0.0 ==> SignedForm(m, a, roots, largest, vs, t) > SignedForm(m, a, roots, largest, vs[1..], t[1..])
  {
    hide Times, Dot, MatVec, MonicApply;
    var c, rest := FromRoots(roots), MatVec(m, vs[1..], t[1..]);
    QuadraticPeel(m, a, c, vs, xs, t);
    SignOfHorner(roots, xs[0], largest);
    Square(t[0]);
    TermSign(Sign(largest, |roots|), Times(t[0], t[0]), MonicValue(c, xs[0]), Dot(vs[0], vs[0]),
             Dot(rest, MonicApply(m, a, c, rest)));
  }

  /** What the Cholesky step relies on: on the span of the eigenvectors that were left out, the chosen
      sign makes the quadratic form of p(A) nonnegative, and positive away from zero. */
  lemma {:induction false} DefiniteBeyondRoots(m: nat, a: Mat, roots: seq<real>, largest: bool,
                                               vs: Mat, xs: seq<real>, t: seq<real>)
    requires Eigenbasis(m, a, vs, xs) && |t| == |vs|
    requires forall j :: 0 <= j < |xs| ==> Beyond(roots, xs[j], largest)
    ensures SignedForm(m, a, roots, largest, vs, t) >= 0.0
    ensures Nonzero(t) ==> SignedForm(m, a, roots, largest, vs, t) > 0.0
  {
    if vs == [] {
      assert MatVec(m, vs, t) == Zero(m);
      ApplyZero(m, a, FromRoots(roots));
      DotZero(Zero(m));
    } else {
      FormPeel(m, a, roots, largest, vs, xs, t);
      assert Eigenbasis(m, a, vs[1..], xs[1..]);
      DefiniteBeyondRoots(m, a, roots, largest, vs[1..], xs[1..], t[1..]);
      if Nonzero(t) && t[0] == 0.0 {
        NonzeroTail(t);
      }
    }
  }

  lemma Square(k: real)
    ensures Times(k, k) >= 0.0 && (k != 0.0 ==> Times(k, k) > 0.0)
  {
    if k > 0.0 {
      SignRule(k, k);
    } else if k < 0.0 {
      NegativeRule(k, k);
    }
  }

  lemma TermSign(s: real, k2: real, p: real, v2: real, rest: real)
    requires s * p > 0.0 && v2 > 0.0 && k2 >= 0.0
    ensures Times(s, Times(k2, Times(p, v2)) + rest) >= Times(s, rest)
    ensures k2 > 0.0 ==> Times(s, Times(k2, Times(p, v2)) + rest) > Times(s, rest)
  {
    var q := (s * p) * v2;
    SignRule(s * p, v2);
    assert s * (k2 * (p * v2) + rest) == k2 * q + s * rest;
    if k2 > 0.0 {
      SignRule(k2, q);
    }
  }

  // ------------------------------------------------------------------ the backward pass

  datatype Pieces = Pieces(series: Mat, atA: Mat, sign: real)
  datatype Error = UnboundLoopVariable

  /** The series loop for all columns at once. */
  method SeriesColumns(m: nat, a: Mat, c: seq<real>, roots: Vec, uGrad: Mat) returns (acc: Mat, last: nat)
    requires IsMat(uGrad, m, |roots|) && c != []
    ensures IsMat(acc, m, |roots|) && last == |c| - 1
    ensures forall j :: 0 <= j < |roots| ==> acc[j] == Series(m, a, c, uGrad[j], roots[j])
  {
    var projected := uGrad;
    acc := seq(|uGrad|, _ => Zero(m));
    forall j | 0 <= j < |roots|
      ensures Add(acc[j], Series(m, a, c, projected[j], roots[j])) == Series(m, a, c, uGrad[j], roots[j])
    {
    }
    last := 0;
    for k := 1 to |c|
      invariant IsMat(projected, m, |roots|) && IsMat(acc, m, |roots|) && last == k - 1
      invariant forall j :: 0 <= j < |roots| ==>
        Add(acc[j], Series(m, a, c[k - 1..], projected[j], roots[j])) == Series(m, a, c, uGrad[j], roots[j])
    {
      var polyD := VectorPolynomialValue(c[k..], roots);
      var before := acc;
      acc := seq(|roots|, j requires 0 <= j < |roots| => Add(before[j], Scale(polyD[j], projected[j])));
      var next := MatMul(m, a, projected);
      assert c[k - 1..][1..] == c[k..];
      forall j | 0 <= j < |roots|
        ensures Add(acc[j], Series(m, a, c[k..], next[j], roots[j])) == Series(m, a, c, uGrad[j], roots[j])
      {
        AddAssociates(before[j], Scale(polyD[j], projected[j]), Series(m, a, c[k..], next[j], roots[j]));
      }
      projected := next;
      last := k;
    }
    forall j | 0 <= j < |roots| ensures acc[j] == Series(m, a, c, uGrad[j], roots[j]) {
      assert Add(acc[j], Zero(m)) == acc[j];
    }
  }

  lemma AddAssociates(u: Vec, v: Vec, w: Vec)
    requires |u| == |v| == |w|
    ensures Add(Add(u, v), w) == Add(u, Add(v, w))
  {
  }

  /** The part of `_symeig_backward_partial_eigenspace` up to the Cholesky factorisation. */
  method BackwardPieces(m: nat, a: Mat, roots: Vec, uGrad: Mat, largest: bool, requiresGrad: bool)
    returns (r: Result<Pieces, Error>)
    requires IsMat(a, m, m) && IsMat(uGrad, m, |roots|)
    ensures r.Err? <==> largest && roots == []
    ensures r.Ok? ==> IsMat(r.value.series, m, |roots|) && IsMat(r.value.atA, m, m)
    ensures r.Ok? ==> forall j :: 0 <= j < |roots| ==>
      r.value.series[j] == NaiveSum(m, a, FromRoots(roots), uGrad[j], roots[j], |roots|)
    ensures r.Ok? ==> forall j :: 0 <= j < |roots| ==>
      Sub(MatVec(m, a, r.value.series[j]), Scale(roots[j], r.value.series[j])) == MatVec(m, r.value.atA, uGrad[j])
    ensures r.Ok? ==> forall w: Vec :: |w| == m ==>
      MatVec(m, r.value.atA, w) == PowersApplied(m, a, FromRoots(roots), w)
    ensures r.Ok? ==> forall x: real :: Beyond(roots, x, largest) ==>
      r.value.sign * MonicValue(FromRoots(roots), x) > 0.0
  {
    hide Times, Series, NaiveSum, PowersApplied, MonicApply, MonicValue, FromRoots;
    var c := CoefficientsGivenRoots(roots, requiresGrad);
    var series, k := SeriesColumns(m, a, c, roots, uGrad);
    var atA := MatrixPolynomialValue(m, c, a);
    if largest && roots == [] {
      return Err(UnboundLoopVariable);  // only then does the sign test read the variable of a loop that never ran
    }
    var sign := if largest && k % 2 == 1 then -1.0 else 1.0;
    forall j | 0 <= j < |roots|
      ensures series[j] == NaiveSum(m, a, c, uGrad[j], roots[j], |roots|)
      ensures Sub(MatVec(m, a, series[j]), Scale(roots[j], series[j])) == MatVec(m, atA, uGrad[j])
    {
      ColumnSolves(m, a, roots, uGrad[j], roots[j]);
    }
    forall w: Vec | |w| == m ensures MatVec(m, atA, w) == PowersApplied(m, a, c, w) {
      MonicFromRoots(roots);
      MonicIsPowers(m, a, c, w);
    }
    forall x: real | Beyond(roots, x, largest) ensures sign * MonicValue(c, x) > 0.0 {
      SignOfHorner(roots, x, largest);
    }
    r := Ok(Pieces(series, atA, sign));
  }

  lemma ColumnSolves(m: nat, a: Mat, roots: Vec, u: Vec, d: real)
    requires |u| == m && d in roots
    ensures var c := FromRoots(roots);
            var x := Series(m, a, c, u, d);
            && x == NaiveSum(m, a, c, u, d, |roots|)
            && Sub(MatVec(m, a, x), Scale(d, x)) == MonicApply(m, a, c, u)
  {
    hide Times;
    MonicFromRoots(roots);
    SeriesIsNaive(m, a, FromRoots(roots), u, d);
    SeriesSolves(m, a, roots, u, d);
  }
}
