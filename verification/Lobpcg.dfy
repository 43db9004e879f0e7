/**
 The LOBPCG iteration: an object whose `update` refreshes the eigenpair estimates X, E, the
 residual R and the search basis S, locking the leading converged pairs.
 */
module Lobpcg {
  import opened LinearAlgebra
  import opened Wrappers
  import opened Forms
  import opened LobpcgSteps
  import opened LobpcgOrtho
  import opened LobpcgRitz
  import opened LobpcgGram
  import opened LobpcgExact

  /** What the first orthogonal update leaves: the number of converged pairs, and the width of the new block. */
  datatype Start = Start(x: Mat, r: Mat, count: nat, width: nat)

  ghost function FirstOrtho(p: Params, ker: Kernels, a: Mat, b: Option<Mat>, x: Mat, e: Vec): Start
    requires Shapes(ker) && |e| == |x|
  {
    FirstShape(ker, p.m, a, x, p.largest);
    var x1 := FirstStep(ker, p.m, a, x, p.largest).x;
    var r := Residual(p.m, a, b, x1, e);
    var w := OrthoOf(ker, p.m, p.orthoIMax, p.orthoJMax, b, r, x1);
    Start(x1, r, Leading(ker, r, x1, e, 0), if w.Ok? then |w.value| else 0)
  }

  /** The start makes the second update fail: the first one neither stops the run nor leaves enough directions. */
  ghost predicate Starves(p: Params, ker: Kernels, a: Mat, b: Option<Mat>, x: Mat, e: Vec)
    requires Shapes(ker) && |e| == |x|
  {
    var start := FirstOrtho(p, ker, a, b, x, e);
    p.variant.Ortho? && !p.cuda && p.niter != 1 && start.count < p.k && start.count + start.width < p.n
  }

  /** The basic method never fails. */
  lemma NoStarving(p: Params, ker: Kernels, a: Mat, b: Option<Mat>, x: Mat, e: Vec)
    requires Shapes(ker) && |e| == |x|
    ensures Starves(p, ker, a, b, x, e) ==> p.variant.Ortho?
  {
    hide FirstOrtho, Shapes;
  }

  /** The count has not fallen below `c`, and the pairs before `c` keep vector, value and residual. */
  predicate Keeps(x: Mat, e: Vec, r: Mat, c: nat, x': Mat, e': Vec, r': Mat, c': nat) {
    && c <= c' && c <= |x| && c <= |e| && c <= |r| && c <= |x'| && c <= |e'| && c <= |r'|
    && x'[..c] == x[..c] && e'[..c] == e[..c] && r'[..c] == r[..c]
  }

  class Worker {
    const p: Params
    const ker: Kernels
    const a: Mat
    const b: Option<Mat>
    const iK: Option<Mat>
    var X: Mat
    var E: Vec
    var R: Mat
    var S: Mat
    var istep: nat
    var iterationsLeft: int
    var convergedCount: nat
    var convergedEnd: nat

    /** Inputs of matching shape, and enough rows. */
    ghost predicate Setting() {
      && Shapes(ker)
      && 3 * p.n <= p.m
    }

    ghost predicate Widths()
      reads this`X, this`E, this`R, this`S
    {
      IsMat(X, p.m, p.n) && |E| == p.n && IsMat(R, p.m, p.n) && IsMat(S, p.m, 3 * p.n)
    }

    /** The state after the eigenpairs were refreshed and the search basis rebuilt. */
    ghost predicate Refreshed()
      reads this`X, this`E, this`R, this`S, this`convergedCount, this`convergedEnd
      ensures Refreshed() ==> Setting() && Widths()
    {
      && Setting() && Widths()
      && p.n <= convergedEnd <= 3 * p.n
      && R == Residual(p.m, a, b, X, E)
      && convergedCount == Leading(ker, R, X, E, 0)
      && S[..p.n] == X
    }

    /** What holds between updates. */
    ghost predicate Valid()
      reads this
    {
      && Setting()
      && Widths()
      && (istep == 0 ==> convergedCount == 0 && convergedEnd == 0)
      && (istep > 0 ==> iterationsLeft == p.niter - istep && Refreshed())
      && (istep > 1 && p.variant.Ortho? && !p.cuda ==> convergedEnd - p.n >= p.n - convergedCount)
    }

    constructor (p: Params, ker: Kernels, a: Mat, b: Option<Mat>, iK: Option<Mat>, x: Mat)
      requires Shapes(ker) && 3 * p.n <= p.m && IsMat(x, p.m, p.n)
      ensures Valid() && istep == 0 && X == x && E == Zero(p.n)
      ensures this.p == p && this.ker == ker && this.a == a && this.b == b && this.iK == iK
    {
      hide Shapes;
      this.p, this.ker, this.a, this.b, this.iK := p, ker, a, b, iK;
      X := x;
      E := Zero(p.n);
      R := seq(p.n, _ => Zero(p.m));
      S := seq(3 * p.n, _ => Zero(p.m));
      istep, iterationsLeft, convergedCount, convergedEnd := 0, 0, 0, 0;
    }

    method UpdateResidual()
      requires |E| == |X|
      modifies this`R
      ensures |R| == |X| && R == Residual(p.m, a, b, X, E)
      // a residual vanishes exactly at an eigenpair of A, or of the pencil of A and B
      ensures b == None ==> forall j :: 0 <= j < |X| && |X[j]| == p.m ==>
                (R[j] == Zero(p.m) <==> MatVec(p.m, a, X[j]) == Scale(E[j], X[j]))
      ensures b.Some? ==> forall j :: 0 <= j < |X| && |X[j]| == p.m ==>
                (R[j] == Zero(p.m) <==> MatVec(p.m, a, X[j]) == Scale(E[j], MatVec(p.m, b.value, X[j])))
    {
      R := SubMat(MatMul(p.m, a, X), ScaleCols(Apply(p.m, b, X), E));
      ResidualByColumn(p.m, a, b, X, E);
      hide MatVec, Scale, MatMul, ScaleCols, SubMat;
      forall j | 0 <= j < |X| && |X[j]| == p.m
        ensures R[j] == Zero(p.m) <==> MatVec(p.m, a, X[j]) == Scale(E[j], Image(p.m, b, X[j]))
      {
        NoResidual(p.m, a, b, X[j], E[j]);
      }
    }

    /** The count stops at the first pair that fails the test, and must not have fallen. */
    method UpdateConvergedCount() returns (r: Result<nat, Error>)
      requires |R| == |X| == |E|
      modifies this`convergedCount
      ensures r == if Leading(ker, R, X, E, 0) < old(convergedCount) then Err(CountDecreased)
                   else Ok(Leading(ker, R, X, E, 0))
      ensures convergedCount == if r.Ok? then r.value else old(convergedCount)
    {
      var count := 0;
      while count < |X| && ker.converged(R[count], X[count], E[count])
        invariant 0 <= count <= |X|
        invariant forall j :: 0 <= j < count ==> ker.converged(R[j], X[j], E[j])
      {
        count := count + 1;
      }
      LeadingExact(ker, R, X, E, count);
      if count < convergedCount {
        return Err(CountDecreased);
      }
      convergedCount := count;
      r := Ok(count);
    }

    /** Columns from the locked ones on are replaced; the pairs before `nc` keep vector, value and residual. */
    method ReplacePairs(nc: nat, x: Mat, e: Vec) returns (count: nat)
      requires Setting() && Widths() && nc == convergedCount <= p.n
      requires IsMat(x, p.m, p.n - nc) && |e| == p.n - nc
      requires nc > 0 ==> R == Residual(p.m, a, b, X, E) && nc == Leading(ker, R, X, E, 0)
      modifies this`X, this`E, this`R, this`convergedCount
      ensures Widths() && R == Residual(p.m, a, b, X, E)
      ensures count == convergedCount == Leading(ker, R, X, E, 0) && nc <= count <= p.n
      ensures X == old(X[..nc]) + x && E == old(E[..nc]) + e
      ensures Keeps(old(X), old(E), old(R), nc, X, E, R, convergedCount)
    {
      hide Shapes, Residual, Leading, ResidualColumn, MatVec, Scale;
      X := AssignCols(X, nc, p.n, x);
      assert X == old(X[..nc]) + x;
      E := E[..nc] + e;
      assert E[..nc] == old(E[..nc]);
      UpdateResidual();
      if nc > 0 {
        LockedStayConverged(ker, p.m, a, b, old(X), old(E), X, E, nc);
      }
      LeadingAtLeast(ker, R, X, E, 0, nc);
      var r := UpdateConvergedCount();
      assert r.Ok?;   // the assertion that the count cannot decrease never fires
      count := r.value;
    }

    /** S gets X, then P, then W, and `converged_end` their total width. */
    method RebuildBasis(pcols: Mat, w: Mat)
      requires Setting() && Widths() && IsMat(pcols, p.m, |pcols|) && IsMat(w, p.m, |w|)
      requires |pcols| <= p.n && |w| <= p.n
      modifies this`S, this`convergedEnd
      ensures Widths() && convergedEnd == p.n + |pcols| + |w|
      ensures S[..p.n] == X && S[p.n..convergedEnd] == pcols + w
    {
      hide Shapes;
      var n, np := p.n, |pcols|;
      S := AssignCols(S, 0, n, X);
      S := AssignCols(S, n, n + np, pcols);
      convergedEnd := n + np + |w|;
      S := AssignCols(S, n + np, convergedEnd, w);
      assert S[..convergedEnd] == X + pcols + w;
      assert S[..n] == S[..convergedEnd][..n];
      assert S[n..convergedEnd] == S[..convergedEnd][n..];
    }

    // ---------------------------------------------------------------- exact arithmetic

    /** The trial basis of the next step. */
    ghost function Trial(): Mat
      requires convergedCount <= convergedEnd <= |S|
      reads this`istep, this`X, this`S, this`convergedCount, this`convergedEnd
    {
      if istep == 0 then X else S[convergedCount..convergedEnd]
    }

    /** S^T B S = I for the columns in use. */
    ghost predicate BasisOrthonormal()
      reads this`S, this`convergedEnd
    {
      convergedEnd <= |S| && Orthonormal(p.m, b, S[..convergedEnd])
    }

    /** Exact arithmetic, and a trial basis fit for the step: one whose Cholesky factorisation succeeds for a basic
        or a first step, a B-orthonormal one for a later orthogonal step. */
    ghost predicate Ready()
      requires convergedCount <= convergedEnd <= |S|
      reads this`istep, this`X, this`S, this`convergedCount, this`convergedEnd
    {
      && Ideal(p, ker, a, b)
      && (if istep == 0 || p.variant.Basic? then RitzOf(p.m, b, Trial(), ker.ritz(Trial())) else BasisOrthonormal())
    }

    /** The residuals that enter the next basis. */
    ghost function Active(): Mat
      requires convergedCount <= |R|
      reads this`istep, this`R, this`convergedCount
    {
      R[if istep == 0 then 0 else convergedCount..]
    }

    /** An orthogonal update in exact arithmetic, from vectors `x`, basis `s` and `nc` locked pairs: the new basis is
        B-orthonormal, spans the active residuals and the previous vectors, and nothing beyond `s` and the residuals. */
    ghost predicate OrthoOutcome(x: Mat, s: Mat, nc: nat)
      requires Widths()
      reads this`istep, this`X, this`E, this`R, this`S, this`convergedCount, this`convergedEnd
    {
      && BasisOrthonormal() && convergedCount <= |R|
      && Covers(p.m, S[..convergedEnd], Active())
      && Covers(p.m, (if istep == 0 then X else s) + Active(), S[..convergedEnd])
      && (istep > 0 ==> nc <= |s| && SolvesOn(s[nc..], nc) && Covers(p.m, S[..convergedEnd], x))
    }

    /** The pairs from `nc` on solve the Rayleigh-Ritz problem on the trial basis. */
    ghost predicate SolvesOn(trial: Mat, nc: nat)
      reads this`X, this`E
    {
      nc <= |X| && nc <= |E| && RitzPairs(p.m, a, b, trial, p.largest, X[nc..], E[nc..])
    }

    ghost function Now(): Snapshot
      reads this
    {
      Snapshot(X, E, R, S, convergedCount, convergedEnd)
    }

    /** The step that the basic method takes from here. */
    ghost function BasicTarget(): Step
      requires Valid()
      reads this
    {
      if istep == 0 then FirstStep(ker, p.m, a, X, p.largest)
      else BasicStep(ker, p.m, p.n, convergedCount, a, S[convergedCount..convergedEnd], p.largest)
    }

    /** Installing a basic step: the pairs, the count, and the basis with the preconditioned residuals. */
    method InstallBasic(step: Step)
      requires Valid() && convergedCount <= p.n
      requires IsMat(step.x, p.m, p.n - convergedCount) && |step.e| == p.n - convergedCount
      requires IsMat(step.p, p.m, |step.p|) && |step.p| <= p.n
      modifies this`X, this`E, this`R, this`S, this`convergedCount, this`convergedEnd
      ensures Refreshed()
      ensures X == old(X[..convergedCount]) + step.x && E == old(E[..convergedCount]) + step.e
      ensures Keeps(old(X), old(E), old(R), old(convergedCount), X, E, R, convergedCount)
      ensures S[p.n..convergedEnd] == step.p + Apply(p.m, iK, R[if istep == 0 then 0 else convergedCount..])
      ensures Preconditioned(if istep == 0 then 0 else convergedCount)
    {
      hide Shapes, Residual, Leading, Apply, Keeps, Preconditioned;
      var nc := ReplacePairs(convergedCount, step.x, step.e);
      var active := if istep == 0 then 0 else nc;
      DropShape(R, p.m, active);
      RebuildBasis(step.p, Apply(p.m, iK, R[active..]));
      BasisTail(active, step.p);
    }

    lemma BasicTargetExact()
      requires Valid() && p.variant.Basic? && Ready()
      ensures RitzPairs(p.m, a, b, Trial(), p.largest, BasicTarget().x, BasicTarget().e)
    {
      hide Shapes, Ideal, RitzOf, RitzPairs, FirstStep, BasicStep, Residual, Leading;
      IdealParts(p, ker, a, b);
      if istep == 0 {
        FirstRitz(ker, p.m, a, b, X, p.largest);
      } else {
        var all, values := BasicRitz(ker, p.m, p.n, convergedCount, a, b, Trial(), p.largest);
      }
    }

    method UpdateBasic()
      requires Valid()
      modifies this`X, this`E, this`R, this`S, this`convergedCount, this`convergedEnd
      ensures Refreshed()
      ensures X == old(X[..convergedCount] + BasicTarget().x) && E == old(E[..convergedCount] + BasicTarget().e)
      ensures Keeps(old(X), old(E), old(R), old(convergedCount), X, E, R, convergedCount)
      // after X the basis holds P and the preconditioned residuals of the pairs still active
      ensures S[p.n..convergedEnd] ==
              old(BasicTarget()).p + Apply(p.m, iK, R[if istep == 0 then 0 else convergedCount..])
      ensures Preconditioned(if istep == 0 then 0 else convergedCount)
      ensures p.variant.Basic? && old(Ready()) ==> SolvesOn(old(Trial()), old(convergedCount))
    {
      hide Shapes, Residual, Leading, QForm, MatMul, Apply, FirstStep, BasicStep, Keeps, Preconditioned, RitzPairs, Ready;
      var nc, ns := convergedCount, convergedEnd;
      if p.variant.Basic? && Ready() {
        BasicTargetExact();
      }
      var step;
      if istep == 0 {
        step := FirstStep(ker, p.m, a, X, p.largest);
        FirstShape(ker, p.m, a, X, p.largest);
      } else {
        step := BasicStep(ker, p.m, p.n, nc, a, S[nc..ns], p.largest);
        BasicShape(ker, p.m, p.n, nc, a, S[nc..ns], p.largest);
      }
      InstallBasic(step);
      NewPairs(old(X), old(E), nc, X, E, step);
    }

    /** The last columns of the basis are the active residuals, each multiplied by K if there is one. */
    ghost predicate Preconditioned(active: nat)
      requires Widths()
      reads this`X, this`E, this`R, this`S, this`convergedEnd
    {
      && active <= p.n && p.n - active <= convergedEnd <= 3 * p.n
      && (iK == None ==> S[convergedEnd - (p.n - active)..convergedEnd] == R[active..])
      && (iK.Some? ==> forall j :: active <= j < p.n ==> S[convergedEnd - (p.n - j)] == MatVec(p.m, iK.value, R[j]))
    }

    lemma BasisTail(active: nat, pcols: Mat)
      requires Widths() && active <= p.n && p.n + |pcols| + (p.n - active) == convergedEnd <= 3 * p.n
      requires S[p.n..convergedEnd] == pcols + Apply(p.m, iK, R[active..])
      ensures Preconditioned(active)
    {
      hide MatVec, Apply, IsMat;
      var n := p.n;
      MatWidth(S, p.m, 3 * n);
      MatWidth(R, p.m, n);
      var tail := R[active..];
      var from := convergedEnd - (n - active);
      TailOf(S, n, from, convergedEnd, pcols, Apply(p.m, iK, tail));
      ApplyNone(p.m, tail);
      forall j | active <= j < n && iK.Some? ensures S[convergedEnd - (n - j)] == MatVec(p.m, iK.value, R[j]) {
        ApplyColumn(p.m, iK, tail, j - active);
        assert tail[j - active] == R[j];
      }
    }

    /** The step that the orthogonal method takes from here; its first one leaves E alone. */
    ghost function OrthoTarget(): Step
      requires Valid()
      reads this
    {
      if istep == 0 then FirstStep(ker, p.m, a, X, p.largest).(e := E)
      else OrthoStep(ker, p.m, p.n, convergedCount, a, S[convergedCount..convergedEnd], p.largest)
    }

    /** What `_get_ortho` makes of the active residuals, beside X and the directions P. */
    ghost function NewBlock(pcols: Mat): Result<Mat, Error>
      requires Setting() && Widths() && convergedCount <= p.n
      reads this
    {
      OrthoOf(ker, p.m, p.orthoIMax, p.orthoJMax, b, R[if istep == 0 then 0 else convergedCount..], X + pcols)
    }

    /** Installing an orthogonal step: the pairs, the count, and the basis with a new orthonormal block. */
    method InstallOrtho(step: Step)
      requires Valid() && convergedCount <= p.n
      requires IsMat(step.x, p.m, p.n - convergedCount) && |step.e| == p.n - convergedCount
      requires IsMat(step.p, p.m, |step.p|) && |step.p| <= p.n
      modifies this`X, this`E, this`R, this`S, this`convergedCount, this`convergedEnd
      ensures Refreshed()
      ensures X == old(X[..convergedCount]) + step.x && E == old(E[..convergedCount]) + step.e
      ensures Keeps(old(X), old(E), old(R), old(convergedCount), X, E, R, convergedCount)
      ensures old(convergedCount) <= convergedCount
      ensures NewBlock(step.p).Ok? && S[p.n..convergedEnd] == step.p + NewBlock(step.p).value
    {
      hide Shapes, Residual, Leading, Keeps, IsMat, OrthoOf, Lossless;
      var nc := ReplacePairs(convergedCount, step.x, step.e);
      var active := if istep == 0 then 0 else nc;
      MatWidth(R, p.m, p.n);
      MatWidth(X, p.m, p.n);
      DropShape(R, p.m, active);
      JoinShape(X, step.p, p.m);
      var residual := R[active..];
      var w := GetOrtho(ker, p.m, p.orthoIMax, p.orthoJMax, b, residual, X + step.p);
      assert w.Ok?;   // X, P and R together have at most 3n <= m columns
      RebuildBasis(step.p, w.value);
    }

    /** In exact arithmetic the basis is B-orthonormal with the new block, and spans the active residuals. */
    lemma BlockInstalled(pcols: Mat)
      requires Refreshed() && p.variant.Ortho? && Ideal(p, ker, a, b)
      requires IsMat(pcols, p.m, |pcols|) && Orthonormal(p.m, b, X + pcols)
      requires NewBlock(pcols).Ok? && S[p.n..convergedEnd] == pcols + NewBlock(pcols).value
      ensures convergedCount <= |R| && BasisOrthonormal() && Covers(p.m, S[..convergedEnd], Active())
      ensures Covers(p.m, X + pcols + Active(), S[..convergedEnd])
    {
      hide Shapes, Residual, Leading, IsMat, OrthoOf, Ideal, Orthonormal, Covers;
      MatWidth(R, p.m, p.n);
      MatWidth(X, p.m, p.n);
      MatWidth(S, p.m, 3 * p.n);
      var active := if istep == 0 then 0 else convergedCount;
      DropShape(R, p.m, active);
      JoinShape(X, pcols, p.m);
      BlockExact(p, ker, a, b, R[active..], X + pcols);
      SliceInParts(S, p.n, convergedEnd);
      assert X + (pcols + NewBlock(pcols).value) == (X + pcols) + NewBlock(pcols).value;
    }

    /** The count and the width of the basis are those of a first orthogonal update from x and e. */
    ghost predicate StartsFrom(x: Mat, e: Vec)
      reads this`convergedCount, this`convergedEnd
    {
      && Setting() && IsMat(x, p.m, p.n) && |e| == p.n
      && var start := FirstOrtho(p, ker, a, b, x, e);
         convergedCount == start.count && convergedEnd == p.n + start.width
    }

    lemma FirstBlock(x: Mat, e: Vec)
      requires Refreshed() && istep == 0 && IsMat(x, p.m, p.n) && E == e
      requires X == FirstStep(ker, p.m, a, x, p.largest).x
      requires NewBlock([]).Ok? && S[p.n..convergedEnd] == NewBlock([]).value
      ensures StartsFrom(x, e)
    {
      hide Shapes, Residual, Leading, FirstStep, OrthoOf;
      FirstShape(ker, p.m, a, x, p.largest);
      assert X + [] == X && R[0..] == R;
    }

    /** In exact arithmetic the new vectors and P are B-orthonormal beside the locked vectors. */
    lemma OrthoTargetExact()
      requires Valid() && p.variant.Ortho? && Ready()
      ensures var nc, step := convergedCount, OrthoTarget();
              && Ideal(p, ker, a, b) && nc <= |X| && nc <= |E|
              && Orthonormal(p.m, b, X[..nc] + step.x + step.p)
              && (istep > 0 ==> RitzPairs(p.m, a, b, Trial(), p.largest, step.x, step.e))
              && (istep > 0 ==> Covers(p.m, step.x + step.p, X[nc..]))
              && (istep > 0 ==> Covers(p.m, S[..convergedEnd], X[..nc] + step.x + step.p))
              && (istep == 0 ==> step.p == [])
    {
      hide Shapes, Residual, Leading, Ideal, Orthonormal, Covers, RitzPairs, FirstStep, OrthoStep, IsMat, RitzOf;
      var nc, n := convergedCount, p.n;
      MatWidth(X, p.m, n);
      MatWidth(S, p.m, 3 * n);
      if istep == 0 {
        IdealParts(p, ker, a, b);
        FirstRitz(ker, p.m, a, b, X, p.largest);
        FirstShape(ker, p.m, a, X, p.largest);
        var step := FirstStep(ker, p.m, a, X, p.largest);
        RitzCovered(p.m, a, b, X, p.largest, step.x, step.e);
        assert X[..0] + step.x + [] == step.x;
      } else {
        SliceInParts(S, nc, convergedEnd);
        SliceOf(S, X, nc, convergedEnd);
        SliceShape(S, p.m, 0, nc);
        SliceShape(S, p.m, nc, convergedEnd);
        OrthoStepExact(p, ker, a, b, S[..nc], S[nc..convergedEnd]);
      }
    }

    lemma OrthoTargetShape()
      requires Valid()
      ensures convergedCount <= convergedEnd <= |S|
      ensures var step := OrthoTarget(); IsMat(step.x, p.m, |step.x|) && IsMat(step.p, p.m, |step.p|) && IsMat(X, p.m, |X|)
      ensures IsMat(S, p.m, |S|)
    {
      hide Shapes, Residual, Leading, FirstStep, OrthoStep, Corner, QForm;
      if istep == 0 {
        FirstShape(ker, p.m, a, X, p.largest);
      } else {
        OrthoShape(ker, p.m, p.n, convergedCount, a, S[convergedCount..convergedEnd], p.largest);
      }
    }

    /** What the installed step gives in exact arithmetic. */
    lemma OrthoFinish(x: Mat, e: Vec, s: Mat, nc: nat, step: Step)
      requires Refreshed() && p.variant.Ortho? && Ideal(p, ker, a, b) && IsMat(s, p.m, |s|) && nc <= |s|
      requires IsMat(x, p.m, |x|) && nc <= |x| && nc <= |e|
      requires X == x[..nc] + step.x && E == e[..nc] + step.e && IsMat(step.x, p.m, |step.x|) && IsMat(step.p, p.m, |step.p|)
      requires NewBlock(step.p).Ok? && S[p.n..convergedEnd] == step.p + NewBlock(step.p).value
      requires Orthonormal(p.m, b, x[..nc] + step.x + step.p)
      requires istep > 0 ==> RitzPairs(p.m, a, b, s[nc..], p.largest, step.x, step.e)
      requires istep > 0 ==> Covers(p.m, step.x + step.p, x[nc..])
      requires istep > 0 ==> Covers(p.m, s, x[..nc] + step.x + step.p)
      requires istep == 0 ==> step.p == []
      ensures OrthoOutcome(x, s, nc)
    {
      hide Shapes, Residual, Leading, Ideal, Orthonormal, Covers, RitzPairs, NewBlock, IsMat;
      MatWidth(X, p.m, p.n);
      MatWidth(R, p.m, p.n);
      MatWidth(S, p.m, 3 * p.n);
      BlockInstalled(step.p);
      if istep > 0 {
        NewPairs(x, e, nc, X, E, step);
        OldCovered(x, nc, step);
        DropShape(R, p.m, convergedCount);
        JoinShape(X, step.p, p.m);
        NothingBeyond(p.m, s, x[..nc] + step.x + step.p, Active(), S[..convergedEnd]);
      } else {
        assert X + [] == X;
      }
    }

    /** The previous vectors are in the span of the new basis. */
    lemma OldCovered(x: Mat, nc: nat, step: Step)
      requires Refreshed() && IsMat(x, p.m, |x|) && nc <= |x| && X == x[..nc] + step.x
      requires IsMat(step.x, p.m, |step.x|) && IsMat(step.p, p.m, |step.p|)
      requires |step.p| <= convergedEnd - p.n && S[p.n..convergedEnd][..|step.p|] == step.p
      requires Covers(p.m, step.x + step.p, x[nc..])
      ensures Covers(p.m, S[..convergedEnd], x)
    {
      hide Shapes, Residual, Leading, Covers;
      var m, locked, rest := p.m, x[..nc], S[p.n..convergedEnd][|step.p|..];
      SliceInParts(S, p.n, convergedEnd);
      SliceShape(S, m, 0, convergedEnd);
      var xp := step.x + step.p;
      JoinShape(step.x, step.p, m);
      CoversRight(m, locked, xp, x[nc..]);
      CoversBeside(m, locked, xp, x[nc..]);
      assert locked + x[nc..] == x;
      assert S[..convergedEnd] == (locked + xp) + rest;
      CoversFront(m, locked + xp, rest, x);
    }

    /** The branches of `_update_ortho`. */
    method TakeOrthoStep() returns (r: Result<(), Error>)
      requires Valid()
      modifies this`X, this`E, this`R, this`S, this`convergedCount, this`convergedEnd
      ensures r.Err? ==> r.error == NotTall
      ensures r.Err? <==> istep > 0 && !p.cuda && old(convergedEnd) - p.n < p.n - old(convergedCount)
      ensures X == old(X[..convergedCount] + OrthoTarget().x) && E == old(E[..convergedCount] + OrthoTarget().e)
      ensures r.Err? ==> R == old(R) && S == old(S)
      ensures r.Err? ==> convergedCount == old(convergedCount) && convergedEnd == old(convergedEnd)
      ensures r.Ok? ==> Refreshed()
      ensures r.Ok? ==> Keeps(old(X), old(E), old(R), old(convergedCount), X, E, R, convergedCount)
      // after X the basis holds P and the orthogonalised residuals of the pairs still active
      ensures r.Ok? ==> var pcols := old(OrthoTarget()).p;
                        NewBlock(pcols).Ok? && S[p.n..convergedEnd] == pcols + NewBlock(pcols).value
      ensures r.Ok? && istep > 0 && !p.cuda ==> convergedEnd - p.n >= p.n - convergedCount
      ensures istep == 0 ==> StartsFrom(old(X), old(E))
    {
      hide Shapes, Residual, Leading, FirstStep, OrthoStep, Corner, Keeps, QForm, NewBlock, StartsFrom;
      var nc, ns := convergedCount, convergedEnd;
      var step;
      if istep == 0 {
        // the eigenvalues found here are not stored: E keeps its initial zeros
        step := FirstStep(ker, p.m, a, X, p.largest).(e := E);
        FirstShape(ker, p.m, a, X, p.largest);
      } else {
        step := OrthoStep(ker, p.m, p.n, nc, a, S[nc..ns], p.largest);
        OrthoShape(ker, p.m, p.n, nc, a, S[nc..ns], p.largest);
        if !p.cuda && !Tall(p.n, nc, ns - nc) {
          X := AssignCols(X, nc, p.n, step.x);
          E := E[..nc] + step.e;
          return Err(NotTall);
        }
      }
      InstallOrtho(step);
      if istep == 0 {
        assert S[p.n..convergedEnd] == NewBlock([]).value;
        FirstBlock(old(X), old(E));
      }
      r := Ok(());
    }

    /** When `basis` fails, X and E have already been overwritten and nothing else has. */
    method UpdateOrtho() returns (r: Result<(), Error>)
      requires Valid()
      modifies this`X, this`E, this`R, this`S, this`convergedCount, this`convergedEnd
      ensures r.Err? ==> r.error == NotTall
      ensures r.Err? <==> istep > 0 && !p.cuda && old(convergedEnd) - p.n < p.n - old(convergedCount)
      ensures X == old(X[..convergedCount] + OrthoTarget().x) && E == old(E[..convergedCount] + OrthoTarget().e)
      ensures r.Err? ==> R == old(R) && S == old(S)
      ensures r.Err? ==> convergedCount == old(convergedCount) && convergedEnd == old(convergedEnd)
      ensures r.Ok? ==> Refreshed()
      ensures r.Ok? ==> Keeps(old(X), old(E), old(R), old(convergedCount), X, E, R, convergedCount)
      // after X the basis holds P and the orthogonalised residuals of the pairs still active
      ensures r.Ok? ==> var pcols := old(OrthoTarget()).p;
                        NewBlock(pcols).Ok? && S[p.n..convergedEnd] == pcols + NewBlock(pcols).value
      ensures r.Ok? && istep > 0 && !p.cuda ==> convergedEnd - p.n >= p.n - convergedCount
      ensures istep == 0 ==> StartsFrom(old(X), old(E))
      ensures r.Ok? && p.variant.Ortho? && old(Ready()) ==> OrthoOutcome(old(X), old(S[..convergedEnd]), old(convergedCount))
    {
      hide Shapes, Residual, Leading, OrthoTarget, Keeps, NewBlock, StartsFrom, Ready, OrthoOutcome, RitzPairs, Covers;
      hide Orthonormal, Refreshed, IsMat;
      ghost var x, e, nc, step := X, E, convergedCount, OrthoTarget();
      OrthoTargetShape();
      ghost var s := S[..convergedEnd];
      SliceParts(S, p.m, convergedCount, convergedEnd);
      ghost var ready := p.variant.Ortho? && Ready();
      if ready {
        OrthoTargetExact();
      }
      r := TakeOrthoStep();
      if r.Ok? && ready {
        OrthoFinish(x, e, s, nc, step);
      }
    }

    method Update() returns (r: Result<(), Error>)
      requires Valid()
      modifies this
      ensures r.Err? ==> r.error == NotTall
      ensures r.Err? <==> p.variant.Ortho? && !p.cuda && old(istep) == 1 && old(convergedEnd) - p.n < p.n - old(convergedCount)
      ensures r.Err? ==> X == old(X[..convergedCount] + OrthoTarget().x) && E == old(E[..convergedCount] + OrthoTarget().e)
      ensures r.Err? ==> Now().(X := old(X), E := old(E)) == old(Now()) && istep == old(istep)
      ensures r.Ok? ==> Valid() && istep == old(istep) + 1
      ensures old(istep) == 0 && p.variant.Ortho? ==> StartsFrom(old(X), old(E))
      ensures r.Ok? ==> Keeps(old(X), old(E), old(R), old(convergedCount), X, E, R, convergedCount)
      // in exact arithmetic
      ensures r.Ok? && p.variant.Ortho? && old(Ready()) ==> BasisOrthonormal()
      ensures r.Ok? && p.variant.Ortho? && old(Ready()) ==>
                var active := R[if old(istep) == 0 then 0 else convergedCount..];
                && Covers(p.m, S[..convergedEnd], active)
                && Covers(p.m, (if old(istep) == 0 then X else old(S[..convergedEnd])) + active, S[..convergedEnd])
      ensures r.Ok? && p.variant.Ortho? && old(Ready()) && old(istep) > 0 ==> Covers(p.m, S[..convergedEnd], old(X))
      ensures r.Ok? && old(Ready()) && (old(istep) > 0 || p.variant.Basic?) ==> SolvesOn(old(Trial()), old(convergedCount))
    {
      hide Shapes, Residual, IsMat, BasicTarget, OrthoTarget, FirstStep, BasicStep, OrthoStep, Apply, NewBlock;
      hide Leading, Keeps, StartsFrom, Setting, Refreshed, Ready, SolvesOn, BasisOrthonormal, Covers;
      if istep == 0 {
        iterationsLeft := p.niter;
        convergedCount := 0;
        convergedEnd := 0;
      }
      r := Ok(());
      if p.variant.Ortho? {
        r := UpdateOrtho();
        if r.Err? { return; }
      } else {
        UpdateBasic();
      }
      iterationsLeft := iterationsLeft - 1;
      istep := istep + 1;
    }

    predicate StopIteration()
      reads this
    {
      iterationsLeft == 0 || convergedCount >= p.k
    }

    /** The second update would fail from here. */
    predicate FailsNext()
      reads this`convergedCount, this`convergedEnd
    {
      p.variant.Ortho? && !p.cuda && convergedEnd - p.n < p.n - convergedCount
    }

    lemma StarvesIffFails(x: Mat, e: Vec)
      requires p.variant.Ortho? && StartsFrom(x, e) && iterationsLeft == p.niter - 1
      ensures Shapes(ker) && |e| == |x|
      ensures Starves(p, ker, a, b, x, e) <==> FailsNext() && !StopIteration()
    {
      hide FirstOrtho, Shapes;
    }

    /** The states so far end with the current one, and nothing in them broke a promise. */
    ghost predicate Recorded(trace: seq<Snapshot>, exact: bool)
      reads this
    {
      && Valid() && istep == |trace| > 0 && Now() == trace[|trace| - 1]
      && Locked(trace, p) && NeverStopped(trace, p) && (p.niter >= 1 ==> |trace| <= p.niter)
      && (exact ==> p.variant.Ortho? && Ready() && ExactTrace(p, a, b, trace))
    }

    /** One turn of the loop of `run`. */
    method Turn(ghost trace: seq<Snapshot>, ghost exact: bool) returns (r: Result<(), Error>, ghost longer: seq<Snapshot>)
      requires Recorded(trace, exact) && !StopIteration()
      modifies this
      ensures r.Err? <==> old(istep) == 1 && old(FailsNext())
      ensures r.Err? ==> r.error == NotTall && longer == trace
      ensures r.Ok? ==> Recorded(longer, exact) && |longer| == |trace| + 1
    {
      hide Shapes, Residual, Leading, FirstOrtho, OrthoTarget, Ideal, RitzPairs, Orthonormal, Covers, RitzOf;
      hide Locked, ExactTrace, Keeps, NeverStopped, StartsFrom;
      longer := trace;
      r := Update();
      if r.Ok? {
        longer := trace + [Now()];
        LockedExtends(trace, Now(), p);
        StopsLater(trace, Now(), p);
        if exact {
          ExactExtends(p, a, b, trace, Now());
        }
      }
    }

    /** `run`, watched for at most `watch` turns of its loop; `stopped` says whether the loop ended. */
    method Run(watch: nat) returns (stopped: bool, r: Result<(), Error>, ghost trace: seq<Snapshot>)
      requires Valid() && istep == 0
      modifies this
      ensures Locked(trace, p)
      // the only failure: the CPU basis of the second update, when the start leaves too few directions
      ensures r.Err? <==> watch > 0 && Starves(p, ker, a, b, old(X), old(E))
      ensures r.Err? ==> r.error == NotTall && |trace| == 1
      ensures r.Ok? ==> Valid() && istep == |trace| && Now() == trace[|trace| - 1]
      ensures r.Ok? ==> (stopped <==> Stops(trace, p)) && (!stopped ==> |trace| == watch + 1)
      // it stops as soon as it may, and a positive iteration count is a bound
      ensures NeverStopped(trace, p)
      ensures p.niter >= 1 ==> |trace| <= p.niter
      // in exact arithmetic every search basis is B-orthonormal and every later update solves its Rayleigh-Ritz problem
      ensures p.variant.Ortho? && old(Ready()) ==> ExactTrace(p, a, b, trace)
    {
      hide Shapes, Residual, Leading, FirstOrtho, Ready, ExactTrace, Locked, NeverStopped, Keeps, StartsFrom, Starves;
      NoStarving(p, ker, a, b, X, E);
      stopped := false;
      ghost var exact := p.variant.Ortho? && Ready();
      r := FirstUpdate(exact);
      trace := [Now()];
      var turns := 0;
      while !StopIteration() && turns < watch
        invariant r.Ok? && Recorded(trace, exact) && istep == turns + 1 <= watch + 1
        invariant turns == 0 ==> (Starves(p, ker, a, b, old(X), old(E)) <==> FailsNext() && !StopIteration())
        invariant turns > 0 ==> !Starves(p, ker, a, b, old(X), old(E))
      {
        r, trace := Turn(trace, exact);
        if r.Err? { return; }
        turns := turns + 1;
      }
      stopped := StopIteration();
    }

    /** The update before the loop of `run`. */
    method FirstUpdate(ghost exact: bool) returns (r: Result<(), Error>)
      requires Valid() && istep == 0 && (exact ==> p.variant.Ortho? && Ready())
      modifies this
      ensures r.Ok? && Recorded([Now()], exact) && istep == 1
      ensures p.variant.Ortho? ==>
                (Starves(p, ker, a, b, old(X), old(E)) <==> FailsNext() && !StopIteration())
    {
      hide Shapes, Residual, Leading, FirstOrtho, OrthoTarget, RitzPairs, Orthonormal, Covers, RitzOf;
      hide Locked, ExactTrace, Keeps, NeverStopped, StartsFrom, Starves, Ideal;
      r := Update();
      TraceStarts(p, a, b, Now());
      if p.variant.Ortho? {
        StarvesIffFails(old(X), old(E));
      }
    }
  }

  lemma NewPairs(x: Mat, e: Vec, nc: nat, x': Mat, e': Vec, step: Step)
    requires nc <= |x| && nc <= |e| && x' == x[..nc] + step.x && e' == e[..nc] + step.e
    ensures x'[nc..] == step.x && e'[nc..] == step.e
  {
  }

  lemma SliceInParts(s: Mat, mid: nat, hi: nat)
    requires mid <= hi <= |s|
    ensures s[..hi] == s[..mid] + s[mid..hi]
  {
  }

  lemma SliceParts(s: Mat, rows: nat, lo: nat, hi: nat)
    requires IsMat(s, rows, |s|) && lo <= hi <= |s|
    ensures IsMat(s[..hi], rows, hi) && s[..hi][lo..] == s[lo..hi]
  {
  }

  /** What a block and residuals cover is covered by any basis that covers the block, with the residuals. */
  lemma NothingBeyond(m: nat, s: Mat, block: Mat, active: Mat, next: Mat)
    requires IsMat(s, m, |s|) && IsMat(block, m, |block|) && IsMat(active, m, |active|)
    requires Covers(m, s, block) && Covers(m, block + active, next)
    ensures Covers(m, s + active, next)
  {
    hide Covers;
    CoversFront(m, s, active, block);
    CoversItself(m, active);
    CoversRight(m, s, active, active);
    CoversBoth(m, s + active, block, active);
    JoinShape(block, active, m);
    CoversTransitive(m, s + active, block + active, next);
  }

  lemma SliceShape(s: Mat, rows: nat, lo: nat, hi: nat)
    requires IsMat(s, rows, |s|) && lo <= hi <= |s|
    ensures IsMat(s[lo..hi], rows, |s[lo..hi]|) && (lo == 0 ==> s[lo..hi] == s[..hi])
  {
  }

  /** Slices of a sequence that begins with `x`. */
  lemma SliceOf(s: Mat, x: Mat, mid: nat, hi: nat)
    requires mid <= |x| <= hi <= |s| && s[..|x|] == x
    ensures s[..mid] == x[..mid] && s[mid..hi][..|x| - mid] == x[mid..]
  {
    assert s[..mid] == s[..|x|][..mid];
    assert s[mid..hi][..|x| - mid] == s[..|x|][mid..];
  }

  /** The last block of a slice, and its columns. */
  lemma TailOf(s: Mat, lo: nat, from: nat, hi: nat, front: Mat, w: Mat)
    requires lo + |front| == from <= hi <= |s| && s[lo..hi] == front + w
    ensures s[from..hi] == w
    ensures forall k :: 0 <= k < |w| ==> s[from + k] == w[k]
  {
    assert s[from..hi] == s[lo..hi][|front|..];
    forall k | 0 <= k < |w| ensures s[from + k] == w[k] {
      assert s[from..hi][k] == s[from + k];
    }
  }

  /** What an update leaves behind. */
  datatype Snapshot = Snapshot(X: Mat, E: Vec, R: Mat, S: Mat, count: nat, end: nat)

  /** The stop test after the updates of `trace`. */
  predicate Stops(trace: seq<Snapshot>, p: Params)
    requires trace != []
  {
    |trace| == p.niter || trace[|trace| - 1].count >= p.k
  }

  /** No shorter run would have been stopped. */
  predicate NeverStopped(trace: seq<Snapshot>, p: Params) {
    forall t :: 1 <= t < |trace| ==> !Stops(trace[..t], p)
  }

  lemma StopsLater(trace: seq<Snapshot>, next: Snapshot, p: Params)
    requires trace != [] && NeverStopped(trace, p) && !Stops(trace, p)
    ensures NeverStopped(trace + [next], p)
  {
    var longer := trace + [next];
    forall t | 1 <= t < |longer| ensures !Stops(longer[..t], p) {
      assert longer[..t] == if t < |trace| then trace[..t] else trace;
    }
  }

  /** Over a whole run: counts never fall, a pair once counted keeps its vector, value and residual in all
      later states, and every state has its widths in bounds. */
  ghost predicate Locked(trace: seq<Snapshot>, p: Params) {
    && trace != []
    && (forall t :: 0 <= t < |trace| ==> WidthsOk(trace[t], p))
    && (forall s, t :: 0 <= s <= t < |trace| ==> Kept(trace[s], trace[t]))
  }

  predicate WidthsOk(s: Snapshot, p: Params) {
    && IsMat(s.X, p.m, p.n) && |s.E| == p.n && IsMat(s.R, p.m, p.n) && IsMat(s.S, p.m, 3 * p.n)
    && s.count <= p.n <= s.end <= 3 * p.n <= p.m
  }

  /** `t` keeps the locked pairs of `s`. */
  predicate Kept(s: Snapshot, t: Snapshot) {
    Keeps(s.X, s.E, s.R, s.count, t.X, t.E, t.R, t.count)
  }

  /** The columns in use are B-orthonormal, and X comes first. */
  ghost predicate OrthonormalAt(p: Params, b: Option<Mat>, s: Snapshot) {
    p.n <= s.end <= |s.S| && s.S[..p.n] == s.X && Orthonormal(p.m, b, s.S[..s.end])
  }

  /** The unlocked pairs of `t` solve the Rayleigh-Ritz problem on the basis of `s` without its locked vectors. */
  ghost predicate RitzFrom(p: Params, a: Mat, b: Option<Mat>, s: Snapshot, t: Snapshot) {
    && s.count <= s.end <= |s.S| && s.count <= |t.X| && s.count <= |t.E|
    && RitzPairs(p.m, a, b, s.S[s.count..s.end], p.largest, t.X[s.count..], t.E[s.count..])
  }

  ghost predicate ExactTrace(p: Params, a: Mat, b: Option<Mat>, trace: seq<Snapshot>) {
    && (forall t :: 0 <= t < |trace| ==> OrthonormalAt(p, b, trace[t]))
    && (forall t :: 0 < t < |trace| ==> RitzFrom(p, a, b, trace[t - 1], trace[t]))
  }

  lemma TraceStarts(p: Params, a: Mat, b: Option<Mat>, s: Snapshot)
    ensures WidthsOk(s, p) ==> Locked([s], p)
    ensures OrthonormalAt(p, b, s) ==> ExactTrace(p, a, b, [s])
    ensures NeverStopped([s], p)
  {
    hide OrthonormalAt, RitzFrom;
  }

  lemma ExactExtends(p: Params, a: Mat, b: Option<Mat>, trace: seq<Snapshot>, next: Snapshot)
    requires trace != [] && ExactTrace(p, a, b, trace) && OrthonormalAt(p, b, next)
    requires RitzFrom(p, a, b, trace[|trace| - 1], next)
    ensures ExactTrace(p, a, b, trace + [next])
  {
    hide OrthonormalAt, RitzFrom;
  }

  /** In exact arithmetic the value of the first unlocked pair never gets worse from one update to the next. */
  lemma LeadingImproves(p: Params, a: Mat, b: Option<Mat>, trace: seq<Snapshot>, t: nat)
    requires Locked(trace, p) && ExactTrace(p, a, b, trace)
    requires 1 <= t < |trace| - 1 && trace[t].count < p.n
    ensures var c := trace[t].count;
            if p.largest then trace[t + 1].E[c] >= trace[t].E[c] else trace[t + 1].E[c] <= trace[t].E[c]
  {
    hide Form, Orthonormal, InSpan;
    var s, now, next := trace[t - 1], trace[t], trace[t + 1];
    assert WidthsOk(now, p) && WidthsOk(next, p) && Kept(s, now) && OrthonormalAt(p, b, now);
    assert RitzFrom(p, a, b, s, trace[t - 1 + 1]) && RitzFrom(p, a, b, now, next);
    FirstImproves(p, a, b, s, now, next);
  }

  lemma FirstImproves(p: Params, a: Mat, b: Option<Mat>, s: Snapshot, now: Snapshot, next: Snapshot)
    requires WidthsOk(now, p) && WidthsOk(next, p) && s.count <= now.count < p.n && OrthonormalAt(p, b, now)
    requires RitzFrom(p, a, b, s, now) && RitzFrom(p, a, b, now, next)
    ensures var c := now.count; if p.largest then next.E[c] >= now.E[c] else next.E[c] <= now.E[c]
  {
    hide Form, InSpan, Times;
    var c, trial := now.count, now.S[now.count..now.end];
    var y, k := now.X[c], c - s.count;
    assert trial[0] == now.S[..p.n][c] == y;
    FirstInSpan(p.m, trial, next.X[c..], next.E[c..], a, b, p.largest);
    assert now.X[s.count..][k] == y && now.E[s.count..][k] == now.E[c];
    assert Form(p.m, Some(a), y, y) == now.E[c];
    assert now.S[..now.end][c] == y;
    assert Form(p.m, b, y, y) == 1.0;
    TimesOne(next.E[c]);
    assert next.E[c..][0] == next.E[c];
  }

  /** The first trial vector is bounded by the first value. */
  lemma FirstInSpan(m: nat, trial: Mat, x: Mat, e: Vec, a: Mat, b: Option<Mat>, largest: bool)
    requires RitzPairs(m, a, b, trial, largest, x, e) && |x| > 0 && IsMat(trial, m, |trial|) && trial != []
    ensures Bounds(m, a, b, largest, e[0], trial[0])
  {
    hide Form, InSpan, Bounds;
    ColumnInSpan(m, trial, 0);
    assert Beyond(m, b, x, 0, trial[0]);
  }

  lemma KeptChain(s: Snapshot, t: Snapshot, u: Snapshot)
    requires Kept(s, t) && Kept(t, u)
    ensures Kept(s, u)
  {
    var c := s.count;
    assert u.X[..c] == u.X[..t.count][..c] && t.X[..c] == t.X[..t.count][..c];
    assert u.E[..c] == u.E[..t.count][..c] && t.E[..c] == t.E[..t.count][..c];
    assert u.R[..c] == u.R[..t.count][..c] && t.R[..c] == t.R[..t.count][..c];
  }

  lemma LockedExtends(trace: seq<Snapshot>, next: Snapshot, p: Params)
    requires Locked(trace, p) && WidthsOk(next, p)
    requires Kept(trace[|trace| - 1], next)
    ensures Locked(trace + [next], p)
  {
    forall s | 0 <= s < |trace| ensures Kept(trace[s], next) {
      KeptChain(trace[s], trace[|trace| - 1], next);
    }
  }

  /** Pairs that keep their vector and value keep their residual, and with it their convergence. */
  lemma LockedStayConverged(ker: Kernels, m: nat, a: Mat, b: Option<Mat>, x: Mat, e: Vec, x': Mat, e': Vec, nc: nat)
    requires |x| == |e| == |x'| == |e'| && nc <= |x| && x'[..nc] == x[..nc] && e'[..nc] == e[..nc]
    requires nc == Leading(ker, Residual(m, a, b, x, e), x, e, 0)
    ensures Residual(m, a, b, x', e')[..nc] == Residual(m, a, b, x, e)[..nc]
    ensures forall j :: 0 <= j < nc ==> ker.converged(Residual(m, a, b, x', e')[j], x'[j], e'[j])
  {
    hide ResidualColumn;
    forall j | 0 <= j < nc ensures x'[j] == x[j] && e'[j] == e[j] {
      assert x'[..nc][j] == x'[j] && x[..nc][j] == x[j];
      assert e'[..nc][j] == e'[j] && e[..nc][j] == e[j];
    }
  }

  lemma LeadingExact(ker: Kernels, r: Mat, x: Mat, e: Vec, c: nat)
    requires |r| == |x| == |e| && c <= |x|
    requires forall j :: 0 <= j < c ==> ker.converged(r[j], x[j], e[j])
    requires c < |x| ==> !ker.converged(r[c], x[c], e[c])
    ensures Leading(ker, r, x, e, 0) == c
  {
    LeadingAtLeast(ker, r, x, e, 0, c);
  }
}
