/** `update_alphas`: one multiplicative gradient step on the T x K
    coefficients, clipped to [0, amp], and in "temporal_kernel" mode each
    column then passed once through the kernel projection. */
module AlphasStep {
  import opened LinAlg
  import opened Validation
  import opened Settings
  import opened Residual
  import opened Kernel

  /** Entry (i, j) of diff_cov[t]: predicted minus sample covariance. */
  function Misfit(dictionary: Matrix, alphas: Matrix, c: Tensor, d: nat, s: nat, i: nat, j: nat): real
    requires Fits(dictionary, alphas, c, d) && s < |c| && i < d && j < d
  {
    Reconstruct(dictionary, alphas[s], d)[i][j] - c[s][i][j]
  }

  /** The terms of step_1[t][i][k] = sum over j of diff_cov[t][i][j] * d_k[j]. */
  function Step1Terms(dictionary: Matrix, alphas: Matrix, c: Tensor, d: nat, s: nat, i: nat, k: nat): (r: seq<real>)
    requires Fits(dictionary, alphas, c, d) && s < |c| && i < d && k < |dictionary|
    ensures |r| == d
  {
    seq(d, j requires 0 <= j < d => Misfit(dictionary, alphas, c, d, s, i, j) * dictionary[k][j])
  }

  /** The terms of step_2[t][k] = sum over i of d_k[i] * step_1[t][i][k]. */
  function Step2Terms(dictionary: Matrix, alphas: Matrix, c: Tensor, d: nat, s: nat, k: nat): (r: seq<real>)
    requires Fits(dictionary, alphas, c, d) && s < |c| && k < |dictionary|
    ensures |r| == d
  {
    seq(d, i requires 0 <= i < d => dictionary[k][i] * Sum(Step1Terms(dictionary, alphas, c, d, s, i, k)))
  }

  /** step_2, of shape T x K: d_k^T (predicted - sample)[t] d_k. */
  function CoefficientGradient(dictionary: Matrix, alphas: Matrix, c: Tensor, d: nat): (g: Matrix)
    requires Fits(dictionary, alphas, c, d)
    ensures IsMatrix(g, |c|, |dictionary|)
  {
    seq(|c|, s requires 0 <= s < |c| =>
      seq(|dictionary|, k requires 0 <= k < |dictionary| => Sum(Step2Terms(dictionary, alphas, c, d, s, k))))
  }

  /** delta_A = alphas * step_2 / T, entrywise: the step is scaled by the
      coefficient it moves, so a zero coefficient gets a zero step. */
  function Delta(dictionary: Matrix, alphas: Matrix, c: Tensor, d: nat): (r: Matrix)
    requires Fits(dictionary, alphas, c, d)
    ensures IsMatrix(r, |c|, |dictionary|)
    ensures forall s, k :: 0 <= s < |c| && 0 <= k < |dictionary| && alphas[s][k] == 0.0 ==> r[s][k] == 0.0
  {
    var g := CoefficientGradient(dictionary, alphas, c, d);
    seq(|c|, s requires 0 <= s < |c| =>
      seq(|dictionary|, k requires 0 <= k < |dictionary| => alphas[s][k] * g[s][k] / |c| as real))
  }

  /** alphas - rate * delta, entrywise. */
  function GradientStep(alphas: Matrix, delta: Matrix, rate: real, rows: nat, cols: nat): (r: Matrix)
    requires IsMatrix(alphas, rows, cols) && IsMatrix(delta, rows, cols)
    ensures IsMatrix(r, rows, cols)
    ensures forall s, k :: 0 <= s < rows && 0 <= k < cols ==> r[s][k] == alphas[s][k] - rate * delta[s][k]
  {
    seq(rows, s requires 0 <= s < rows =>
      seq(cols, k requires 0 <= k < cols => alphas[s][k] - rate * delta[s][k]))
  }

  /** The two `np.where` calls: negative values become 0, then values above
      `amp` become `amp`. */
  function Clip(x: real, amp: real): (r: real)
    ensures 0.0 <= amp ==> 0.0 <= r <= amp
    ensures 0.0 <= x <= amp ==> r == x
    ensures x < 0.0 && 0.0 <= amp ==> r == 0.0
    ensures x > amp && 0.0 <= amp ==> r == amp
    ensures amp < 0.0 ==> r == amp
  {
    var lower := if x < 0.0 then 0.0 else x;
    if lower > amp then amp else lower
  }

  function ClipAll(m: Matrix, amp: real, rows: nat, cols: nat): (r: Matrix)
    requires IsMatrix(m, rows, cols)
    ensures IsMatrix(r, rows, cols)
    ensures forall s, k :: 0 <= s < rows && 0 <= k < cols ==> r[s][k] == Clip(m[s][k], amp)
  {
    seq(rows, s requires 0 <= s < rows =>
      seq(cols, k requires 0 <= k < cols => Clip(m[s][k], amp)))
  }

  /** Every entry of `m` lies in [0, amp]. */
  predicate InBox(m: Matrix, amp: real, rows: nat, cols: nat)
    requires IsMatrix(m, rows, cols)
  {
    forall s, k :: 0 <= s < rows && 0 <= k < cols ==> 0.0 <= m[s][k] <= amp
  }

  /** Clipping lands in the box when amp >= 0, and leaves a matrix already in
      the box unchanged, so clipping twice is clipping once. */
  lemma ClipAllBox(m: Matrix, amp: real, rows: nat, cols: nat)
    requires IsMatrix(m, rows, cols)
    ensures 0.0 <= amp ==> InBox(ClipAll(m, amp, rows, cols), amp, rows, cols)
    ensures InBox(m, amp, rows, cols) ==> ClipAll(m, amp, rows, cols) == m
    ensures ClipAll(ClipAll(m, amp, rows, cols), amp, rows, cols) == ClipAll(m, amp, rows, cols)
  {
    var r := ClipAll(m, amp, rows, cols);
    if InBox(m, amp, rows, cols) {
      forall s | 0 <= s < rows ensures r[s] == m[s] {
        assert forall k :: 0 <= k < cols ==> r[s][k] == m[s][k];
      }
    }
    var r2 := ClipAll(r, amp, rows, cols);
    forall s | 0 <= s < rows ensures r2[s] == r[s] {
      assert forall k :: 0 <= k < cols ==> r2[s][k] == r[s][k];
    }
  }

  /** Every column of `m` replaced by its projection, as a list of columns. */
  function Projections(m: Matrix, cols: nat, kernel: Matrix, gamma: real, amp: real,
                       secular: (Vector, Matrix, real, real) -> Vector): (r: seq<Vector>)
    requires IsMatrix(m, |m|, cols) && IsMatrix(kernel, |m|, |m|)
    requires forall v :: |secular(v, kernel, gamma, amp)| == |v|
    ensures |r| == cols
    ensures forall k :: 0 <= k < cols ==>
      |r[k]| == |m| && r[k] == ProjectToKernel(Column(m, k), kernel, gamma, amp, secular)
  {
    seq(cols, k requires 0 <= k < cols => ProjectToKernel(Column(m, k), kernel, gamma, amp, secular))
  }

  /** The matrix whose column k is `cs[k]`. */
  function FromColumns(cs: seq<Vector>, rows: nat): (r: Matrix)
    requires forall k :: 0 <= k < |cs| ==> |cs[k]| == rows
    ensures IsMatrix(r, rows, |cs|)
    ensures forall s, k :: 0 <= s < rows && 0 <= k < |cs| ==> r[s][k] == cs[k][s]
  {
    seq(rows, s requires 0 <= s < rows => seq(|cs|, k requires 0 <= k < |cs| => cs[k][s]))
  }

  /** `new_alphas.any()`: some entry is nonzero. */
  predicate AnyNonzero(m: Matrix) {
    exists s, k :: 0 <= s < |m| && 0 <= k < |m[s]| && m[s][k] != 0.0
  }

  /** The guard of the repair `while` loop as written: `any()` is a boolean,
      read as 1 or 0 when compared with 0 and with `amp`. */
  function RepairGuard(m: Matrix, amp: real): (enter: bool)
    ensures enter <==> amp < 0.0 || (amp < 1.0 && AnyNonzero(m))
  {
    var flag := if AnyNonzero(m) then 1.0 else 0.0;
    flag < 0.0 || flag > amp
  }

  /** The arguments the coefficient step needs before it can run: a K x D'
      dictionary, K columns of alphas, and the T x D x D sample covariance of
      an X with T time points. */
  predicate StepArguments(cfg: Config, c: Tensor, x: Shape3, dictionary: Matrix, alphas: Matrix) {
    cfg.Valid() && x.t == cfg.T && IsTensor(c, cfg.T, x.d, x.d) &&
    IsMatrix(dictionary, cfg.K, ShapeOf(dictionary).cols) && IsMatrix(alphas, |alphas|, cfg.K)
  }

  lemma PassFits(cfg: Config, c: Tensor, x: Shape3, dictionary: Matrix, alphas: Matrix)
    requires StepArguments(cfg, c, x, dictionary, alphas)
    requires CheckDimension(x, ShapeOf(dictionary), ShapeOf(alphas)).Pass?
    ensures Fits(dictionary, alphas, c, x.d) && |c| == cfg.T && |dictionary| == cfg.K
    ensures IsMatrix(alphas, cfg.T, cfg.K)
  {
  }

  /** The clipped gradient step shared by both modes (lines 147-150 and 164-166). */
  function ClippedStep(cfg: Config, c: Tensor, d: nat, dictionary: Matrix, alphas: Matrix): (r: Matrix)
    requires cfg.Valid() && Fits(dictionary, alphas, c, d) && |c| == cfg.T && |dictionary| == cfg.K
    ensures IsMatrix(r, cfg.T, cfg.K)
  {
    var delta := Delta(dictionary, alphas, c, d);
    ClipAll(GradientStep(alphas, delta, cfg.laRate, cfg.T, cfg.K), cfg.amp, cfg.T, cfg.K)
  }

  /** Lines 151-153 of the "temporal_kernel" branch: project every column once,
      then stop where the repair loop would be entered. The first projection
      raises when the kernel does not fit. */
  function TemporalStep(cfg: Config, m: Matrix, oracles: Oracles): (r: Result<Matrix>)
    requires cfg.Valid() && cfg.aMethod.TemporalKernel? && oracles.Valid() && IsMatrix(m, cfg.T, cfg.K)
    ensures r.Success? ==> IsMatrix(r.value, cfg.T, cfg.K)
    ensures r == Failure(KernelShape) <==> !cfg.KernelFits()
    ensures r.Failure? && cfg.KernelFits() ==> r.error == RepairLoopEntered && cfg.amp < 1.0
  {
    if !cfg.KernelFits() then Failure(KernelShape)
    else
      RowsOfWidthMatrix(cfg.kernel.value, cfg.T);
      var projected := FromColumns(Projections(m, cfg.K, cfg.kernel.value, cfg.smooth, cfg.amp, oracles.secular), cfg.T);
      if RepairGuard(projected, cfg.amp) then Failure(RepairLoopEntered) else Success(projected)
  }

  /** `update_alphas(X, dictionary, alphas)`. */
  function AlphasUpdate(cfg: Config, c: Tensor, x: Shape3, dictionary: Matrix, alphas: Matrix, oracles: Oracles): (r: Result<Matrix>)
    requires StepArguments(cfg, c, x, dictionary, alphas)
    requires cfg.aMethod.TemporalKernel? ==> oracles.Valid()
    ensures r.Success? ==> IsMatrix(r.value, cfg.T, cfg.K)
    ensures r.Failure? && r.error.Dimension? <==> CheckDimension(x, ShapeOf(dictionary), ShapeOf(alphas)).Fail?
  {
    match CheckDimension(x, ShapeOf(dictionary), ShapeOf(alphas))
    case Fail(e) => Failure(Dimension(e))
    case Pass =>
      PassFits(cfg, c, x, dictionary, alphas);
      var stepped := ClippedStep(cfg, c, x.d, dictionary, alphas);
      if cfg.aMethod.NoReg? then Success(stepped) else TemporalStep(cfg, stepped, oracles)
  }

  /** Without the kernel penalty, a step whose shapes check out always
      succeeds, and for amp >= 0 every coefficient lies in [0, amp]. */
  lemma NoRegInBox(cfg: Config, c: Tensor, x: Shape3, dictionary: Matrix, alphas: Matrix, oracles: Oracles)
    requires StepArguments(cfg, c, x, dictionary, alphas) && cfg.aMethod.NoReg? && 0.0 <= cfg.amp
    requires CheckDimension(x, ShapeOf(dictionary), ShapeOf(alphas)).Pass?
    ensures AlphasUpdate(cfg, c, x, dictionary, alphas, oracles).Success?
    ensures InBox(AlphasUpdate(cfg, c, x, dictionary, alphas, oracles).value, cfg.amp, cfg.T, cfg.K)
  {
    PassFits(cfg, c, x, dictionary, alphas);
    ClipAllBox(GradientStep(alphas, Delta(dictionary, alphas, c, x.d), cfg.laRate, cfg.T, cfg.K), cfg.amp, cfg.T, cfg.K);
  }

  /** Without the kernel penalty and with amp >= 0, a zero coefficient stays
      zero: its step is scaled by the coefficient itself. */
  lemma NoRegZeroStaysZero(cfg: Config, c: Tensor, x: Shape3, dictionary: Matrix, alphas: Matrix, oracles: Oracles, s: nat, k: nat)
    requires StepArguments(cfg, c, x, dictionary, alphas) && cfg.aMethod.NoReg? && 0.0 <= cfg.amp
    requires CheckDimension(x, ShapeOf(dictionary), ShapeOf(alphas)).Pass?
    requires s < cfg.T && k < cfg.K && alphas[s][k] == 0.0
    ensures AlphasUpdate(cfg, c, x, dictionary, alphas, oracles).Success?
    ensures AlphasUpdate(cfg, c, x, dictionary, alphas, oracles).value[s][k] == 0.0
  {
    PassFits(cfg, c, x, dictionary, alphas);
    var delta := Delta(dictionary, alphas, c, x.d);
    assert delta[s][k] == 0.0;
    var step := GradientStep(alphas, delta, cfg.laRate, cfg.T, cfg.K);
    assert step[s][k] == 0.0;
  }

  /** For amp >= 1 the repair loop's guard is false whatever the matrix, so the
      loop body never runs; for amp < 0 it is always true. */
  lemma RepairLoopSkipped(m: Matrix, amp: real)
    ensures 1.0 <= amp ==> !RepairGuard(m, amp)
    ensures amp < 0.0 ==> RepairGuard(m, amp)
  {
  }

  /** In "temporal_kernel" mode with amp >= 1, a matrix whose every column is
      already smooth enough comes through the projection and the repair
      guard unchanged. */
  lemma TemporalFeasibleKept(cfg: Config, m: Matrix, oracles: Oracles)
    requires cfg.Valid() && cfg.aMethod.TemporalKernel? && oracles.Valid()
    requires cfg.kernel.Some? && IsMatrix(cfg.kernel.value, cfg.T, cfg.T)
    requires IsMatrix(m, cfg.T, cfg.K) && 1.0 <= cfg.amp
    requires forall k :: 0 <= k < cfg.K ==> QuadForm(Column(m, k), cfg.kernel.value) <= cfg.smooth
    ensures TemporalStep(cfg, m, oracles) == Success(m)
  {
    RowsOfWidthMatrix(cfg.kernel.value, cfg.T);
    var cs := Projections(m, cfg.K, cfg.kernel.value, cfg.smooth, cfg.amp, oracles.secular);
    forall k | 0 <= k < cfg.K ensures cs[k] == Column(m, k) {
      FeasibleKept(Column(m, k), cfg.kernel.value, cfg.smooth, cfg.amp, oracles.secular);
    }
    OwnColumns(m, cs, cfg.T, cfg.K);
    RepairLoopSkipped(m, cfg.amp);
  }

  /** A matrix is rebuilt from its own columns. */
  lemma OwnColumns(m: Matrix, cs: seq<Vector>, rows: nat, cols: nat)
    requires IsMatrix(m, rows, cols) && |cs| == cols
    requires forall k :: 0 <= k < cols ==> |cs[k]| == rows && cs[k] == Column(m, k)
    ensures FromColumns(cs, rows) == m
  {
    var p := FromColumns(cs, rows);
    forall s | 0 <= s < rows ensures p[s] == m[s] {
      forall k | 0 <= k < cols ensures p[s][k] == m[s][k] {
        assert cs[k][s] == Column(m, k)[s];
      }
    }
  }

  /** Once the shapes check out, "temporal_kernel" mode runs the projection
      on the clipped step. */
  lemma TemporalUpdate(cfg: Config, c: Tensor, x: Shape3, dictionary: Matrix, alphas: Matrix, oracles: Oracles)
    requires StepArguments(cfg, c, x, dictionary, alphas) && cfg.aMethod.TemporalKernel? && oracles.Valid()
    requires CheckDimension(x, ShapeOf(dictionary), ShapeOf(alphas)).Pass?
    ensures Fits(dictionary, alphas, c, x.d) && |c| == cfg.T && |dictionary| == cfg.K
    ensures AlphasUpdate(cfg, c, x, dictionary, alphas, oracles)
      == TemporalStep(cfg, ClippedStep(cfg, c, x.d, dictionary, alphas), oracles)
  {
    PassFits(cfg, c, x, dictionary, alphas);
  }

  /** `m` with column `col` replaced by `v`: `new_alphas[:, col] = v`. */
  function SetColumn(m: Matrix, col: nat, v: Vector, cols: nat): (r: Matrix)
    requires col < cols && IsMatrix(m, |v|, cols)
    ensures IsMatrix(r, |v|, cols)
    ensures forall s, k :: 0 <= s < |v| && 0 <= k < cols ==> r[s][k] == if k == col then v[s] else m[s][k]
  {
    seq(|v|, s requires 0 <= s < |v| => m[s][col := v[s]])
  }

  /** A matrix whose entry (s, k) is `cs[k][s]` is the matrix built from the
      columns `cs`. */
  lemma FromColumnsUnique(r: Matrix, cs: seq<Vector>, rows: nat)
    requires IsMatrix(r, rows, |cs|) && forall k :: 0 <= k < |cs| ==> |cs[k]| == rows
    requires forall s, k :: 0 <= s < rows && 0 <= k < |cs| ==> r[s][k] == cs[k][s]
    ensures r == FromColumns(cs, rows)
  {
    var expected := FromColumns(cs, rows);
    forall s | 0 <= s < rows ensures r[s] == expected[s] {
      assert forall k :: 0 <= k < |cs| ==> r[s][k] == expected[s][k];
    }
  }

  /** The `for col` loop of lines 151-152: each column of `m` in turn is
      overwritten with its projection. */
  method ProjectColumns(m: Matrix, cols: nat, kernel: Matrix, gamma: real, amp: real,
                        secular: (Vector, Matrix, real, real) -> Vector)
    returns (r: Matrix)
    requires IsMatrix(m, |m|, cols) && IsMatrix(kernel, |m|, |m|)
    requires forall v :: |secular(v, kernel, gamma, amp)| == |v|
    ensures r == FromColumns(Projections(m, cols, kernel, gamma, amp, secular), |m|)
  {
    r := ProjectEach(m, cols, kernel, gamma, amp, secular, Projections(m, cols, kernel, gamma, amp, secular));
  }

  /** The loop itself, with the projections it produces named by `cs`. */
  method ProjectEach(m: Matrix, cols: nat, kernel: Matrix, gamma: real, amp: real,
                     secular: (Vector, Matrix, real, real) -> Vector, ghost cs: seq<Vector>)
    returns (r: Matrix)
    requires IsMatrix(m, |m|, cols) && IsMatrix(kernel, |m|, |m|)
    requires |cs| == cols && forall k :: 0 <= k < cols ==> |cs[k]| == |m|
    requires forall k {:trigger Column(m, k)} :: 0 <= k < cols ==>
      cs[k] == ProjectToKernel(Column(m, k), kernel, gamma, amp, secular)
    ensures r == FromColumns(cs, |m|)
  {
    var rows := |m|;
    r := m;
    var col := 0;
    while col < cols
      invariant 0 <= col <= cols && FilledUpTo(r, m, cs, col, rows, cols)
    {
      FillStep(r, m, cs, col, rows, cols);
      var v := ProjectToKernel(Column(r, col), kernel, gamma, amp, secular);
      assert v == cs[col];
      r := SetColumn(r, col, v, cols);
      col := col + 1;
    }
    FromColumnsUnique(r, cs, rows);
  }

  /** Columns before `col` of `r` are those of `cs`, the others still those of `m`. */
  predicate FilledUpTo(r: Matrix, m: Matrix, cs: seq<Vector>, col: nat, rows: nat, cols: nat)
    requires IsMatrix(m, rows, cols) && |cs| == cols && forall k :: 0 <= k < cols ==> |cs[k]| == rows
    requires col <= cols
  {
    IsMatrix(r, rows, cols) &&
    (forall s, k :: 0 <= s < rows && 0 <= k < col ==> r[s][k] == cs[k][s]) &&
    (forall s, k :: 0 <= s < rows && col <= k < cols ==> r[s][k] == m[s][k])
  }

  /** One turn of the loop: column `col` is still the original one, and
      writing `cs[col]` there fills one more column. */
  lemma FillStep(r: Matrix, m: Matrix, cs: seq<Vector>, col: nat, rows: nat, cols: nat)
    requires IsMatrix(m, rows, cols) && |cs| == cols && forall k :: 0 <= k < cols ==> |cs[k]| == rows
    requires col < cols && FilledUpTo(r, m, cs, col, rows, cols)
    ensures Column(r, col) == Column(m, col)
    ensures FilledUpTo(SetColumn(r, col, cs[col], cols), m, cs, col + 1, rows, cols)
  {
  }

  /** `update_alphas(X, dictionary, alphas)` as the source runs it: the shape
      check, the clipped multiplicative step, then in "temporal_kernel" mode
      the column-by-column projection and the test that guards the repair
      loop. */
  method UpdateAlphas(cfg: Config, c: Tensor, x: Shape3, dictionary: Matrix, alphas: Matrix, oracles: Oracles)
    returns (r: Result<Matrix>)
    requires StepArguments(cfg, c, x, dictionary, alphas)
    requires cfg.aMethod.TemporalKernel? ==> oracles.Valid()
    ensures r == AlphasUpdate(cfg, c, x, dictionary, alphas, oracles)
  {
    var check := CheckDimension(x, ShapeOf(dictionary), ShapeOf(alphas));
    if check.Fail? {
      return Failure(Dimension(check.error));
    }
    PassFits(cfg, c, x, dictionary, alphas);
    var newAlphas := ClippedStep(cfg, c, x.d, dictionary, alphas);
    if cfg.aMethod.NoReg? {
      return Success(newAlphas);
    }
    if !cfg.KernelFits() {
      return Failure(KernelShape);
    }
    RowsOfWidthMatrix(cfg.kernel.value, cfg.T);
    newAlphas := ProjectColumns(newAlphas, cfg.K, cfg.kernel.value, cfg.smooth, cfg.amp, oracles.secular);
    if RepairGuard(newAlphas, cfg.amp) {
      return Failure(RepairLoopEntered);
    }
    return Success(newAlphas);
  }
}
