/** `update_dictionary`: a gradient step on the K x D dictionary, in "sparse"
    mode a hard threshold of every row, and the division of every row by its
    Euclidean norm. */
module DictionaryStep {
  import opened LinAlg
  import opened Validation
  import opened Settings
  import opened Residual
  import opened AlphasStep
  import opened Threshold

  /** The terms over j of diff_cov[t][i][j] * est_cov1[t][j][k], where
      est_cov1[t][j][k] = d_k[j] * alphas[t][k]. */
  function CrossTerms(dictionary: Matrix, alphas: Matrix, c: Tensor, d: nat, s: nat, i: nat, k: nat): (r: seq<real>)
    requires Fits(dictionary, alphas, c, d) && s < |c| && i < d && k < |dictionary|
    ensures |r| == d
  {
    seq(d, j requires 0 <= j < d => Misfit(dictionary, alphas, c, d, s, i, j) * (dictionary[k][j] * alphas[s][k]))
  }

  /** One sum over j per time point t. */
  function TimeTerms(dictionary: Matrix, alphas: Matrix, c: Tensor, d: nat, i: nat, k: nat): (r: seq<real>)
    requires Fits(dictionary, alphas, c, d) && i < d && k < |dictionary|
    ensures |r| == |c|
  {
    seq(|c|, s requires 0 <= s < |c| => Sum(CrossTerms(dictionary, alphas, c, d, s, i, k)))
  }

  /** delta_D transposed, K x D: the sum over t and j is divided by T to give
      diff_cov, then doubled and divided by T once more. */
  function DictionaryGradient(dictionary: Matrix, alphas: Matrix, c: Tensor, d: nat): (g: Matrix)
    requires Fits(dictionary, alphas, c, d)
    ensures IsMatrix(g, |dictionary|, d)
  {
    var t := |c| as real;
    seq(|dictionary|, k requires 0 <= k < |dictionary| =>
      seq(d, i requires 0 <= i < d => 2.0 * (Sum(TimeTerms(dictionary, alphas, c, d, i, k)) / t) / t))
  }

  /** Every row hard-thresholded along its own argsort of magnitudes. */
  function Sparsify(m: Matrix, z: nat, rows: nat, cols: nat): (r: Matrix)
    requires IsMatrix(m, rows, cols) && z <= cols
    ensures IsMatrix(r, rows, cols)
  {
    seq(rows, k requires 0 <= k < rows => HardThreshold(m[k], ArgSort(m[k]), z))
  }

  /** `dictionary - ld_rate * delta_D.T`. */
  function DescentStep(cfg: Config, c: Tensor, d: nat, dictionary: Matrix, alphas: Matrix): (r: Matrix)
    requires cfg.Valid() && Fits(dictionary, alphas, c, d) && |c| == cfg.T && |dictionary| == cfg.K
    ensures IsMatrix(r, cfg.K, d)
  {
    GradientStep(dictionary, DictionaryGradient(dictionary, alphas, c, d), cfg.ldRate, cfg.K, d)
  }

  /** Lines 203-210: `new_dictionary` before normalisation. */
  function SteppedDictionary(cfg: Config, c: Tensor, d: nat, dictionary: Matrix, alphas: Matrix): (r: Result<Matrix>)
    requires cfg.Valid() && Fits(dictionary, alphas, c, d) && |c| == cfg.T && |dictionary| == cfg.K
    ensures r.Success? ==> IsMatrix(r.value, cfg.K, d)
    ensures r.Failure? ==> cfg.dMethod.Sparse? && ZeroCount(d, cfg.D - cfg.kSparse).Failure?
  {
    var step := DescentStep(cfg, c, d, dictionary, alphas);
    if cfg.dMethod.DictNoReg? then Success(step)
    else match ZeroCount(d, cfg.D - cfg.kSparse)
      case Failure(e) => Failure(e)
      case Success(z) => Success(Sparsify(step, z, cfg.K, d))
  }

  /** `nrm[k]`: the square root of the row's sum of squares. */
  function Norm(row: Vector, sqrt: real -> real): real {
    sqrt(SumSquares(row))
  }

  /** The first row, from `from` on, whose norm is zero. */
  function FirstZeroNorm(m: Matrix, sqrt: real -> real, from: nat): (r: Option<nat>)
    requires from <= |m|
    ensures r.None? <==> forall k :: from <= k < |m| ==> Norm(m[k], sqrt) != 0.0
    ensures r.Some? ==> (from <= r.value < |m| && Norm(m[r.value], sqrt) == 0.0 &&
      forall k :: from <= k < r.value ==> Norm(m[k], sqrt) != 0.0)
    decreases |m| - from
  {
    if from == |m| then None
    else if Norm(m[from], sqrt) == 0.0 then Some(from)
    else FirstZeroNorm(m, sqrt, from + 1)
  }

  /** The `for k` loop: every row divided by its norm. */
  function Normalize(m: Matrix, sqrt: real -> real, rows: nat, cols: nat): (r: Matrix)
    requires IsMatrix(m, rows, cols) && forall k :: 0 <= k < rows ==> Norm(m[k], sqrt) != 0.0
    ensures IsMatrix(r, rows, cols)
    ensures forall k, i :: 0 <= k < rows && 0 <= i < cols ==> r[k][i] == m[k][i] / Norm(m[k], sqrt)
  {
    seq(rows, k requires 0 <= k < rows => DivideBy(m[k], Norm(m[k], sqrt)))
  }

  /** Lines 214-218, or the first row whose norm is zero. */
  function NormalizeRows(m: Matrix, sqrt: real -> real, rows: nat, cols: nat): (r: Result<Matrix>)
    requires IsMatrix(m, rows, cols)
    ensures r.Success? ==> IsMatrix(r.value, rows, cols)
    ensures r.Failure? ==> r.error.ZeroNormRow? && r.error.row < rows && Norm(m[r.error.row], sqrt) == 0.0
  {
    match FirstZeroNorm(m, sqrt, 0)
    case Some(k) => Failure(ZeroNormRow(k))
    case None => Success(Normalize(m, sqrt, rows, cols))
  }

  /** `update_dictionary(X, dictionary, alphas)`. A row whose norm is zero
      would be divided by zero; the model reports the first such row. */
  function DictionaryUpdate(cfg: Config, c: Tensor, x: Shape3, dictionary: Matrix, alphas: Matrix, oracles: Oracles): (r: Result<Matrix>)
    requires StepArguments(cfg, c, x, dictionary, alphas)
    ensures r.Success? ==> IsMatrix(r.value, cfg.K, x.d)
    ensures r.Failure? && r.error.Dimension? <==> CheckDimension(x, ShapeOf(dictionary), ShapeOf(alphas)).Fail?
  {
    match CheckDimension(x, ShapeOf(dictionary), ShapeOf(alphas))
    case Fail(e) => Failure(Dimension(e))
    case Pass =>
      PassFits(cfg, c, x, dictionary, alphas);
      match SteppedDictionary(cfg, c, x.d, dictionary, alphas)
      case Failure(e) => Failure(e)
      case Success(m) => NormalizeRows(m, oracles.sqrt, cfg.K, x.d)
  }

  /** Dividing a row by its nonzero norm gives a row of unit norm. */
  lemma UnitRow(row: Vector, sqrt: real -> real)
    requires Norm(row, sqrt) != 0.0 && Square(Norm(row, sqrt)) == SumSquares(row)
    ensures SumSquares(DivideBy(row, Norm(row, sqrt))) == 1.0
  {
    var n := Norm(row, sqrt);
    SumSquaresDivided(row, n);
    SquareSign(n);
    OneFromProduct(SumSquares(DivideBy(row, n)), Square(n));
  }

  /** Division by a nonzero norm keeps exactly the same entries nonzero. */
  lemma DivisionKeepsSupport(row: Vector, n: real)
    requires n != 0.0
    ensures Support(DivideBy(row, n)) == Support(row)
  {
    var q := DivideBy(row, n);
    forall i | 0 <= i < |row| ensures q[i] != 0.0 <==> row[i] != 0.0 {
      if row[i] != 0.0 {
        assert q[i] * n == row[i];
      }
    }
  }

  /** Every row of a successful update has sum of squares 1. */
  lemma UpdateUnitRows(cfg: Config, c: Tensor, x: Shape3, dictionary: Matrix, alphas: Matrix, oracles: Oracles)
    requires StepArguments(cfg, c, x, dictionary, alphas) && oracles.Valid()
    requires DictionaryUpdate(cfg, c, x, dictionary, alphas, oracles).Success?
    ensures forall k :: 0 <= k < cfg.K ==> SumSquares(DictionaryUpdate(cfg, c, x, dictionary, alphas, oracles).value[k]) == 1.0
  {
    PassFits(cfg, c, x, dictionary, alphas);
    var m := SteppedDictionary(cfg, c, x.d, dictionary, alphas).value;
    forall k | 0 <= k < cfg.K ensures SumSquares(DivideBy(m[k], Norm(m[k], oracles.sqrt))) == 1.0 {
      SumSquaresZero(m[k]);
      UnitRow(m[k], oracles.sqrt);
    }
  }

  /** Every row of a sparsified matrix has at most cols - z nonzero entries. */
  lemma SparsifyRows(m: Matrix, z: nat, rows: nat, cols: nat)
    requires IsMatrix(m, rows, cols) && z <= cols
    ensures RowsAtMost(Sparsify(m, z, rows, cols), cols - z)
  {
    forall k | 0 <= k < rows ensures |Support(Sparsify(m, z, rows, cols)[k])| <= cols - z {
      ArgSortCorrect(m[k]);
      ThresholdSparsity(m[k], ArgSort(m[k]), z);
    }
  }

  /** Normalising keeps every row's nonzero positions, so it keeps a bound on
      their number. */
  lemma NormalizeKeepsSupport(m: Matrix, sqrt: real -> real, rows: nat, cols: nat, bound: int)
    requires IsMatrix(m, rows, cols) && forall k :: 0 <= k < rows ==> Norm(m[k], sqrt) != 0.0
    ensures forall k :: 0 <= k < rows ==> Support(Normalize(m, sqrt, rows, cols)[k]) == Support(m[k])
    ensures RowsAtMost(m, bound) ==> RowsAtMost(Normalize(m, sqrt, rows, cols), bound)
  {
    forall k | 0 <= k < rows ensures Support(Normalize(m, sqrt, rows, cols)[k]) == Support(m[k]) {
      DivisionKeepsSupport(m[k], Norm(m[k], sqrt));
      assert Normalize(m, sqrt, rows, cols)[k] == DivideBy(m[k], Norm(m[k], sqrt));
    }
  }

  /** A successful normalisation is the row-by-row division. */
  lemma NormalizeRowsSuccess(m: Matrix, sqrt: real -> real, rows: nat, cols: nat)
    requires IsMatrix(m, rows, cols) && NormalizeRows(m, sqrt, rows, cols).Success?
    ensures forall k :: 0 <= k < rows ==> Norm(m[k], sqrt) != 0.0
    ensures NormalizeRows(m, sqrt, rows, cols).value == Normalize(m, sqrt, rows, cols)
  {
  }

  lemma SparseStepped(cfg: Config, c: Tensor, d: nat, dictionary: Matrix, alphas: Matrix)
    requires cfg.Valid() && Fits(dictionary, alphas, c, d) && |c| == cfg.T && |dictionary| == cfg.K
    requires cfg.dMethod.Sparse? && 0 <= cfg.kSparse <= cfg.D == d
    ensures SteppedDictionary(cfg, c, d, dictionary, alphas)
      == Success(Sparsify(DescentStep(cfg, c, d, dictionary, alphas), cfg.D - cfg.kSparse, cfg.K, d))
  {
    assert ZeroCount(d, cfg.D - cfg.kSparse) == Success(cfg.D - cfg.kSparse);
  }

  lemma SparseUpdate(cfg: Config, c: Tensor, x: Shape3, dictionary: Matrix, alphas: Matrix, oracles: Oracles)
    requires StepArguments(cfg, c, x, dictionary, alphas) && x.d == cfg.D
    requires cfg.dMethod.Sparse? && 0 <= cfg.kSparse <= cfg.D
    requires CheckDimension(x, ShapeOf(dictionary), ShapeOf(alphas)).Pass?
    ensures Fits(dictionary, alphas, c, x.d) && |c| == cfg.T && |dictionary| == cfg.K
    ensures DictionaryUpdate(cfg, c, x, dictionary, alphas, oracles) ==
      NormalizeRows(Sparsify(DescentStep(cfg, c, x.d, dictionary, alphas), cfg.D - cfg.kSparse, cfg.K, x.d), oracles.sqrt, cfg.K, x.d)
  {
    PassFits(cfg, c, x, dictionary, alphas);
    SparseStepped(cfg, c, x.d, dictionary, alphas);
  }

  /** Thresholding any K x D step to k_sparse entries and then normalising
      leaves at most k_sparse nonzero entries per row; with `SparseUpdate`
      this bounds every row of a successful "sparse" update. */
  lemma SparseNormalizedRows(step: Matrix, z: nat, kSparse: int, rows: nat, cols: nat, sqrt: real -> real)
    requires IsMatrix(step, rows, cols) && z <= cols && z + kSparse == cols
    ensures NormalizeRows(Sparsify(step, z, rows, cols), sqrt, rows, cols).Success? ==>
      RowsAtMost(NormalizeRows(Sparsify(step, z, rows, cols), sqrt, rows, cols).value, kSparse)
  {
    var m := Sparsify(step, z, rows, cols);
    if NormalizeRows(m, sqrt, rows, cols).Success? {
      SparsifyRows(step, z, rows, cols);
      NormalizeRowsSuccess(m, sqrt, rows, cols);
      NormalizeKeepsSupport(m, sqrt, rows, cols, kSparse);
    }
  }

  /** `new_dictionary[index_x, index_y] = 0.` on one row: the positions
      `order[0]`, ..., `order[z - 1]` are set to 0 one after the other. */
  method ZeroLeading(row: Vector, order: seq<nat>, z: nat) returns (r: Vector)
    requires z <= |order| && forall p :: 0 <= p < |order| ==> order[p] < |row|
    ensures r == HardThreshold(row, order, z)
  {
    r := row;
    var p := 0;
    while p < z
      invariant 0 <= p <= z && r == HardThreshold(row, order, p)
    {
      assert order[..p + 1] == order[..p] + [order[p]];
      r := r[order[p] := 0.0];
      p := p + 1;
    }
  }

  /** Lines 206-210 over the whole matrix, row by row: each row's leading `z`
      positions in its ascending argsort of magnitudes are zeroed in place. */
  method ZeroSmallest(m: Matrix, z: nat, rows: nat, cols: nat) returns (r: Matrix)
    requires IsMatrix(m, rows, cols) && z <= cols
    ensures r == Sparsify(m, z, rows, cols)
  {
    ghost var target := Sparsify(m, z, rows, cols);
    r := m;
    var k := 0;
    while k < rows
      invariant 0 <= k <= rows && |r| == rows
      invariant forall j :: 0 <= j < k ==> r[j] == target[j]
      invariant forall j :: k <= j < rows ==> r[j] == m[j]
    {
      var index := ArgSort(r[k]);
      var row := ZeroLeading(r[k], index, z);
      assert row == target[k];
      r := r[k := row];
      k := k + 1;
    }
  }

  /** Lines 214-218: the row norms are taken first, then the `for k` loop
      divides row k by `nrm[k]`; a zero norm stops the loop at that row. */
  method NormalizeInPlace(m: Matrix, sqrt: real -> real, rows: nat, cols: nat) returns (r: Result<Matrix>)
    requires IsMatrix(m, rows, cols)
    ensures r == NormalizeRows(m, sqrt, rows, cols)
  {
    var nrm := seq(rows, k requires 0 <= k < rows => sqrt(SumSquares(m[k])));
    var newDictionary := m;
    var k := 0;
    while k < rows
      invariant 0 <= k <= rows && |newDictionary| == rows
      invariant forall j :: 0 <= j < k ==> Norm(m[j], sqrt) != 0.0
      invariant forall j :: 0 <= j < k ==> newDictionary[j] == DivideBy(m[j], Norm(m[j], sqrt))
      invariant forall j :: k <= j < rows ==> newDictionary[j] == m[j]
    {
      if nrm[k] == 0.0 {
        return Failure(ZeroNormRow(k));
      }
      newDictionary := newDictionary[k := DivideBy(newDictionary[k], nrm[k])];
      k := k + 1;
    }
    assert newDictionary == Normalize(m, sqrt, rows, cols);
    return Success(newDictionary);
  }

  /** `update_dictionary(X, dictionary, alphas)` as the source runs it. */
  method UpdateDictionary(cfg: Config, c: Tensor, x: Shape3, dictionary: Matrix, alphas: Matrix, oracles: Oracles)
    returns (r: Result<Matrix>)
    requires StepArguments(cfg, c, x, dictionary, alphas)
    ensures r == DictionaryUpdate(cfg, c, x, dictionary, alphas, oracles)
  {
    var check := CheckDimension(x, ShapeOf(dictionary), ShapeOf(alphas));
    if check.Fail? {
      return Failure(Dimension(check.error));
    }
    PassFits(cfg, c, x, dictionary, alphas);
    var newDictionary := DescentStep(cfg, c, x.d, dictionary, alphas);
    if cfg.dMethod.Sparse? {
      var count := ZeroCount(x.d, cfg.D - cfg.kSparse);
      if count.Failure? {
        return Failure(count.error);
      }
      newDictionary := ZeroSmallest(newDictionary, count.value, cfg.K, x.d);
    }
    r := NormalizeInPlace(newDictionary, oracles.sqrt, cfg.K, x.d);
  }
}
