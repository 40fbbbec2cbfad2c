/** `compute_residual`: how far the covariance predicted by a (dictionary,
    alphas) pair is from the sample covariance, summed over time. */
module Residual {
  import opened LinAlg

  /** The K contributions alphas[t][k] * d_k[i] * d_k[j] to entry (i, j). */
  function Terms(dictionary: Matrix, a: Vector, i: nat, j: nat): (r: seq<real>)
    requires |dictionary| == |a|
    requires forall k :: 0 <= k < |a| ==> i < |dictionary[k]| && j < |dictionary[k]|
    ensures |r| == |a| && forall k :: 0 <= k < |a| ==> r[k] == a[k] * dictionary[k][i] * dictionary[k][j]
  {
    seq(|a|, k requires 0 <= k < |a| => a[k] * dictionary[k][i] * dictionary[k][j])
  }

  /** The covariance predicted at one time point: the sum over k of
      a[k] * d_k * d_k^T, for the K x D dictionary with rows d_k. */
  function Reconstruct(dictionary: Matrix, a: Vector, d: nat): (r: Matrix)
    requires IsMatrix(dictionary, |a|, d)
    ensures IsMatrix(r, d, d)
    ensures forall i, j :: 0 <= i < d && 0 <= j < d ==> r[i][j] == Sum(Terms(dictionary, a, i, j))
  {
    seq(d, i requires 0 <= i < d =>
      seq(d, j requires 0 <= j < d => Sum(Terms(dictionary, a, i, j))))
  }

  function Difference(u: Vector, v: Vector): (r: Vector)
    requires |u| == |v|
    ensures |r| == |u| && forall i :: 0 <= i < |u| ==> r[i] == u[i] - v[i]
  {
    seq(|u|, i requires 0 <= i < |u| => u[i] - v[i])
  }

  /** Squared Frobenius distance between two d x d matrices. */
  function SquaredError(p: Matrix, q: Matrix, d: nat): real
    requires IsMatrix(p, d, d) && IsMatrix(q, d, d)
  {
    Sum(seq(d, i requires 0 <= i < d => SumSquares(Difference(p[i], q[i]))))
  }

  /** True when the pair's shapes fit the T x D x D sample covariance `c`:
      a K x D dictionary and T x K alphas. */
  predicate Fits(dictionary: Matrix, alphas: Matrix, c: Tensor, d: nat) {
    |c| > 0 && IsMatrix(dictionary, |dictionary|, d) &&
    IsMatrix(alphas, |c|, |dictionary|) && IsTensor(c, |c|, d, d)
  }

  function Errors(dictionary: Matrix, alphas: Matrix, c: Tensor, d: nat): (r: seq<real>)
    requires Fits(dictionary, alphas, c, d)
    ensures |r| == |c|
    ensures forall s :: 0 <= s < |c| ==> r[s] == SquaredError(Reconstruct(dictionary, alphas[s], d), c[s], d)
  {
    seq(|c|, s requires 0 <= s < |c| => SquaredError(Reconstruct(dictionary, alphas[s], d), c[s], d))
  }

  /** The sum of squared differences over all t, i, j, divided by 2T. */
  function Residual(dictionary: Matrix, alphas: Matrix, c: Tensor, d: nat): real
    requires Fits(dictionary, alphas, c, d)
  {
    Sum(Errors(dictionary, alphas, c, d)) / (2.0 * |c| as real)
  }

  /** The squared distance is non-negative and zero exactly on equal matrices. */
  lemma SquaredErrorZero(p: Matrix, q: Matrix, d: nat)
    requires IsMatrix(p, d, d) && IsMatrix(q, d, d)
    ensures 0.0 <= SquaredError(p, q, d)
    ensures SquaredError(p, q, d) == 0.0 <==> p == q
  {
    var rows := seq(d, i requires 0 <= i < d => SumSquares(Difference(p[i], q[i])));
    forall i | 0 <= i < d
      ensures 0.0 <= rows[i]
      ensures rows[i] == 0.0 <==> p[i] == q[i]
    {
      var diff := Difference(p[i], q[i]);
      SumSquaresZero(diff);
      if rows[i] == 0.0 {
        assert forall j :: 0 <= j < d ==> p[i][j] == q[i][j] by {
          forall j | 0 <= j < d ensures p[i][j] == q[i][j] {
            assert diff[j] == 0.0;
          }
        }
      }
    }
    SumNonnegative(rows);
    SumZero(rows);
  }

  lemma QuotientSign(a: real, b: real)
    requires 0.0 < b
    ensures 0.0 <= a ==> 0.0 <= a / b
    ensures a / b == 0.0 <==> a == 0.0
  {
    assert a / b * b == a;
  }

  lemma {:induction false} ResidualNonnegative(dictionary: Matrix, alphas: Matrix, c: Tensor, d: nat)
    requires Fits(dictionary, alphas, c, d)
    ensures 0.0 <= Residual(dictionary, alphas, c, d)
  {
    ErrorsZero(dictionary, alphas, c, d);
    SumNonnegative(Errors(dictionary, alphas, c, d));
    ResidualOfSum(dictionary, alphas, c, d);
  }

  /** Dividing the sum of squared errors by 2T keeps its sign and its zeros. */
  lemma ResidualOfSum(dictionary: Matrix, alphas: Matrix, c: Tensor, d: nat)
    requires Fits(dictionary, alphas, c, d)
    ensures 0.0 <= Sum(Errors(dictionary, alphas, c, d)) ==> 0.0 <= Residual(dictionary, alphas, c, d)
    ensures Residual(dictionary, alphas, c, d) == 0.0 <==> Sum(Errors(dictionary, alphas, c, d)) == 0.0
  {
    QuotientSign(Sum(Errors(dictionary, alphas, c, d)), 2.0 * |c| as real);
  }

  /** The residual is zero exactly when the pair reproduces every C[t]. */
  lemma {:induction false} ResidualZeroIffExact(dictionary: Matrix, alphas: Matrix, c: Tensor, d: nat)
    requires Fits(dictionary, alphas, c, d)
    ensures Residual(dictionary, alphas, c, d) == 0.0 <==>
      forall s :: 0 <= s < |c| ==> Reconstruct(dictionary, alphas[s], d) == c[s]
  {
    SumErrorsZero(dictionary, alphas, c, d);
    ResidualOfSum(dictionary, alphas, c, d);
  }

  /** The squared errors sum to zero exactly when the pair reproduces every C[t]. */
  lemma SumErrorsZero(dictionary: Matrix, alphas: Matrix, c: Tensor, d: nat)
    requires Fits(dictionary, alphas, c, d)
    ensures Sum(Errors(dictionary, alphas, c, d)) == 0.0 <==>
      forall s :: 0 <= s < |c| ==> Reconstruct(dictionary, alphas[s], d) == c[s]
  {
    ErrorsZero(dictionary, alphas, c, d);
    SumZero(Errors(dictionary, alphas, c, d));
  }

  /** Each time step's squared error is nonnegative, and zero exactly where
      the pair reproduces C[t]. */
  lemma ErrorsZero(dictionary: Matrix, alphas: Matrix, c: Tensor, d: nat)
    requires Fits(dictionary, alphas, c, d)
    ensures forall s :: 0 <= s < |c| ==> 0.0 <= Errors(dictionary, alphas, c, d)[s]
    ensures (forall s :: 0 <= s < |c| ==> Errors(dictionary, alphas, c, d)[s] == 0.0) <==>
      (forall s :: 0 <= s < |c| ==> Reconstruct(dictionary, alphas[s], d) == c[s])
  {
    forall s | 0 <= s < |c|
      ensures 0.0 <= Errors(dictionary, alphas, c, d)[s]
      ensures Errors(dictionary, alphas, c, d)[s] == 0.0 <==> Reconstruct(dictionary, alphas[s], d) == c[s]
    {
      SquaredErrorZero(Reconstruct(dictionary, alphas[s], d), c[s], d);
    }
  }

  /** Rows of `m` in the order `p`. */
  function PermuteRows(m: Matrix, p: seq<nat>): (r: Matrix)
    requires IsPermutation(p, |m|)
    ensures |r| == |m| && forall k :: 0 <= k < |m| ==> r[k] == m[p[k]]
  {
    seq(|m|, k requires 0 <= k < |m| => m[p[k]])
  }

  /** Columns of the T x K matrix `m` in the order `p`. */
  function PermuteColumns(m: Matrix, p: seq<nat>): (r: Matrix)
    requires IsMatrix(m, |m|, |p|) && IsPermutation(p, |p|)
    ensures IsMatrix(r, |m|, |p|)
    ensures forall s, k :: 0 <= s < |m| && 0 <= k < |p| ==> r[s][k] == m[s][p[k]]
  {
    seq(|m|, s requires 0 <= s < |m| => seq(|p|, k requires 0 <= k < |p| => m[s][p[k]]))
  }

  /** Relabelling the K components does not change the predicted covariance. */
  lemma ReconstructPermuted(dictionary: Matrix, alphas: Matrix, p: seq<nat>, d: nat, s: nat)
    requires IsMatrix(dictionary, |p|, d) && IsMatrix(alphas, |alphas|, |p|)
    requires IsPermutation(p, |p|) && s < |alphas|
    ensures Reconstruct(PermuteRows(dictionary, p), PermuteColumns(alphas, p)[s], d) == Reconstruct(dictionary, alphas[s], d)
  {
    var dictionary', a' := PermuteRows(dictionary, p), PermuteColumns(alphas, p)[s];
    forall i, j | 0 <= i < d && 0 <= j < d
      ensures Reconstruct(dictionary', a', d)[i][j] == Reconstruct(dictionary, alphas[s], d)[i][j]
    {
      var t := Terms(dictionary, alphas[s], i, j);
      SumReindex(t, p, Terms(dictionary', a', i, j));
    }
    var r', r := Reconstruct(dictionary', a', d), Reconstruct(dictionary, alphas[s], d);
    forall i | 0 <= i < d ensures r'[i] == r[i] {
      assert forall j :: 0 <= j < d ==> r'[i][j] == r[i][j];
    }
  }

  /** Permuting the dictionary's rows and the alphas' columns jointly leaves
      the residual unchanged. */
  lemma {:induction false} ResidualPermutationInvariant(dictionary: Matrix, alphas: Matrix, c: Tensor, d: nat, p: seq<nat>)
    requires Fits(dictionary, alphas, c, d) && IsPermutation(p, |dictionary|)
    ensures Fits(PermuteRows(dictionary, p), PermuteColumns(alphas, p), c, d)
    ensures Residual(PermuteRows(dictionary, p), PermuteColumns(alphas, p), c, d) == Residual(dictionary, alphas, c, d)
  {
    var dictionary', alphas' := PermuteRows(dictionary, p), PermuteColumns(alphas, p);
    forall s | 0 <= s < |c|
      ensures Reconstruct(dictionary', alphas'[s], d) == Reconstruct(dictionary, alphas[s], d)
    {
      ReconstructPermuted(dictionary, alphas, p, d, s);
    }
    assert Errors(dictionary', alphas', c, d) == Errors(dictionary, alphas, c, d);
  }
}
