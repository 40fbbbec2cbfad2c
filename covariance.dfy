/** `compute_sample_covariance`: the per-time second-moment matrices of the
    observations, averaged over the samples. */
module Covariance {
  import opened LinAlg

  /** The products X[n][t][i] * X[n][t][j], one per sample n. */
  function Products(x: Tensor, t: nat, i: nat, j: nat): (r: seq<real>)
    requires forall m :: 0 <= m < |x| ==> t < |x[m]| && i < |x[m][t]| && j < |x[m][t]|
    ensures |r| == |x| && forall m :: 0 <= m < |x| ==> r[m] == x[m][t][i] * x[m][t][j]
  {
    seq(|x|, m requires 0 <= m < |x| => x[m][t][i] * x[m][t][j])
  }

  /** C[t][i][j] = (sum over n of X[n][t][i] * X[n][t][j]) / N, for X of shape
      (N, T, D) with N > 0. */
  function SampleCovariance(x: Tensor, t: nat, d: nat): (c: Tensor)
    requires |x| > 0 && IsTensor(x, |x|, t, d)
    ensures IsTensor(c, t, d, d)
  {
    seq(t, s requires 0 <= s < t =>
      seq(d, i requires 0 <= i < d =>
        seq(d, j requires 0 <= j < d => Sum(Products(x, s, i, j)) / |x| as real)))
  }

  /** Every C[t] is symmetric. */
  lemma CovarianceSymmetric(x: Tensor, t: nat, d: nat, s: nat, i: nat, j: nat)
    requires |x| > 0 && IsTensor(x, |x|, t, d)
    requires s < t && i < d && j < d
    ensures SampleCovariance(x, t, d)[s][i][j] == SampleCovariance(x, t, d)[s][j][i]
  {
    assert Products(x, s, i, j) == Products(x, s, j, i);
  }

  /** Every diagonal entry of every C[t] is a mean of squares, so non-negative. */
  lemma CovarianceDiagonalNonnegative(x: Tensor, t: nat, d: nat, s: nat, i: nat)
    requires |x| > 0 && IsTensor(x, |x|, t, d)
    requires s < t && i < d
    ensures 0.0 <= SampleCovariance(x, t, d)[s][i][i]
  {
    SumNonnegative(Products(x, s, i, i));
  }

  /** With a single sample, C[t] is the outer product of X[0][t] with itself. */
  lemma CovarianceSingleSample(x: Tensor, t: nat, d: nat, s: nat, i: nat, j: nat)
    requires |x| == 1 && IsTensor(x, 1, t, d)
    requires s < t && i < d && j < d
    ensures SampleCovariance(x, t, d)[s][i][j] == x[0][s][i] * x[0][s][j]
  {
    var p := Products(x, s, i, j);
    assert p[..0] == [];
    assert Sum(p) == p[0];
    assert |x| as real == 1.0;
  }
}
