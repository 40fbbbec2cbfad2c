/** The feasibility test of `project_to_kernel`: a column of coefficients is
    kept as it is when its temporal roughness x^T K x is within `gamma`;
    otherwise the eigendecomposition / polynomial-root branch, which this
    model treats as a given routine, produces the projection. */
module Kernel {
  import opened LinAlg

  /** Entry j of x^T K: the sum over i of x[i] * K[i][j]. */
  function RowTimes(x: Vector, k: Matrix, j: nat): (r: seq<real>)
    requires IsMatrix(k, |x|, |x|) && j < |x|
    ensures |r| == |x| && forall i :: 0 <= i < |x| ==> r[i] == x[i] * k[i][j]
  {
    seq(|x|, i requires 0 <= i < |x| => x[i] * k[i][j])
  }

  /** The terms (x^T K)[j] * x[j] of x^T K x. */
  function QuadTerms(x: Vector, k: Matrix): (r: seq<real>)
    requires IsMatrix(k, |x|, |x|)
    ensures |r| == |x| && forall j :: 0 <= j < |x| ==> r[j] == Sum(RowTimes(x, k, j)) * x[j]
  {
    seq(|x|, j requires 0 <= j < |x| => Sum(RowTimes(x, k, j)) * x[j])
  }

  /** x^T K x for a vector x and a square matrix K of the same size. */
  function QuadForm(x: Vector, k: Matrix): real
    requires IsMatrix(k, |x|, |x|)
  {
    Sum(QuadTerms(x, k))
  }

  /** `project_to_kernel(x, K, gamma, amp)`: `x` itself when x^T K x <= gamma,
      the given routine's answer otherwise. */
  function ProjectToKernel(x: Vector, k: Matrix, gamma: real, amp: real,
                           secular: (Vector, Matrix, real, real) -> Vector): (r: Vector)
    requires IsMatrix(k, |x|, |x|)
    ensures r == x || r == secular(x, k, gamma, amp)
    ensures |secular(x, k, gamma, amp)| == |x| ==> |r| == |x|
  {
    if QuadForm(x, k) <= gamma then x else secular(x, k, gamma, amp)
  }

  lemma {:induction false} SumOfZeros(s: seq<real>)
    requires forall i :: 0 <= i < |s| ==> s[i] == 0.0
    ensures Sum(s) == 0.0
  {
    if s != [] {
      SumOfZeros(s[..|s| - 1]);
    }
  }

  function Zeros(n: nat): (r: Vector)
    ensures |r| == n && forall i :: 0 <= i < n ==> r[i] == 0.0
  {
    seq(n, i => 0.0)
  }

  lemma ZeroFactor(a: real, b: real)
    requires b == 0.0
    ensures a * b == 0.0
  {
  }

  /** A vector of zeros has roughness x^T K x = 0. */
  lemma ZeroRoughness(x: Vector, k: Matrix)
    requires IsMatrix(k, |x|, |x|) && forall i :: 0 <= i < |x| ==> x[i] == 0.0
    ensures QuadForm(x, k) == 0.0
  {
    forall j | 0 <= j < |x| ensures QuadTerms(x, k)[j] == 0.0 {
      ZeroTerm(x, k, j);
    }
    SumOfZeros(QuadTerms(x, k));
  }

  lemma ZeroTerm(x: Vector, k: Matrix, j: nat)
    requires IsMatrix(k, |x|, |x|) && j < |x| && x[j] == 0.0
    ensures QuadTerms(x, k)[j] == 0.0
  {
    ZeroFactor(Sum(RowTimes(x, k, j)), x[j]);
  }

  /** The zero column has roughness 0, so for gamma >= 0 it is kept as it is. */
  lemma ZeroColumnKept(k: Matrix, n: nat, gamma: real, amp: real,
                       secular: (Vector, Matrix, real, real) -> Vector)
    requires IsMatrix(k, n, n) && 0.0 <= gamma
    ensures QuadForm(Zeros(n), k) == 0.0
    ensures ProjectToKernel(Zeros(n), k, gamma, amp, secular) == Zeros(n)
  {
    ZeroRoughness(Zeros(n), k);
  }

  /** A column within the smoothness bound is returned as it is. */
  lemma FeasibleKept(x: Vector, k: Matrix, gamma: real, amp: real,
                     secular: (Vector, Matrix, real, real) -> Vector)
    requires IsMatrix(k, |x|, |x|) && QuadForm(x, k) <= gamma
    ensures ProjectToKernel(x, k, gamma, amp, secular) == x
  {
  }

  /** When the routine always lands inside the smoothness region, a second
      projection changes nothing: the projection is idempotent. */
  lemma ProjectionIdempotent(x: Vector, k: Matrix, gamma: real, amp: real,
                             secular: (Vector, Matrix, real, real) -> Vector)
    requires IsMatrix(k, |x|, |x|)
    requires |secular(x, k, gamma, amp)| == |x|
    requires QuadForm(x, k) > gamma ==> QuadForm(secular(x, k, gamma, amp), k) <= gamma
    ensures var y := ProjectToKernel(x, k, gamma, amp, secular);
      |y| == |x| && QuadForm(y, k) <= gamma && ProjectToKernel(y, k, gamma, amp, secular) == y
  {
  }
}
