/** Shape checking shared by the two update steps (`check_dimension`), and the
    failures a fit can end with. */
module Validation {
  import opened LinAlg

  /** Shape of a numpy matrix. */
  datatype Shape2 = Shape2(rows: nat, cols: nat)

  /** Shape of the observation tensor X: (samples, time points, features). */
  datatype Shape3 = Shape3(n: nat, t: nat, d: nat)

  /** The two `ValueError`s raised by `check_dimension`, with the shapes its
      message names. */
  datatype DimensionError =
    | FeatureMismatch(dictionary: Shape2, x: Shape3)
    | TimepointMismatch(alphas: Shape2, x: Shape3)

  /** The shape numpy reports for a (rectangular) matrix. */
  function ShapeOf(m: Matrix): (r: Shape2)
    ensures forall rows: nat, cols: nat :: 0 < rows && IsMatrix(m, rows, cols) ==> r == Shape2(rows, cols)
  {
    Shape2(|m|, if m == [] then 0 else |m[0]|)
  }

  datatype Outcome<E> = Pass | Fail(error: E)

  /** Every way a modelled call can end without a value. */
  datatype FitError =
    | Dimension(cause: DimensionError)
      // the coefficient step would enter its repair `while` loop
    | RepairLoopEntered
      // `project_to_kernel` is handed a kernel that is None or not T x T:
      // `shape` of None, `eigh` of a non-square matrix or the `einsum` of
      // the eigenvectors with the column raises
    | KernelShape
      // a dictionary row has norm 0 before the division that normalises it
    | ZeroNormRow(row: nat)
      // `np.repeat` is handed the negative count D - k_sparse
    | NegativeRepeat(count: int)
      // the two index arrays of the sparse zeroing do not broadcast together
    | IndexShapeMismatch

  datatype Result<T> = Success(value: T) | Failure(error: FitError)

  /** `check_dimension`: the dictionary must have as many columns as X has
      features, and alphas as many rows as X has time points; the feature
      test comes first. */
  function CheckDimension(x: Shape3, dictionary: Shape2, alphas: Shape2): (r: Outcome<DimensionError>)
    ensures r.Pass? <==> dictionary.cols == x.d && alphas.rows == x.t
    ensures r.Fail? && dictionary.cols != x.d ==> r.error == FeatureMismatch(dictionary, x)
    ensures r.Fail? && dictionary.cols == x.d ==> r.error == TimepointMismatch(alphas, x)
  {
    if dictionary.cols != x.d then Fail(FeatureMismatch(dictionary, x))
    else if alphas.rows != x.t then Fail(TimepointMismatch(alphas, x))
    else Pass
  }
}
