/** Construction parameters of the model and the numerical routines the model
    does not define itself. */
module Settings {
  import opened LinAlg

  datatype Option<T> = None | Some(value: T)

  /** `a_method`: the coefficient step projects onto the temporal kernel for
      "temporal_kernel" and only clips for every other value. */
  datatype CoefficientPenalty = TemporalKernel | NoReg

  /** `d_method`: "noreg" or "sparse". */
  datatype DictionaryPenalty = DictNoReg | Sparse

  /** The constructor arguments that the core reads. `smooth` is the `gamma`
      handed to the kernel projection. */
  datatype Config = Config(
    K: nat, T: nat, D: nat,
    kernel: Option<Matrix>,
    maxIter: int,
    amp: real,
    aMethod: CoefficientPenalty,
    dMethod: DictionaryPenalty,
    kSparse: int,
    smooth: real,
    tol: real,
    laRate: real,
    ldRate: real)
  {
    /** Non-empty dimensions: the residual and both steps divide by T. */
    predicate Valid() {
      K >= 1 && T >= 1 && D >= 1
    }

    /** A kernel the projection can use on a column of T coefficients. The
        default `kernel = None` is not one. */
    predicate KernelFits() {
      kernel.Some? && |kernel.value| == T && RowsOfWidth(kernel.value, T)
    }
  }

  /** Every row of `m` has `width` entries, checked row by row. */
  predicate RowsOfWidth(m: Matrix, width: nat) {
    if m == [] then true else |m[0]| == width && RowsOfWidth(m[1..], width)
  }

  /** A fitting kernel is a T x T matrix. */
  lemma {:induction false} RowsOfWidthMatrix(m: Matrix, width: nat)
    ensures RowsOfWidth(m, width) <==> IsMatrix(m, |m|, width)
  {
    if m != [] {
      RowsOfWidthMatrix(m[1..], width);
      assert forall i :: 1 <= i < |m| ==> m[i] == m[1..][i - 1];
    }
  }

  /** Numerical routines treated as given:
      - `sqrt`, the square root used for row norms;
      - `secular(x, kernel, gamma, amp)`, the eigendecomposition and
        polynomial-root branch of `project_to_kernel`, reached only when
        `x` is outside the smoothness region;
      - `dualPermutation(trueAlphasT, trueDictionary, alphas, dictionary)`,
        the alignment score of the evaluation mode. */
  datatype Oracles = Oracles(
    sqrt: real -> real,
    secular: (Vector, Matrix, real, real) -> Vector,
    dualPermutation: (Matrix, Matrix, Matrix, Matrix) -> real)
  {
    ghost predicate Valid() {
      (forall x: real :: 0.0 <= x ==> 0.0 <= sqrt(x) && Square(sqrt(x)) == x) &&
      (forall v, m, gamma, amp :: |secular(v, m, gamma, amp)| == |v|)
    }
  }
}
