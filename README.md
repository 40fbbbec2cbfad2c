# snscov: a verified model of the alternating-minimisation core

`snscov/model.py` fits a low-rank, time-varying covariance model. The model
has K dictionary rows `d_k` (a K x D matrix) and T x K non-negative
coefficients `alphas`. At each time point t it approximates the sample
covariance `C[t]` by `sum_k alphas[t][k] * d_k d_k^T`. The `fit` method
alternates two steps:
- a multiplicative gradient step on `alphas`, clipped to `[0, amp]` and,
  in "temporal_kernel" mode, passed column by column through a smoothness
  projection;
- a gradient step on the dictionary, hard-thresholded to `k_sparse`
  entries per row in "sparse" mode and renormalised row by row.

The loop stops on a small residual change or, when ground truth is given, on
a rise of the alignment score. It keeps a best state as it goes.

This project restates that core in Dafny over the reals and proves what it
promises. The modules follow the source's routines:

| module | models |
|---|---|
| `LinAlg` (`linalg.dfy`) | vectors, matrices and tensors as nested sequences; sums, squares, transposes, permutations of an index range |
| `Settings` (`settings.dfy`) | the constructor arguments (`Config`) and the numerical routines taken as given (`Oracles`) |
| `Validation` (`validation.dfy`) | `check_dimension` and the ways a call can fail |
| `Covariance` (`covariance.dfy`) | `compute_sample_covariance` |
| `Residual` (`residual.dfy`) | `compute_residual` |
| `Kernel` (`kernel.dfy`) | the feasibility test of `project_to_kernel` |
| `AlphasStep` (`alphas.dfy`) | `update_alphas`: a specification function and a method with the column loop |
| `Threshold` (`threshold.dfy`) | the argsort and the zeroing of the sparse dictionary step |
| `DictionaryStep` (`dictionary.dfy`) | `update_dictionary`: a specification function and methods with the zeroing and normalising loops |
| `FitLoop` (`fit.dfy`) | the `fit` loop as a recursive specification, and its stopping and best-state properties |
| `Model` (`model.dfy`) | the `snscov_model` object as a class whose methods update its fields, with `fit`'s loop proved against `FitLoop` |

The update steps and `fit` change state step by step, so they are methods
with loops and invariants. Each method is proved equal to a specification
function: `UpdateAlphas` to `AlphasUpdate`, `UpdateDictionary` to
`DictionaryUpdate`, and `SnscovModel.Fit` to `FitLoop.Loop`. The properties
are then proved about those functions.

`FitLoop.Loop` is stated for any residual, score and update routines that
keep the shapes (`Run`). `FitLoop.Steps` plugs in the model's own routines.

Points of `snscov/model.py` that the model keeps as they are written:
- The dictionary gradient is divided by T at line 197 and again at
  line 198.
- In "temporal_kernel" mode each clipped column is projected once, and
  the projected column is not clipped again (lines 149-152).
- The repair loop is entered exactly when its guard at line 153 holds.
- On a residual stop the best pair is the previous iterate, and the pair
  that triggered the stop is not kept (lines 321-329).

## Model

| member | source | states |
|---|---|---|
| Validation.CheckDimension | snscov/model.py:46-55 | passes exactly when the dictionary has X's feature count as columns and alphas has X's time-point count as rows; otherwise the feature error when the feature counts differ, else the time-point error |
| Covariance.Products | snscov/model.py:102 | definition: one product X[n][t][i] * X[n][t][j] per sample n |
| Covariance.SampleCovariance | snscov/model.py:102 | the result has shape (T, D, D) |
| Covariance.CovarianceSymmetric | snscov/model.py:102 | every C[t] is symmetric |
| Covariance.CovarianceDiagonalNonnegative | snscov/model.py:102 | every diagonal entry of every C[t] is non-negative |
| Covariance.CovarianceSingleSample | snscov/model.py:102 | with N = 1, C[t] is the outer product of X[0][t] with itself |
| Residual.Terms | snscov/model.py:105-109 | definition: entry (i, j) of the reconstruction collects alphas[t][k] * d_k[i] * d_k[j] over k |
| Residual.Reconstruct | snscov/model.py:105-109 | definition: the predicted C[t] is D x D with entry (i, j) the sum over k of alphas[t][k] d_k[i] d_k[j] |
| Residual.Errors | snscov/model.py:111 | definition: one squared Frobenius distance per time point between prediction and C[t] |
| Residual.SquaredError | snscov/model.py:111 | definition: the sum of squared entrywise differences of two D x D matrices (its properties are in SquaredErrorZero) |
| Residual.Residual | snscov/model.py:104-112 | definition: `compute_residual`, the summed squared errors over all time points divided by 2T (its properties are in ResidualNonnegative, ResidualZeroIffExact and ResidualPermutationInvariant) |
| Residual.SquaredErrorZero | snscov/model.py:111 | the squared distance is non-negative and zero exactly on equal matrices |
| Residual.ResidualNonnegative | snscov/model.py:104-112 | the residual is non-negative |
| Residual.ResidualZeroIffExact | snscov/model.py:104-112 | the residual is zero exactly when every C[t] is reproduced |
| Residual.ReconstructPermuted | snscov/model.py:105-109 | relabelling the K components jointly leaves every predicted C[t] unchanged |
| Residual.ResidualPermutationInvariant | snscov/model.py:104-112 | permuting dictionary rows and alphas columns jointly leaves the residual unchanged |
| Kernel.RowTimes | snscov/model.py:21 | definition: the terms of (x^T K)[j] |
| Kernel.QuadTerms | snscov/model.py:21 | definition: the terms of x^T K x |
| Kernel.QuadForm | snscov/model.py:21 | definition: the roughness x^T K x that the feasibility test compares with gamma (its properties are in ZeroRoughness and FeasibleKept) |
| Kernel.ProjectToKernel | snscov/model.py:14-42 | the result is the input itself or the infeasible-branch routine's answer, of the input's length when that routine keeps lengths |
| Kernel.ZeroColumnKept | snscov/model.py:21-22 | the zero column has roughness 0 and is returned unchanged when gamma >= 0 |
| Kernel.ZeroRoughness | snscov/model.py:21 | a column of zeros has roughness x^T K x = 0 for every kernel |
| Kernel.FeasibleKept | snscov/model.py:21-22 | a column with x^T K x <= gamma is returned unchanged, whatever the infeasible branch would do |
| Kernel.ProjectionIdempotent | snscov/model.py:21-22 | a column is returned unchanged when x^T K x <= gamma; so once the routine lands in the region, projecting again changes nothing |
| AlphasStep.Misfit | snscov/model.py:136-139 | definition: entry (i, j) of `diff_cov[t]`, the predicted minus the sample covariance |
| AlphasStep.Step1Terms | snscov/model.py:141 | step_1 sums D terms |
| AlphasStep.Step2Terms | snscov/model.py:142 | step_2 sums D terms |
| AlphasStep.CoefficientGradient | snscov/model.py:133-142 | step_2 has shape (T, K) |
| AlphasStep.Delta | snscov/model.py:143 | delta_A has shape (T, K) and is zero wherever the coefficient is zero |
| AlphasStep.GradientStep | snscov/model.py:147 | definition: each entry is alphas minus la_rate times delta_A |
| AlphasStep.Clip | snscov/model.py:149-150 | for amp >= 0 the result lies in [0, amp], equals x inside the box, 0 below, amp above; for amp < 0 it is amp |
| AlphasStep.ClipAll | snscov/model.py:149-150 | definition: every entry clipped, shape kept |
| AlphasStep.ClipAllBox | snscov/model.py:149-150 | clipping lands in the box, fixes matrices already in it, and is idempotent |
| AlphasStep.Projections | snscov/model.py:151-152 | definition: one projected column per column of the matrix |
| AlphasStep.FromColumns | snscov/model.py:151-152 | definition: the matrix whose column k is the k-th vector |
| AlphasStep.SetColumn | snscov/model.py:152 | column col replaced by v, every other entry kept |
| AlphasStep.FromColumnsUnique | snscov/model.py:151-152 | a matrix agreeing entrywise with the columns is the one built from them |
| AlphasStep.ProjectColumns | snscov/model.py:151-152 | the column loop yields the matrix of projected columns |
| AlphasStep.ProjectEach | snscov/model.py:151-152 | after the loop over k, column k holds the projection of the input's column k, for every k |
| AlphasStep.RepairGuard | snscov/model.py:153 | the repair loop is entered exactly when amp < 0, or amp < 1 and some entry is nonzero |
| AlphasStep.RepairLoopSkipped | snscov/model.py:153 | for amp >= 1 the repair loop is never entered; for amp < 0 always |
| AlphasStep.PassFits | snscov/model.py:131 | after a passing shape check, the pair fits the T x D x D sample covariance |
| AlphasStep.ClippedStep | snscov/model.py:147-150 | the clipped step has shape (T, K) |
| AlphasStep.TemporalStep | snscov/model.py:145-159 | shape (T, K) on success; it fails with the kernel-shape error exactly when the kernel is missing or not T x T, and otherwise only with the repair-loop error, and only for amp < 1 |
| AlphasStep.AlphasUpdate | snscov/model.py:114-168 | shape (T, K) on success; a dimension error exactly when `check_dimension` fails |
| AlphasStep.NoRegInBox | snscov/model.py:163-166 | without the kernel penalty the step succeeds and every coefficient lies in [0, amp] |
| AlphasStep.NoRegZeroStaysZero | snscov/model.py:143-166 | without the kernel penalty a zero coefficient stays zero |
| AlphasStep.TemporalFeasibleKept | snscov/model.py:151-153 | with amp >= 1, a matrix whose columns are all within the smoothness bound comes out unchanged |
| AlphasStep.TemporalUpdate | snscov/model.py:145-159 | in "temporal_kernel" mode the update is the projection applied to the clipped step |
| AlphasStep.UpdateAlphas | snscov/model.py:114-168 | the method computes the specification `AlphasUpdate` |
| Threshold.Insert | snscov/model.py:206 | inserting a position adds exactly that position to the order |
| Threshold.ArgSortPrefix | snscov/model.py:206 | a permutation of the first n positions |
| Threshold.InsertSorted | snscov/model.py:206 | insertion keeps the order ascending in magnitude |
| Threshold.ArgSortPrefixSorted | snscov/model.py:206 | the prefix argsort is ascending in magnitude |
| Threshold.ArgSortCorrect | snscov/model.py:206 | the model's argsort is a permutation, ascending in magnitude |
| Threshold.ArgSort | snscov/model.py:206 | definition: the argsort of one row by magnitude, built by insertion (ArgSortCorrect states that it is a permutation, ascending in magnitude) |
| Threshold.ZeroCount | snscov/model.py:207-209 | a negative s_k fails in `np.repeat`; 0 <= s_k <= D zeroes s_k positions; larger s_k only broadcasts for one-column rows, and then zeroes that one column |
| Threshold.ZeroCountForSparsity | snscov/model.py:207-210 | 0 <= k_sparse <= D zeroes D - k_sparse positions (none for k_sparse == D); k_sparse > D fails |
| Threshold.HardThreshold | snscov/model.py:210 | the row keeps its length |
| Threshold.ThresholdAlongOrder | snscov/model.py:208-210 | the first z positions of the order become 0, the rest keep their value |
| Threshold.ThresholdKept | snscov/model.py:208-210 | a position is zeroed exactly when it is among the first z of the order |
| Threshold.ThresholdSparsity | snscov/model.py:206-210 | at most D - z nonzero entries remain |
| Threshold.ThresholdDropsSmallest | snscov/model.py:206-210 | a zeroed position's magnitude is at most every kept position's, and kept entries keep their values |
| Threshold.ThresholdNothing | snscov/model.py:207-210 | zeroing no positions leaves the row unchanged |
| DictionaryStep.CrossTerms | snscov/model.py:194-197 | the inner sum over j has D terms |
| DictionaryStep.TimeTerms | snscov/model.py:197 | one term per time point |
| DictionaryStep.DictionaryGradient | snscov/model.py:197-198 | delta_D transposed has shape (K, D) |
| DictionaryStep.Sparsify | snscov/model.py:206-210 | shape kept |
| DictionaryStep.DescentStep | snscov/model.py:203-205 | shape (K, D) |
| DictionaryStep.SteppedDictionary | snscov/model.py:202-210 | shape (K, D) on success; fails only in "sparse" mode when the zero count fails |
| DictionaryStep.Norm | snscov/model.py:214 | definition: `nrm[k]`, the square root of the row's sum of squares |
| DictionaryStep.FirstZeroNorm | snscov/model.py:214-218 | none exactly when no row norm from `from` on is zero; otherwise the first zero-norm row |
| DictionaryStep.Normalize | snscov/model.py:214-218 | definition: every row divided by its norm |
| DictionaryStep.NormalizeRows | snscov/model.py:214-218 | shape kept on success; otherwise the reported row's norm is zero |
| DictionaryStep.DictionaryUpdate | snscov/model.py:170-220 | shape (K, D) on success; a dimension error exactly when `check_dimension` fails |
| DictionaryStep.UnitRow | snscov/model.py:218 | a row divided by its nonzero norm has sum of squares 1 |
| DictionaryStep.DivisionKeepsSupport | snscov/model.py:218 | dividing by a nonzero norm keeps the nonzero positions |
| DictionaryStep.UpdateUnitRows | snscov/model.py:214-218 | every row of a successful update has sum of squares 1 |
| DictionaryStep.SparsifyRows | snscov/model.py:206-210 | every sparsified row has at most D - z nonzero entries |
| DictionaryStep.NormalizeKeepsSupport | snscov/model.py:214-218 | normalising keeps each row's nonzero positions and so any bound on their number |
| DictionaryStep.NormalizeRowsSuccess | snscov/model.py:214-218 | a successful normalisation had no zero norm and is the row-by-row division |
| DictionaryStep.SparseStepped | snscov/model.py:204-210 | in "sparse" mode with k_sparse <= D the stepped dictionary is the thresholded descent step |
| DictionaryStep.SparseUpdate | snscov/model.py:204-218 | in "sparse" mode the update is the normalised thresholded descent step |
| DictionaryStep.SparseNormalizedRows | snscov/model.py:206-218 | for any K x D descent step, thresholding to k_sparse entries then normalising leaves at most k_sparse nonzero entries per row, so (by SparseUpdate) every row of a successful "sparse" update has at most k_sparse nonzeros |
| DictionaryStep.ZeroLeading | snscov/model.py:210 | the in-place zeroing of one row computes `HardThreshold` |
| DictionaryStep.ZeroSmallest | snscov/model.py:206-210 | the row-by-row zeroing computes `Sparsify` |
| DictionaryStep.NormalizeInPlace | snscov/model.py:214-218 | the `for k` loop computes `NormalizeRows`, stopping at the first zero norm |
| DictionaryStep.UpdateDictionary | snscov/model.py:170-220 | the method computes the specification `DictionaryUpdate` |
| FitLoop.Steps | snscov/model.py:297-306 | the model's own routines keep the shapes the loop relies on |
| FitLoop.Start | snscov/model.py:285-295 | the state before the loop holds one residual, and one score in evaluation mode |
| FitLoop.Record | snscov/model.py:306-332 | each iteration's bookkeeping appends one residual, and one score in evaluation mode |
| FitLoop.Iteration | snscov/model.py:297-332 | a completed iteration extends the histories by one entry |
| FitLoop.Loop | snscov/model.py:295-332 | definition: the `for ii` loop from iteration ii, ending on an exception, a break (converged) or the last iteration (exhausted); `SnscovModel.Fit` is proved to end in its state, and HistoryLength, ResidualStopRule, ResidualBest and AlignmentBest state its properties |
| FitLoop.LoopStep | snscov/model.py:297-332 | an exception ends the loop at the current state, a break finishes it as converged, otherwise it goes on |
| FitLoop.IterationCount | snscov/model.py:339 | definition: `n_iter_`, the index of the last iteration plus 2 (HistoryLength ties it to the history lengths) |
| FitLoop.HistoryLength | snscov/model.py:285-339 | a finished fit has len(error_) == n_iter_, and as many alignment scores in evaluation mode |
| FitLoop.NoIterations | snscov/model.py:297-339 | max_iter <= 0 gives n_iter_ == 1 and a single residual |
| FitLoop.ExhaustedCount | snscov/model.py:297-339 | a fit that runs out of iterations has n_iter_ == max_iter + 1 |
| FitLoop.HistoryExtends | snscov/model.py:307-310 | the histories only grow |
| FitLoop.FirstIterationContinues | snscov/model.py:321-329 | without ground truth the loop never stops at ii = 0 |
| FitLoop.ResidualIteration | snscov/model.py:306-332 | one iteration without ground truth appends the new residual and breaks exactly when ii > 0 and the delta is below tol; a break keeps the previous best pair and stored pair, otherwise both become the new pair |
| FitLoop.DeltasKept | snscov/model.py:322 | extending the history keeps its earlier deltas |
| FitLoop.ResidualStopRule | snscov/model.py:319-323 | without ground truth the fit converges exactly at the first ii > 0 whose residual delta is below tol |
| FitLoop.StartTracked | snscov/model.py:285-295 | the state before the loop meets the best-pair invariant |
| FitLoop.TrailLength | snscov/model.py:295-332 | a finished loop from iteration ii passed through last + 1 - ii pairs, holds last + 2 residuals, and its final pair is the last one passed through |
| FitLoop.TrailResidual | snscov/model.py:304-305 | the residual recorded after iteration ii + k is the residual of the k-th pair passed through |
| FitLoop.TrailScore | snscov/model.py:307-308 | in evaluation mode the score recorded after iteration ii + k is the score of the k-th pair passed through |
| FitLoop.BestOnStop | snscov/model.py:319-332 | the best pair and the stored pair agree and have the residual of the stopping iteration (on a residual stop) or of the final pair; on a residual stop at iteration last they are the pair at the top of that iteration (the entry pair when last == ii, else the pair left by iteration last - 1); when iterations run out they are the final pair |
| FitLoop.ResidualBest | snscov/model.py:283-332 | from the start of `fit` without ground truth: a residual stop happens at some last > 0 and the best pair is the one left by iteration last - 1; on exhaustion it is the one left by the last iteration |
| FitLoop.FirstLowest | snscov/model.py:309-313 | the index of the best score lies among the scores recorded after the start |
| FitLoop.FirstLowestIsLowest | snscov/model.py:309-313 | FirstLowest is the unique index j >= 1 whose score is at most every later-recorded score and strictly below every score recorded before it |
| FitLoop.FirstLowestAppend | snscov/model.py:309-313 | appending a score moves the first lowest to it exactly when it is strictly below the current lowest |
| FitLoop.FirstLowestExtended | snscov/model.py:309-313 | a first lowest inside a prefix of the scores is the prefix's own first lowest |
| FitLoop.AlignmentIteration | snscov/model.py:307-318 | an evaluated iteration appends the new pair's score and breaks exactly when that score rose above the previous one by more than tol |
| FitLoop.ScoredStep | snscov/model.py:309-318 | an evaluated iteration appends the score, keeps the best score equal to the first lowest of the recorded scores and to the best pair's score, breaks exactly when the score rose by more than tol, and replaces the best pair by the new pair exactly when the new score is the new first lowest |
| FitLoop.RisesKept | snscov/model.py:317 | extending the score history keeps its earlier rises |
| FitLoop.LowestKept | snscov/model.py:309-313 | after at least one evaluated iteration the best score is the first lowest recorded score, is at most every recorded score, and is the best pair's score |
| FitLoop.RiseStopRule | snscov/model.py:316-318 | with ground truth the fit converges exactly at the first score rise above tol, with last + 2 scores recorded |
| FitLoop.AlignmentStopRule | snscov/model.py:309-318 | with ground truth the fit converges exactly at the first score rise above tol; the best score is one of the recorded scores (the first lowest), at most all of them, and the best pair's score |
| FitLoop.BestIterate | snscov/model.py:309-313 | in evaluation mode the final best pair is the pair held on entry when the first lowest score was recorded by iteration ii - 1 or before, and otherwise the pair passed through at the iteration that recorded it |
| FitLoop.AlignmentBest | snscov/model.py:283-318 | from the start of `fit` with ground truth: the best score is the first lowest recorded score, and the best pair is the pair of the iteration that first reached it, whose score it is |
| Model.SnscovModel.constructor | snscov/model.py:63-89 | the configuration is stored and no pair is stored yet |
| Model.SnscovModel.ComputeSampleCovariance | snscov/model.py:91-102 | `sample_c` becomes the sample covariance of X |
| Model.SnscovModel.ComputeResidual | snscov/model.py:104-112 | the residual against `sample_c` is non-negative and zero exactly when every C[t] is reproduced |
| Model.SnscovModel.Bookkeep | snscov/model.py:306-332 | the fields change as `Record` prescribes, and the method reports whether it broke |
| Model.SnscovModel.Iterate | snscov/model.py:297-332 | one pass of the loop does what `Iteration` prescribes; an exception leaves the fields as they were |
| Model.SnscovModel.Iterations | snscov/model.py:297-334 | the loop ends in the state `Loop` prescribes, or with its exception |
| Model.SnscovModel.Advance | snscov/model.py:297-332 | one iteration either leaves a pair from which the loop reaches the same outcome, or ends the loop the way that outcome says |
| Model.SnscovModel.Prepare | snscov/model.py:249-292 | a warm start when both `self.dict` and `self.alphas` are set; the histories and best state are reset and `sample_c` is computed |
| Model.SnscovModel.RecordStart | snscov/model.py:293-295 | the starting pair's score and residual open the histories |
| Model.SnscovModel.Launch | snscov/model.py:293-340 | from the chosen pair with reset histories, the fields end as `Loop` prescribes from `Start`, with `n_iter_` = ii + 2 after a normal end and the old `n_iter_` after an exception |
| Model.SnscovModel.Conclude | snscov/model.py:297-340 | from the state before the loop, the fields end as `Loop` prescribes; `n_iter_` is set only when no update step raised |
| Model.SnscovModel.Fit | snscov/model.py:225-340 | the fields end as `Loop` prescribes from the starting pair, with `n_iter_` = ii + 2; on an exception the partial state and the old `n_iter_` are kept |
| Model.StepsUpdate | snscov/model.py:301-304 | the loop's update routines are `update_alphas` and `update_dictionary` |
| Model.StepsCost | snscov/model.py:306-310 | the loop's residual and score routines are `compute_residual` and `dual_permutation` |

## Left out

- Floating point: the model works over exact reals. NaN, infinities, rounding and numpy's warnings are not modelled.
- The square root of the row norms (line 214) is the routine `Oracles.sqrt`. It is assumed exact on non-negative arguments where a property needs it.
- The infeasible branch of `project_to_kernel` (lines 16-20 and 24-42) is the routine `Oracles.secular`: eigendecomposition, polynomial roots and complex maximum. Only its feasibility test (lines 21-22) is modelled.
- Two defects of that branch are not modelled: `np.int` (line 25) is gone from current numpy, and `y` is unbound when there are no roots (line 42).
- Kernel.ProjectToKernel: states only that the answer is the input or the routine's answer; what the routine computes is not modelled.
- AlphasStep.TemporalStep: when the guard of the repair `while` loop (lines 153-159) holds, the model ends the fit with `RepairLoopEntered` and keeps the partial state. The source then runs the loop, which may loop forever (it certainly does for amp < 0); the model does not run the loop body.
- AlphasStep.TemporalStep: the kernel-shape error stands for whatever `project_to_kernel` raises on a missing kernel (the default `kernel = None`, whose `.shape` fails at line 16) or on a kernel that is not T x T; which exception numpy raises is not modelled.
- AlphasStep.AlphasUpdate: requires dictionaries with K rows, alphas with K columns and a (T, D, D) covariance after `check_dimension` passes; numpy's broadcasting or errors for other shapes are not modelled. The same holds for DictionaryStep.DictionaryUpdate.
- DictionaryStep.NormalizeRows: a zero row norm is reported as `ZeroNormRow` and ends the fit; the source divides by zero, goes on with a row of NaN, and normalises the other rows.
- DictionaryStep.UpdateUnitRows: unit rows are promised only for a successful update, that is when every row norm is nonzero; for the source's NaN rows nothing is stated.
- DictionaryStep.Sparsify: ties in magnitude are broken by position, as a stable argsort would; `np.argsort`'s default sort promises no order among equal magnitudes, so on ties the source may zero other positions.
- Initialisation (lines 252-280) is not modelled. The spectral decomposition, the seeded random draw and the K > D padding branch (which reads variables before assigning them) are replaced by a starting pair passed to `Fit`.
- `dual_permutation` (lines 294 and 310) lives in another module of the repository. It is the routine `Oracles.dualPermutation`, applied to the transpose of `true_a`.
- The `tqdm` progress bar, the `verbose` and repair-loop `print` calls, and the `ini_method` and `verbose` fields are left out: they do not affect the fitted state.
- The `tol` argument of `fit` is accepted and never read, as in the source; the loop compares against `self.tol`.
- Model.SnscovModel.Fit: requires X of shape (N, T, D) with N > 0 and a starting pair of shapes (K, D) and (T, K). What numpy does with other shapes (broadcasting, or errors in `einsum`) is not modelled.
- Model.SnscovModel.ComputeResidual: requires shapes that fit `sample_c`; numpy's broadcasting of other shapes is not modelled.
- Unrecognised mode strings are not modelled: `a_method` and `d_method` are datatypes with the two values the source handles.
