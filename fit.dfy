/** The alternating loop of `fit`, as a specification: one function for an
    iteration of the `for ii` loop, one for the loop run to its end, and the
    properties of the history, the stopping rule and the best-state
    bookkeeping that follow from them. */
module FitLoop {
  import opened LinAlg
  import opened Validation
  import opened Settings
  import opened Residual
  import opened AlphasStep
  import opened DictionaryStep

  /** `best_dual_ortho`, which starts at `np.inf`. */
  datatype Score = Infinity | Finite(value: real)

  /** `score < best` for a best score that may still be infinite. */
  predicate Below(score: real, best: Score) {
    best.Infinity? || score < best.value
  }

  /** The number of columns of a rectangular matrix. */
  function Width(m: Matrix): nat {
    if m == [] then 0 else |m[0]|
  }

  /** What the loop of one `fit` call reads besides its own variables: the
      configuration, whether it evaluates against ground truth, and four
      routines on a (dictionary, alphas) pair: `compute_residual`, the
      alignment score, `update_alphas` and `update_dictionary`. The loop is
      stated for any such routines whose steps keep the shapes; `Steps`
      below supplies the model's own. */
  datatype Run = Run(
    cfg: Config,
    evaluate: bool,
    residual: (Matrix, Matrix) -> real,
    score: (Matrix, Matrix) -> real,
    updateAlphas: (Matrix, Matrix) -> Result<Matrix>,
    updateDictionary: (Matrix, Matrix) -> Result<Matrix>)
  {
    ghost predicate Valid() {
      cfg.Valid() &&
      (forall d, a :: IsMatrix(d, cfg.K, cfg.D) && IsMatrix(a, cfg.T, cfg.K) && updateAlphas(d, a).Success? ==>
        IsMatrix(updateAlphas(d, a).value, cfg.T, cfg.K)) &&
      (forall d, a :: IsMatrix(d, cfg.K, cfg.D) && IsMatrix(a, cfg.T, cfg.K) && updateDictionary(d, a).Success? ==>
        IsMatrix(updateDictionary(d, a).value, cfg.K, cfg.D))
    }
  }

  /** `compute_residual` of the model, on arguments whose shapes fit. */
  function ResidualOf(c: Tensor, d: nat): (Matrix, Matrix) -> real
  {
    (dictionary, alphas) => if Fits(dictionary, alphas, c, d) then Residual.Residual(dictionary, alphas, c, d) else 0.0
  }

  /** `dual_permutation(true_a.T, true_d, alphas, dictionary)`, for a
      rectangular `true_a`. */
  function ScoreOf(trueAlphas: Matrix, trueDictionary: Matrix, oracles: Oracles): (Matrix, Matrix) -> real
  {
    (dictionary, alphas) =>
      if IsMatrix(trueAlphas, |trueAlphas|, Width(trueAlphas))
      then oracles.dualPermutation(Transpose(trueAlphas, |trueAlphas|, Width(trueAlphas)), trueDictionary, alphas, dictionary)
      else 0.0
  }

  /** `update_alphas` and `update_dictionary` of the model, on arguments
      whose shapes fit. */
  ghost function AlphasStepOf(cfg: Config, c: Tensor, x: Shape3, oracles: Oracles): (Matrix, Matrix) -> Result<Matrix>
  {
    (d, a) =>
      if StepArguments(cfg, c, x, d, a) && (cfg.aMethod.TemporalKernel? ==> oracles.Valid())
      then AlphasUpdate(cfg, c, x, d, a, oracles)
      else Failure(Dimension(TimepointMismatch(ShapeOf(a), x)))
  }

  ghost function DictionaryStepOf(cfg: Config, c: Tensor, x: Shape3, oracles: Oracles): (Matrix, Matrix) -> Result<Matrix>
  {
    (d, a) =>
      if StepArguments(cfg, c, x, d, a) then DictionaryUpdate(cfg, c, x, d, a, oracles)
      else Failure(Dimension(FeatureMismatch(ShapeOf(d), x)))
  }

  /** The run of `fit` on the sample covariance `c` of an X of shape `x`,
      with the model's own routines. */
  ghost function Steps(cfg: Config, c: Tensor, x: Shape3, evaluate: bool, trueAlphas: Matrix, trueDictionary: Matrix,
                       oracles: Oracles): (run: Run)
    ensures cfg.Valid() ==> run.Valid()
  {
    Run(cfg, evaluate, ResidualOf(c, cfg.D), ScoreOf(trueAlphas, trueDictionary, oracles),
      AlphasStepOf(cfg, c, x, oracles), DictionaryStepOf(cfg, c, x, oracles))
  }

  /** The alignment score of a pair. */
  function AlignmentScore(run: Run, alphas: Matrix, dictionary: Matrix): real {
    run.score(dictionary, alphas)
  }

  /** The loop's variables: the local pair, the two histories `error_` and
      `dual_ortho`, the best-state fields and the fields `self.alphas` and
      `self.dict`. */
  datatype State = State(
    alphas: Matrix,
    dictionary: Matrix,
    errors: seq<real>,
    duals: seq<real>,
    bestDual: Score,
    bestAlphas: Matrix,
    bestDictionary: Matrix,
    savedAlphas: Option<Matrix>,
    savedDictionary: Option<Matrix>)

  /** The shapes of the pair, and the histories' lengths at the top of
      iteration `ii`: one residual per iterate so far. */
  predicate Shaped(run: Run, s: State, ii: nat) {
    IsMatrix(s.dictionary, run.cfg.K, run.cfg.D) && IsMatrix(s.alphas, run.cfg.T, run.cfg.K) &&
    |s.errors| == ii + 1 && |s.duals| == (if run.evaluate then ii + 1 else 0)
  }

  /** The residual of a pair, `compute_residual(X, dictionary, alphas)`. */
  function Cost(run: Run, dictionary: Matrix, alphas: Matrix): real {
    run.residual(dictionary, alphas)
  }

  /** The state just before the loop: the starting pair, one residual in
      `error_`, one alignment score in evaluation mode, `best_dual_ortho`
      at infinity and empty best pair; `self.alphas` and `self.dict` keep the
      values they had when `fit` was called. */
  function Start(run: Run, alphas: Matrix, dictionary: Matrix,
                 savedAlphas: Option<Matrix>, savedDictionary: Option<Matrix>): (s: State)
    requires run.Valid() && IsMatrix(dictionary, run.cfg.K, run.cfg.D) && IsMatrix(alphas, run.cfg.T, run.cfg.K)
    ensures Shaped(run, s, 0)
  {
    State(alphas, dictionary,
      [Cost(run, dictionary, alphas)],
      if run.evaluate then [AlignmentScore(run, alphas, dictionary)] else [],
      Infinity, [], [], savedAlphas, savedDictionary)
  }

  /** How one iteration ends: on to the next, `break`, or an exception from
      one of the two update steps. */
  datatype Step = Continue(next: State) | Break(last: State) | Raise(error: FitError)

  /** Lines 306-332, once both update steps have returned the new pair:
      record its residual (and, in evaluation mode, its score), keep the best
      state, and either break or store the pair in `self.alphas`,
      `self.dict`. */
  function Record(run: Run, s: State, ii: nat, alphas: Matrix, dictionary: Matrix): (r: Step)
    requires Shaped(run, s, ii) && IsMatrix(dictionary, run.cfg.K, run.cfg.D) && IsMatrix(alphas, run.cfg.T, run.cfg.K)
    ensures r.Continue? ==> Shaped(run, r.next, ii + 1)
    ensures r.Break? ==> Shaped(run, r.last, ii + 1)
  {
    var errors := s.errors + [Cost(run, dictionary, alphas)];
    var moved := s.(alphas := alphas, dictionary := dictionary, errors := errors);
    if run.evaluate then
      var duals := s.duals + [AlignmentScore(run, alphas, dictionary)];
      var improved := Below(duals[ii + 1], s.bestDual);
      var scored := moved.(duals := duals,
        bestDual := if improved then Finite(duals[ii + 1]) else s.bestDual,
        bestAlphas := if improved then alphas else s.bestAlphas,
        bestDictionary := if improved then dictionary else s.bestDictionary);
      if duals[ii + 1] - duals[ii] > run.cfg.tol then Break(scored)
      else Continue(scored.(savedAlphas := Some(alphas), savedDictionary := Some(dictionary)))
    else if ii > 0 && Abs(errors[ii + 1] - errors[ii]) < run.cfg.tol then Break(moved)
    else Continue(moved.(bestAlphas := alphas, bestDictionary := dictionary,
      savedAlphas := Some(alphas), savedDictionary := Some(dictionary)))
  }

  /** Iteration `ii` of the `for` loop (lines 297-332): `update_alphas` with
      the previous dictionary, `update_dictionary` with the new alphas, then
      the bookkeeping; an exception from either step ends the loop. */
  function Iteration(run: Run, s: State, ii: nat): (r: Step)
    requires run.Valid() && Shaped(run, s, ii)
    ensures r.Continue? ==> Shaped(run, r.next, ii + 1)
    ensures r.Break? ==> Shaped(run, r.last, ii + 1)
  {
    match run.updateAlphas(s.dictionary, s.alphas)
    case Failure(e) => Raise(e)
    case Success(alphas) =>
      match run.updateDictionary(s.dictionary, alphas)
      case Failure(e) => Raise(e)
      case Success(dictionary) => Record(run, s, ii, alphas, dictionary)
  }

  /** How the loop ends. `last` is the value of `ii` after the loop (-1 when
      it never ran), so `n_iter_` is `last + 2`. */
  datatype Ending = Exhausted | Converged
  datatype Finish =
    | Finished(state: State, last: int, ending: Ending)
    | Raised(at: State, error: FitError)

  /** The loop from iteration `ii` on. */
  function Loop(run: Run, s: State, ii: nat): Finish
    requires run.Valid() && Shaped(run, s, ii)
    decreases run.cfg.maxIter - ii
  {
    if run.cfg.maxIter <= ii then Finished(s, ii - 1, Exhausted)
    else match Iteration(run, s, ii)
      case Raise(e) => Raised(s, e)
      case Break(last) => Finished(last, ii, Converged)
      case Continue(next) => Loop(run, next, ii + 1)
  }

  /** One more iteration of a loop that has not run out of iterations. */
  lemma LoopStep(run: Run, s: State, ii: nat)
    requires run.Valid() && Shaped(run, s, ii) && ii < run.cfg.maxIter
    ensures match Iteration(run, s, ii)
      case Raise(e) => Loop(run, s, ii) == Raised(s, e)
      case Break(last) => Loop(run, s, ii) == Finished(last, ii, Converged)
      case Continue(next) => Loop(run, s, ii) == Loop(run, next, ii + 1)
  {
  }

  /** The pairs `(alphas, dictionary)` that the iterations from `ii` on
      compute, one per iteration whose two update steps return. */
  function Trail(run: Run, s: State, ii: nat): seq<(Matrix, Matrix)>
    requires run.Valid() && Shaped(run, s, ii)
    decreases run.cfg.maxIter - ii
  {
    if run.cfg.maxIter <= ii then []
    else match Iteration(run, s, ii)
      case Raise(_) => []
      case Break(last) => [(last.alphas, last.dictionary)]
      case Continue(next) => [(next.alphas, next.dictionary)] + Trail(run, next, ii + 1)
  }

  /** An iteration that continues leaves the rest of the loop, and of its
      trail, to the next iteration. */
  lemma Continues(run: Run, s: State, ii: nat)
    requires run.Valid() && Shaped(run, s, ii) && ii < run.cfg.maxIter && Iteration(run, s, ii).Continue?
    ensures var t := Iteration(run, s, ii).next;
      Loop(run, s, ii) == Loop(run, t, ii + 1) &&
      Trail(run, s, ii) == [(t.alphas, t.dictionary)] + Trail(run, t, ii + 1)
  {
  }

  /** `n_iter_ = ii + 1 + 1`. */
  function IterationCount(f: Finish): int
    requires f.Finished?
  {
    f.last + 2
  }

  // ---------------------------------------------------------------------
  // History length

  /** A finished loop holds one residual per iterate, `n_iter_` in all, and
      in evaluation mode as many alignment scores; a break happens no earlier
      than iteration `ii`. */
  lemma {:induction false} HistoryLength(run: Run, s: State, ii: nat)
    requires run.Valid() && Shaped(run, s, ii)
    ensures var f := Loop(run, s, ii);
      f.Finished? ==> (f.last >= ii - 1 && (f.ending == Converged ==> f.last >= ii) &&
        |f.state.errors| == IterationCount(f) &&
        |f.state.duals| == (if run.evaluate then IterationCount(f) else 0))
    decreases run.cfg.maxIter - ii
  {
    if ii < run.cfg.maxIter && Iteration(run, s, ii).Continue? {
      HistoryLength(run, Iteration(run, s, ii).next, ii + 1);
    }
  }

  /** With `max_iter <= 0` the loop never runs: `n_iter_` is 1 and the only
      residual is that of the starting pair. */
  lemma NoIterations(run: Run, s: State)
    requires run.Valid() && Shaped(run, s, 0) && run.cfg.maxIter <= 0
    ensures Loop(run, s, 0) == Finished(s, -1, Exhausted)
    ensures IterationCount(Loop(run, s, 0)) == 1 && |Loop(run, s, 0).state.errors| == 1
  {
  }

  /** Without a failure or an early stop, the loop runs `max_iter` times and
      `n_iter_` is `max_iter + 1`. */
  lemma {:induction false} ExhaustedCount(run: Run, s: State, ii: nat)
    requires run.Valid() && Shaped(run, s, ii) && ii <= run.cfg.maxIter
    requires Loop(run, s, ii).Finished? && Loop(run, s, ii).ending == Exhausted
    ensures IterationCount(Loop(run, s, ii)) == run.cfg.maxIter + 1
    decreases run.cfg.maxIter - ii
  {
    if ii < run.cfg.maxIter {
      var step := Iteration(run, s, ii);
      assert step.Continue?;
      ExhaustedCount(run, step.next, ii + 1);
    }
  }

  // ---------------------------------------------------------------------
  // The residual stopping rule (no ground truth)

  /** The histories only grow: every iteration appends to them. */
  lemma {:induction false} HistoryExtends(run: Run, s: State, ii: nat)
    requires run.Valid() && Shaped(run, s, ii)
    ensures var f := Loop(run, s, ii);
      f.Finished? ==> s.errors <= f.state.errors && s.duals <= f.state.duals
    decreases run.cfg.maxIter - ii
  {
    if ii < run.cfg.maxIter && Iteration(run, s, ii).Continue? {
      HistoryExtends(run, Iteration(run, s, ii).next, ii + 1);
    }
  }

  /** A finished loop computed one pair per iteration it ran, and the last
      of them is the final pair. */
  lemma {:induction false} TrailLength(run: Run, s: State, ii: nat)
    requires run.Valid() && Shaped(run, s, ii)
    ensures var f := Loop(run, s, ii); var tr := Trail(run, s, ii);
      f.Finished? ==> (|tr| == f.last + 1 - ii && |f.state.errors| == f.last + 2 &&
        (0 < |tr| ==> tr[|tr| - 1] == (f.state.alphas, f.state.dictionary)))
    decreases run.cfg.maxIter - ii
  {
    HistoryLength(run, s, ii);
    if ii < run.cfg.maxIter && Iteration(run, s, ii).Continue? {
      var t := Iteration(run, s, ii).next;
      TrailLength(run, t, ii + 1);
      assert Loop(run, s, ii) == Loop(run, t, ii + 1);
      assert Trail(run, s, ii) == [(t.alphas, t.dictionary)] + Trail(run, t, ii + 1);
    }
  }

  /** `error_` holds the residuals of those pairs in order after the one
      at the top of iteration `ii`: entry `k` of the trail has residual
      `error_[ii + 1 + k]`. */
  lemma {:induction false} TrailResidual(run: Run, s: State, ii: nat, k: nat)
    requires run.Valid() && Shaped(run, s, ii)
    ensures var f := Loop(run, s, ii); var tr := Trail(run, s, ii);
      f.Finished? && k < |tr| ==> ii + 1 + k < |f.state.errors| && f.state.errors[ii + 1 + k] == Cost(run, tr[k].1, tr[k].0)
    decreases run.cfg.maxIter - ii, 1
  {
    if ii < run.cfg.maxIter {
      var step := Iteration(run, s, ii);
      if step.Continue? {
        TrailResidualNext(run, s, ii, k);
      } else if step.Break? {
        assert Loop(run, s, ii) == Finished(step.last, ii, Converged);
        assert Trail(run, s, ii) == [(step.last.alphas, step.last.dictionary)];
      } else {
        assert Trail(run, s, ii) == [];
      }
    }
  }

  /** `TrailResidual` over an iteration that continues. */
  lemma {:induction false} TrailResidualNext(run: Run, s: State, ii: nat, k: nat)
    requires run.Valid() && Shaped(run, s, ii) && ii < run.cfg.maxIter && Iteration(run, s, ii).Continue?
    ensures var f := Loop(run, s, ii); var tr := Trail(run, s, ii);
      f.Finished? && k < |tr| ==> ii + 1 + k < |f.state.errors| && f.state.errors[ii + 1 + k] == Cost(run, tr[k].1, tr[k].0)
    decreases run.cfg.maxIter - ii, 0
  {
    var t := Iteration(run, s, ii).next;
    Continues(run, s, ii);
    if k == 0 {
      HistoryExtends(run, t, ii + 1);
      HistoryLength(run, t, ii + 1);
    } else {
      TrailResidual(run, t, ii + 1, k - 1);
    }
  }

  /** In evaluation mode `dual_ortho` holds the scores of those pairs in
      the same way. */
  lemma {:induction false} TrailScore(run: Run, s: State, ii: nat, k: nat)
    requires run.Valid() && Shaped(run, s, ii) && run.evaluate
    ensures var f := Loop(run, s, ii); var tr := Trail(run, s, ii);
      f.Finished? && k < |tr| ==>
        ii + 1 + k < |f.state.duals| && f.state.duals[ii + 1 + k] == AlignmentScore(run, tr[k].0, tr[k].1)
    decreases run.cfg.maxIter - ii, 1
  {
    if ii < run.cfg.maxIter {
      var step := Iteration(run, s, ii);
      if step.Continue? {
        TrailScoreNext(run, s, ii, k);
      } else if step.Break? {
        assert Loop(run, s, ii) == Finished(step.last, ii, Converged);
        assert Trail(run, s, ii) == [(step.last.alphas, step.last.dictionary)];
      } else {
        assert Trail(run, s, ii) == [];
      }
    }
  }

  /** `TrailScore` over an iteration that continues. */
  lemma {:induction false} TrailScoreNext(run: Run, s: State, ii: nat, k: nat)
    requires run.Valid() && Shaped(run, s, ii) && run.evaluate && ii < run.cfg.maxIter && Iteration(run, s, ii).Continue?
    ensures var f := Loop(run, s, ii); var tr := Trail(run, s, ii);
      f.Finished? && k < |tr| ==>
        ii + 1 + k < |f.state.duals| && f.state.duals[ii + 1 + k] == AlignmentScore(run, tr[k].0, tr[k].1)
    decreases run.cfg.maxIter - ii, 0
  {
    var t := Iteration(run, s, ii).next;
    Continues(run, s, ii);
    if k == 0 {
      HistoryExtends(run, t, ii + 1);
      HistoryLength(run, t, ii + 1);
    } else {
      TrailScore(run, t, ii + 1, k - 1);
    }
  }

  /** Without ground truth the first iteration never stops the loop. */
  lemma FirstIterationContinues(run: Run, s: State)
    requires run.Valid() && Shaped(run, s, 0) && !run.evaluate
    ensures !Iteration(run, s, 0).Break?
  {
  }

  /** Residual deltas are compared with `self.tol` from iteration 1 on. */
  predicate SmallDelta(errors: seq<real>, i: nat, tol: real)
    requires i + 1 < |errors|
  {
    Abs(errors[i + 1] - errors[i]) < tol
  }

  /** What one iteration without ground truth does: it appends the new
      pair's residual, breaks exactly when `ii > 0` and the residual delta is
      below `self.tol`, and otherwise records the new pair as best and as
      `self.alphas`, `self.dict`; a break leaves those as they were. */
  lemma ResidualIteration(run: Run, s: State, ii: nat)
    requires run.Valid() && Shaped(run, s, ii) && !run.evaluate
    ensures var step := Iteration(run, s, ii);
      !step.Raise? ==> (
        var t := if step.Continue? then step.next else step.last;
        Shaped(run, t, ii + 1) &&
        t.errors == s.errors + [Cost(run, t.dictionary, t.alphas)] &&
        (step.Break? <==> 0 < ii && SmallDelta(t.errors, ii, run.cfg.tol)) &&
        (step.Break? ==> (t.bestAlphas == s.bestAlphas && t.bestDictionary == s.bestDictionary &&
          t.savedAlphas == s.savedAlphas && t.savedDictionary == s.savedDictionary)) &&
        (step.Continue? ==> (t.bestAlphas == t.alphas && t.bestDictionary == t.dictionary &&
          t.savedAlphas == Some(t.alphas) && t.savedDictionary == Some(t.dictionary))))
  {
  }

  /** Extending a history leaves the deltas it already had unchanged. */
  lemma DeltasKept(a: seq<real>, b: seq<real>, tol: real)
    requires a <= b
    ensures forall i: nat :: i + 1 < |a| ==> (SmallDelta(b, i, tol) <==> SmallDelta(a, i, tol))
  {
  }

  /** No delta between positions 1 and `n` of the history is small. */
  predicate NoEarlyStop(errors: seq<real>, n: int, tol: real) {
    forall i: nat :: 0 < i < n && i + 1 < |errors| ==> !SmallDelta(errors, i, tol)
  }

  /** Without ground truth the loop stops at the first `ii > 0` whose
      residual delta is below `self.tol`, and never earlier. */
  lemma {:induction false} ResidualStopRule(run: Run, s: State, ii: nat)
    requires run.Valid() && Shaped(run, s, ii) && !run.evaluate
    requires NoEarlyStop(s.errors, ii, run.cfg.tol)
    ensures var f := Loop(run, s, ii);
      f.Finished? ==> (|f.state.errors| == f.last + 2 && NoEarlyStop(f.state.errors, f.last, run.cfg.tol) &&
        (f.ending == Converged <==> 0 < f.last < run.cfg.maxIter && SmallDelta(f.state.errors, f.last, run.cfg.tol)))
    decreases run.cfg.maxIter - ii
  {
    HistoryLength(run, s, ii);
    if ii < run.cfg.maxIter {
      var step := Iteration(run, s, ii);
      ResidualIteration(run, s, ii);
      if !step.Raise? {
        var t := if step.Continue? then step.next else step.last;
        DeltasKept(s.errors, t.errors, run.cfg.tol);
        if step.Continue? {
          assert Loop(run, s, ii) == Loop(run, t, ii + 1);
          ResidualStopRule(run, t, ii + 1);
        }
      }
    }
  }

  // ---------------------------------------------------------------------
  // Best-state bookkeeping

  /** Without ground truth, from iteration 1 on, the best pair and the fields
      `self.alphas`, `self.dict` all hold the current pair, whose residual is
      the last one recorded. */
  predicate Tracked(run: Run, s: State, ii: nat)
    requires run.Valid() && Shaped(run, s, ii)
  {
    s.errors[ii] == Cost(run, s.dictionary, s.alphas) &&
    (0 < ii ==> (s.bestAlphas == s.alphas && s.bestDictionary == s.dictionary &&
      s.savedAlphas == Some(s.alphas) && s.savedDictionary == Some(s.dictionary)))
  }

  lemma StartTracked(run: Run, alphas: Matrix, dictionary: Matrix, savedAlphas: Option<Matrix>, savedDictionary: Option<Matrix>)
    requires run.Valid() && IsMatrix(dictionary, run.cfg.K, run.cfg.D) && IsMatrix(alphas, run.cfg.T, run.cfg.K)
    ensures Tracked(run, Start(run, alphas, dictionary, savedAlphas, savedDictionary), 0)
  {
  }

  /** The best pair and `self.alphas`, `self.dict` are one pair, the one whose
      residual is `errors[at]`. */
  predicate BestAt(run: Run, t: State, at: nat)
    requires run.Valid()
  {
    at < |t.errors| &&
    t.savedAlphas == Some(t.bestAlphas) && t.savedDictionary == Some(t.bestDictionary) &&
    IsMatrix(t.bestDictionary, run.cfg.K, run.cfg.D) && IsMatrix(t.bestAlphas, run.cfg.T, run.cfg.K) &&
    Cost(run, t.bestDictionary, t.bestAlphas) == t.errors[at]
  }

  /** Without ground truth, when the residual rule stops the loop, the best
      pair and `self.alphas`, `self.dict` are the previous iterate's pair:
      the pair at the top of the iteration that breaks (the starting pair of
      this call when that is iteration `ii`, else the pair computed just
      before), whose residual is `error_[n_iter_ - 2]`, not the pair that
      triggered the stop. When the budget runs out instead, they are the
      last pair computed. */
  lemma {:induction false} BestOnStop(run: Run, s: State, ii: nat)
    requires run.Valid() && Shaped(run, s, ii) && !run.evaluate && Tracked(run, s, ii)
    ensures var f := Loop(run, s, ii);
      f.Finished? && 0 <= f.last ==>
        BestAt(run, f.state, if f.ending == Converged then f.last else f.last + 1) &&
        (f.ending == Exhausted ==>
          f.state.bestAlphas == f.state.alphas && f.state.bestDictionary == f.state.dictionary) &&
        (f.ending == Converged ==>
          PreviousHeld((s.alphas, s.dictionary), ii, f.last, (f.state.bestAlphas, f.state.bestDictionary),
            Trail(run, s, ii)))
    decreases run.cfg.maxIter - ii, 1
  {
    if ii < run.cfg.maxIter {
      var step := Iteration(run, s, ii);
      ResidualIteration(run, s, ii);
      if step.Continue? {
        BestOnStopNext(run, s, ii);
      } else if step.Break? {
        HistoryLength(run, s, ii);
        assert Loop(run, s, ii) == Finished(step.last, ii, Converged);
        assert step.last.errors[ii] == s.errors[ii];
        assert BestAt(run, step.last, ii);
      }
    } else if 0 < ii {
      assert Loop(run, s, ii) == Finished(s, ii - 1, Exhausted);
      assert BestAt(run, s, ii);
    }
  }

  /** `BestOnStop` over an iteration that continues. */
  lemma {:induction false} BestOnStopNext(run: Run, s: State, ii: nat)
    requires run.Valid() && Shaped(run, s, ii) && !run.evaluate && Tracked(run, s, ii)
    requires ii < run.cfg.maxIter && Iteration(run, s, ii).Continue?
    ensures var f := Loop(run, s, ii);
      f.Finished? && 0 <= f.last ==>
        BestAt(run, f.state, if f.ending == Converged then f.last else f.last + 1) &&
        (f.ending == Exhausted ==>
          f.state.bestAlphas == f.state.alphas && f.state.bestDictionary == f.state.dictionary) &&
        (f.ending == Converged ==>
          PreviousHeld((s.alphas, s.dictionary), ii, f.last, (f.state.bestAlphas, f.state.bestDictionary),
            Trail(run, s, ii)))
    decreases run.cfg.maxIter - ii, 0
  {
    var t := Iteration(run, s, ii).next;
    ResidualIteration(run, s, ii);
    assert Tracked(run, t, ii + 1);
    Continues(run, s, ii);
    HistoryLength(run, t, ii + 1);
    BestOnStop(run, t, ii + 1);
    var f := Loop(run, t, ii + 1);
    if f.Finished? && 0 <= f.last && f.ending == Converged {
      PreviousCarried((s.alphas, s.dictionary), (t.alphas, t.dictionary), ii, f.last,
        (f.state.bestAlphas, f.state.bestDictionary), Trail(run, t, ii + 1));
    }
  }

  /** `best` is the pair at the top of iteration `last`: `held` when that
      is iteration `ii`, else the pair computed by iteration `last - 1`,
      entry `last - ii - 1` of `trail`. */
  predicate PreviousHeld<P(==)>(held: P, ii: nat, last: int, best: P, trail: seq<P>) {
    (last == ii ==> best == held) &&
    (ii < last ==> last - ii - 1 < |trail| && best == trail[last - ii - 1])
  }

  lemma PreviousCarried<P>(held: P, next: P, ii: nat, last: int, best: P, trail: seq<P>)
    requires ii < last && PreviousHeld(next, ii + 1, last, best, trail)
    ensures PreviousHeld(held, ii, last, best, [next] + trail)
  {
    if ii + 1 < last {
      assert ([next] + trail)[last - ii - 1] == trail[last - ii - 2];
    }
  }

  /** For the whole fit without ground truth: the best pair (and
      `self.alphas`, `self.dict`) is the pair of iteration `n_iter_ - 3` on a
      residual stop, and of the last iteration `n_iter_ - 2` when the budget
      runs out. */
  lemma ResidualBest(run: Run, alphas: Matrix, dictionary: Matrix, saved: Option<Matrix>, savedDictionary: Option<Matrix>)
    requires run.Valid() && !run.evaluate
    requires IsMatrix(dictionary, run.cfg.K, run.cfg.D) && IsMatrix(alphas, run.cfg.T, run.cfg.K)
    ensures var s := Start(run, alphas, dictionary, saved, savedDictionary);
      var f := Loop(run, s, 0); var tr := Trail(run, s, 0);
      f.Finished? && 0 <= f.last ==>
        (|tr| == f.last + 1 &&
         (f.ending == Converged ==> 0 < f.last && (f.state.bestAlphas, f.state.bestDictionary) == tr[f.last - 1]) &&
         (f.ending == Exhausted ==> (f.state.bestAlphas, f.state.bestDictionary) == tr[f.last]))
  {
    var s := Start(run, alphas, dictionary, saved, savedDictionary);
    StartTracked(run, alphas, dictionary, saved, savedDictionary);
    BestOnStop(run, s, 0);
    TrailLength(run, s, 0);
    ResidualStopRule(run, s, 0);
  }

  // ---------------------------------------------------------------------
  // The alignment stopping rule (ground truth supplied)

  /** The alignment score rose by more than `self.tol` at iteration `i`. */
  predicate Rise(duals: seq<real>, i: nat, tol: real)
    requires i + 1 < |duals|
  {
    duals[i + 1] - duals[i] > tol
  }

  /** No iteration before `n` saw its score rise by more than `self.tol`. */
  predicate NoEarlyRise(duals: seq<real>, n: int, tol: real) {
    forall i: nat :: i < n && i + 1 < |duals| ==> !Rise(duals, i, tol)
  }

  /** The position of the first lowest score after the starting one: the
      iterate that `best_dual_ortho` settles on, since a later score
      replaces it only when strictly lower. `FirstLowestIsLowest` states
      what it is. */
  function FirstLowest(duals: seq<real>): (j: nat)
    requires 2 <= |duals|
    ensures 1 <= j < |duals|
  {
    LowestUpTo(duals, |duals|)
  }

  /** `FirstLowest` of the first `n` scores. */
  function LowestUpTo(duals: seq<real>, n: nat): (j: nat)
    requires 2 <= n <= |duals|
    ensures 1 <= j < n
  {
    if n == 2 then 1
    else
      var j := LowestUpTo(duals, n - 1);
      if duals[n - 1] < duals[j] then n - 1 else j
  }

  /** The first `n` scores after the starting one are no lower than the one
      at position `j`, and those before `j` are strictly higher. */
  predicate FirstLowestAt(duals: seq<real>, n: nat, j: nat)
    requires n <= |duals|
  {
    1 <= j < n &&
    (forall i :: 1 <= i < n ==> duals[j] <= duals[i]) &&
    (forall i :: 1 <= i < j ==> duals[j] < duals[i])
  }

  lemma {:induction false} LowestUpToIsLowest(duals: seq<real>, n: nat)
    requires 2 <= n <= |duals|
    ensures FirstLowestAt(duals, n, LowestUpTo(duals, n))
  {
    if n > 2 {
      LowestUpToIsLowest(duals, n - 1);
    }
  }

  /** `FirstLowest` is the first position of the lowest score after the
      starting one, and no other position is. */
  lemma FirstLowestIsLowest(duals: seq<real>, j: nat)
    requires 2 <= |duals|
    ensures FirstLowestAt(duals, |duals|, FirstLowest(duals))
    ensures FirstLowestAt(duals, |duals|, j) <==> j == FirstLowest(duals)
  {
    LowestUpToIsLowest(duals, |duals|);
  }

  /** One more score moves the first lowest position to it exactly when it
      is strictly below the current lowest. */
  lemma FirstLowestAppend(a: seq<real>, x: real)
    requires 2 <= |a|
    ensures FirstLowest(a + [x]) == if x < a[FirstLowest(a)] then |a| else FirstLowest(a)
  {
    var b := a + [x];
    var ja := FirstLowest(a);
    FirstLowestIsLowest(a, ja);
    var j := if x < a[ja] then |a| else ja;
    assert FirstLowestAt(b, |b|, j) by {
      forall i | 1 <= i < |b| ensures b[j] <= b[i] {
        if i < |a| { assert b[i] == a[i]; }
      }
    }
    FirstLowestIsLowest(b, j);
  }

  /** A first lowest position of a longer history that lies within a
      shorter one is the shorter one's. */
  lemma FirstLowestExtended(a: seq<real>, b: seq<real>)
    requires 2 <= |a| && a <= b
    ensures FirstLowest(b) < |a| ==> FirstLowest(b) == FirstLowest(a)
  {
    var jb := FirstLowest(b);
    FirstLowestIsLowest(b, jb);
    if jb < |a| {
      assert FirstLowestAt(a, |a|, jb) by {
        assert forall i :: 1 <= i < |a| ==> a[i] == b[i];
      }
      FirstLowestIsLowest(a, jb);
    }
  }

  /** `best_dual_ortho` is finite, it is the first lowest score after the
      starting one (so one of the scores, no larger than any other), and it
      is the score of the best pair. */
  predicate Lowest(run: Run, s: State) {
    2 <= |s.duals| && s.bestDual == Finite(s.duals[FirstLowest(s.duals)]) &&
    (forall i :: 1 <= i < |s.duals| ==> s.bestDual.value <= s.duals[i]) &&
    s.bestDual.value == AlignmentScore(run, s.bestAlphas, s.bestDictionary)
  }

  /** In evaluation mode, before any iteration the best state is the empty
      one at infinity; after one, it is the lowest. */
  predicate Scored(run: Run, s: State, ii: nat) {
    if ii == 0 then s.bestDual == Infinity && s.bestAlphas == [] && s.bestDictionary == []
    else Lowest(run, s)
  }

  /** After iteration `ii`, the best pair is the new pair when its score is
      the new first lowest, and is unchanged when the first lowest lies
      before it. */
  predicate BestMoves(s: State, t: State, ii: nat) {
    |t.duals| == ii + 2 &&
    (FirstLowest(t.duals) == ii + 1 ==> (t.bestAlphas, t.bestDictionary) == (t.alphas, t.dictionary)) &&
    (FirstLowest(t.duals) <= ii ==> (t.bestAlphas, t.bestDictionary) == (s.bestAlphas, s.bestDictionary))
  }

  /** One evaluated iteration appends the new pair's score, keeps `Scored`,
      and breaks exactly when the score rose by more than `self.tol`; the
      best pair becomes the new pair exactly when its score is the new first
      lowest. */
  lemma ScoredStep(run: Run, s: State, ii: nat)
    requires run.Valid() && Shaped(run, s, ii) && run.evaluate && Scored(run, s, ii)
    ensures var step := Iteration(run, s, ii);
      !step.Raise? ==> (
        var t := if step.Continue? then step.next else step.last;
        Shaped(run, t, ii + 1) && s.duals <= t.duals && Lowest(run, t) &&
        (step.Break? <==> Rise(t.duals, ii, run.cfg.tol)) && BestMoves(s, t, ii))
  {
    match run.updateAlphas(s.dictionary, s.alphas)
    case Failure(_) =>
    case Success(alphas) =>
      match run.updateDictionary(s.dictionary, alphas)
      case Failure(_) =>
      case Success(dictionary) => ScoredRecord(run, s, ii, alphas, dictionary);
  }

  /** `ScoredStep` for the bookkeeping once the new pair is known. */
  lemma ScoredRecord(run: Run, s: State, ii: nat, alphas: Matrix, dictionary: Matrix)
    requires Shaped(run, s, ii) && run.evaluate && Scored(run, s, ii)
    requires IsMatrix(dictionary, run.cfg.K, run.cfg.D) && IsMatrix(alphas, run.cfg.T, run.cfg.K)
    ensures var step := Record(run, s, ii, alphas, dictionary);
      (step.Continue? || step.Break?) && (
        var t := if step.Continue? then step.next else step.last;
        Shaped(run, t, ii + 1) && s.duals <= t.duals && Lowest(run, t) &&
        (step.Break? <==> Rise(t.duals, ii, run.cfg.tol)) && BestMoves(s, t, ii))
  {
    var score := AlignmentScore(run, alphas, dictionary);
    var duals := s.duals + [score];
    if 0 < ii {
      FirstLowestAppend(s.duals, score);
    }
    assert FirstLowest(duals) == if Below(score, s.bestDual) then ii + 1 else FirstLowest(s.duals);
  }

  /** Extending a score history leaves the rises it already had unchanged. */
  lemma RisesKept(a: seq<real>, b: seq<real>, tol: real)
    requires a <= b
    ensures forall i: nat :: i + 1 < |a| ==> (Rise(b, i, tol) <==> Rise(a, i, tol))
  {
  }

  /** What one evaluated iteration does to the score history: it appends
      the new pair's score and breaks exactly when that score rose by more
      than `self.tol`. */
  lemma AlignmentIteration(run: Run, s: State, ii: nat)
    requires run.Valid() && Shaped(run, s, ii) && run.evaluate
    ensures var step := Iteration(run, s, ii);
      !step.Raise? ==> (
        var t := if step.Continue? then step.next else step.last;
        Shaped(run, t, ii + 1) && t.duals == s.duals + [AlignmentScore(run, t.alphas, t.dictionary)] &&
        (step.Break? <==> Rise(t.duals, ii, run.cfg.tol)))
  {
  }

  /** In evaluation mode, once an iteration has run, `best_dual_ortho` is
      the first lowest score after the starting one and the best pair's. */
  lemma {:induction false} LowestKept(run: Run, s: State, ii: nat)
    requires run.Valid() && Shaped(run, s, ii) && run.evaluate && Scored(run, s, ii)
    ensures var f := Loop(run, s, ii); f.Finished? && 0 <= f.last ==> Lowest(run, f.state)
    decreases run.cfg.maxIter - ii
  {
    if ii < run.cfg.maxIter {
      var step := Iteration(run, s, ii);
      ScoredStep(run, s, ii);
      if step.Continue? {
        assert Loop(run, s, ii) == Loop(run, step.next, ii + 1);
        LowestKept(run, step.next, ii + 1);
      } else if step.Break? {
        assert Loop(run, s, ii) == Finished(step.last, ii, Converged);
      } else {
        assert Loop(run, s, ii) == Raised(s, step.error);
      }
    } else {
      assert Loop(run, s, ii) == Finished(s, ii - 1, Exhausted);
    }
  }

  /** In evaluation mode the loop stops at the first iteration whose score
      rose by more than `self.tol`; once an iteration has run, the best pair
      is one with the lowest score seen after the starting one. */
  lemma {:induction false} AlignmentStopRule(run: Run, s: State, ii: nat)
    requires run.Valid() && Shaped(run, s, ii) && run.evaluate && Scored(run, s, ii)
    requires NoEarlyRise(s.duals, ii, run.cfg.tol)
    ensures var f := Loop(run, s, ii);
      f.Finished? ==> (|f.state.duals| == f.last + 2 && NoEarlyRise(f.state.duals, f.last, run.cfg.tol) &&
        (f.ending == Converged <==> 0 <= f.last < run.cfg.maxIter && Rise(f.state.duals, f.last, run.cfg.tol)) &&
        (0 <= f.last ==> Lowest(run, f.state)))
    decreases run.cfg.maxIter - ii
  {
    LowestKept(run, s, ii);
    RiseStopRule(run, s, ii);
  }

  /** The stopping half of `AlignmentStopRule`, which does not depend on the
      best state. */
  lemma {:induction false} RiseStopRule(run: Run, s: State, ii: nat)
    requires run.Valid() && Shaped(run, s, ii) && run.evaluate
    requires NoEarlyRise(s.duals, ii, run.cfg.tol)
    ensures var f := Loop(run, s, ii);
      f.Finished? ==> (|f.state.duals| == f.last + 2 && NoEarlyRise(f.state.duals, f.last, run.cfg.tol) &&
        (f.ending == Converged <==> 0 <= f.last < run.cfg.maxIter && Rise(f.state.duals, f.last, run.cfg.tol)))
    decreases run.cfg.maxIter - ii
  {
    HistoryLength(run, s, ii);
    if ii < run.cfg.maxIter {
      var step := Iteration(run, s, ii);
      AlignmentIteration(run, s, ii);
      if !step.Raise? {
        var t := if step.Continue? then step.next else step.last;
        RisesKept(s.duals, t.duals, run.cfg.tol);
        if step.Continue? {
          assert Loop(run, s, ii) == Loop(run, t, ii + 1);
          RiseStopRule(run, t, ii + 1);
        } else {
          assert Loop(run, s, ii) == Finished(t, ii, Converged);
        }
      }
    }
  }

  /** At the end `f` of a loop entered at iteration `ii` with best pair
      `held`, after computing the pairs `trail`: the best pair is the one
      whose score is the first lowest of `dual_ortho` after the starting
      one, `held` when that position is not after `ii`. */
  predicate BestFrom(held: (Matrix, Matrix), ii: nat, f: Finish, trail: seq<(Matrix, Matrix)>) {
    f.Finished? && 0 <= f.last ==>
      FirstLowestHeld(held, ii, f.state.duals, (f.state.bestAlphas, f.state.bestDictionary), trail)
  }

  /** `best` is the entry of `trail` at the first lowest position of
      `duals` counted from `ii + 1`, or `held` when that position is not
      after `ii`. */
  predicate FirstLowestHeld<P(==)>(held: P, ii: nat, duals: seq<real>, best: P, trail: seq<P>) {
    2 <= |duals| &&
    var j := FirstLowest(duals);
    (j <= ii ==> best == held) && (ii < j ==> j - ii - 1 < |trail| && best == trail[j - ii - 1])
  }

  /** With ground truth, the best pair is the iterate that first reached the
      lowest score after the starting one. */
  lemma {:induction false} BestIterate(run: Run, s: State, ii: nat)
    requires run.Valid() && Shaped(run, s, ii) && run.evaluate && Scored(run, s, ii)
    ensures BestFrom((s.bestAlphas, s.bestDictionary), ii, Loop(run, s, ii), Trail(run, s, ii))
    decreases run.cfg.maxIter - ii, 1
  {
    if ii < run.cfg.maxIter {
      var step := Iteration(run, s, ii);
      if step.Continue? {
        BestContinue(run, s, ii);
      } else if step.Break? {
        var t := step.last;
        ScoredStep(run, s, ii);
        assert Loop(run, s, ii) == Finished(t, ii, Converged);
        assert Trail(run, s, ii) == [(t.alphas, t.dictionary)];
      }
    }
  }

  /** `BestIterate` over an iteration that continues. */
  lemma {:induction false} BestContinue(run: Run, s: State, ii: nat)
    requires run.Valid() && Shaped(run, s, ii) && run.evaluate && Scored(run, s, ii)
    requires ii < run.cfg.maxIter && Iteration(run, s, ii).Continue?
    ensures BestFrom((s.bestAlphas, s.bestDictionary), ii, Loop(run, s, ii), Trail(run, s, ii))
    decreases run.cfg.maxIter - ii, 0
  {
    var t := Iteration(run, s, ii).next;
    ScoredStep(run, s, ii);
    Continues(run, s, ii);
    HistoryExtends(run, t, ii + 1);
    BestIterate(run, t, ii + 1);
    BestCarried(s, t, ii, Loop(run, t, ii + 1), Trail(run, t, ii + 1));
  }

  /** The step of `BestIterate` over one continuing iteration from `s` to
      `t`, whose rest of the loop ends in `f` after computing `trail`. */
  lemma BestCarried(s: State, t: State, ii: nat, f: Finish, trail: seq<(Matrix, Matrix)>)
    requires BestMoves(s, t, ii) && (f.Finished? ==> t.duals <= f.state.duals)
    requires BestFrom((t.bestAlphas, t.bestDictionary), ii + 1, f, trail)
    ensures BestFrom((s.bestAlphas, s.bestDictionary), ii, f, [(t.alphas, t.dictionary)] + trail)
  {
    if f.Finished? && 0 <= f.last {
      HeldCarried(t.duals, f.state.duals, ii, (s.bestAlphas, s.bestDictionary), (t.alphas, t.dictionary),
        (t.bestAlphas, t.bestDictionary), (f.state.bestAlphas, f.state.bestDictionary), trail);
    }
  }

  /** `BestCarried` on the histories and pairs alone: `tDuals` and `tBest`
      are the scores and the best pair after the iteration, `tPair` the pair
      it computed. */
  lemma HeldCarried<P>(tDuals: seq<real>, duals: seq<real>, ii: nat, sBest: P, tPair: P, tBest: P, best: P,
                           trail: seq<P>)
    requires |tDuals| == ii + 2 && tDuals <= duals
    requires FirstLowest(tDuals) == ii + 1 ==> tBest == tPair
    requires FirstLowest(tDuals) <= ii ==> tBest == sBest
    requires FirstLowestHeld(tBest, ii + 1, duals, best, trail)
    ensures FirstLowestHeld(sBest, ii, duals, best, [tPair] + trail)
  {
    var j := FirstLowest(duals);
    FirstLowestExtended(tDuals, duals);
    if j <= ii + 1 {
      assert FirstLowest(tDuals) == j;
    } else {
      assert ([tPair] + trail)[j - ii - 1] == trail[j - ii - 2];
    }
  }

  /** For the whole fit with ground truth: `best_dual_ortho` is the score at
      the first lowest position `j` of `dual_ortho` after the starting one,
      and the best pair is the pair computed by iteration `j - 1`, whose
      score that is. */
  lemma AlignmentBest(run: Run, alphas: Matrix, dictionary: Matrix, saved: Option<Matrix>, savedDictionary: Option<Matrix>)
    requires run.Valid() && run.evaluate
    requires IsMatrix(dictionary, run.cfg.K, run.cfg.D) && IsMatrix(alphas, run.cfg.T, run.cfg.K)
    ensures var s := Start(run, alphas, dictionary, saved, savedDictionary);
      var f := Loop(run, s, 0); var tr := Trail(run, s, 0);
      f.Finished? && 0 <= f.last ==>
        (|tr| == f.last + 1 && |f.state.duals| == f.last + 2 &&
         (var j := FirstLowest(f.state.duals);
          f.state.bestDual == Finite(f.state.duals[j]) &&
          (f.state.bestAlphas, f.state.bestDictionary) == tr[j - 1] &&
          f.state.duals[j] == AlignmentScore(run, tr[j - 1].0, tr[j - 1].1)))
  {
    var s := Start(run, alphas, dictionary, saved, savedDictionary);
    var f := Loop(run, s, 0);
    BestIterate(run, s, 0);
    TrailLength(run, s, 0);
    HistoryLength(run, s, 0);
    AlignmentStopRule(run, s, 0);
    if f.Finished? && 0 <= f.last {
      TrailScore(run, s, 0, FirstLowest(f.state.duals) - 1);
    }
  }
}
