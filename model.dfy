/** The `snscov_model` object: its configuration, the fields `fit` fills
    in, and the methods that change them. */
module Model {
  import opened LinAlg
  import opened Validation
  import opened Settings
  import opened Covariance
  import opened Residual
  import opened AlphasStep
  import opened DictionaryStep
  import opened FitLoop

  class SnscovModel {
    /** The constructor arguments, never changed afterwards. */
    const cfg: Config
    /** `self.dict` and `self.alphas`: `None` until a fit stores a pair. */
    var dict: Option<Matrix>
    var alphas: Option<Matrix>
    /** `self.sample_c`. */
    var sampleC: Tensor
    /** `self.error_` and `self.dual_ortho`. */
    var errorHistory: seq<real>
    var dualOrtho: seq<real>
    /** `self.best_dual_ortho`, `self.best_alphas`, `self.best_dictionary`. */
    var bestDualOrtho: Score
    var bestAlphas: Matrix
    var bestDictionary: Matrix
    /** `self.n_iter_`. */
    var nIter: int

    /** `__init__`: stores the configuration; no pair is stored yet. */
    constructor (cfg: Config)
      ensures this.cfg == cfg && dict == None && alphas == None
    {
      this.cfg := cfg;
      dict := None;
      alphas := None;
      sampleC := [];
      errorHistory := [];
      dualOrtho := [];
      bestDualOrtho := Infinity;
      bestAlphas := [];
      bestDictionary := [];
      nIter := 0;
    }

    /** `compute_sample_covariance(X)` for X of shape (N, t, d), N > 0. */
    method ComputeSampleCovariance(x: Tensor, t: nat, d: nat)
      requires |x| > 0 && IsTensor(x, |x|, t, d)
      modifies this`sampleC
      ensures sampleC == SampleCovariance(x, t, d)
    {
      sampleC := SampleCovariance(x, t, d);
    }

    /** `compute_residual(X, dictionary, alphas)` against `self.sample_c`. */
    function ComputeResidual(dictionary: Matrix, alphas: Matrix): (r: real)
      reads this
      requires Fits(dictionary, alphas, sampleC, cfg.D)
      ensures 0.0 <= r
      ensures r == 0.0 <==> forall s :: 0 <= s < |sampleC| ==> Reconstruct(dictionary, alphas[s], cfg.D) == sampleC[s]
    {
      ResidualNonnegative(dictionary, alphas, sampleC, cfg.D);
      ResidualZeroIffExact(dictionary, alphas, sampleC, cfg.D);
      Residual.Residual(dictionary, alphas, sampleC, cfg.D)
    }

    /** The loop's variables, with the pair held in the locals `alphas` and
        `dictionary`. */
    ghost function Snapshot(alphas: Matrix, dictionary: Matrix): State
      reads this
    {
      State(alphas, dictionary, errorHistory, dualOrtho, bestDualOrtho, bestAlphas, bestDictionary,
        this.alphas, this.dict)
    }

    /** The fields that `fit` writes hold the loop variables of `s`. */
    ghost predicate Holds(s: State)
      reads this
    {
      errorHistory == s.errors && dualOrtho == s.duals && bestDualOrtho == s.bestDual &&
      bestAlphas == s.bestAlphas && bestDictionary == s.bestDictionary &&
      alphas == s.savedAlphas && dict == s.savedDictionary
    }

    /** The fields and the loop's results agree with how the loop ends:
        the final state and `ii` after a normal end, the state at the
        exception and the exception otherwise. */
    ghost predicate Ends(f: Finish, error: Option<FitError>, last: int)
      reads this
    {
      match f
      case Finished(s, l, _) => error == None && Holds(s) && last == l
      case Raised(s, e) => error == Some(e) && Holds(s)
    }

    /** What `fit` leaves behind for the loop outcome `f`: `Pass`, the final
        state and `n_iter_` after a normal end; `Fail`, the state at the
        exception and the earlier `n_iter_` (`before`) after an exception. */
    ghost predicate Fitted(f: Finish, outcome: Outcome<FitError>, before: int)
      reads this
    {
      match f
      case Finished(s, _, _) => outcome == Pass && Holds(s) && nIter == IterationCount(f)
      case Raised(s, e) => outcome == Fail(e) && Holds(s) && nIter == before
    }

    /** The pair `fit` starts from: the stored one for a warm start, the
        initialisation's otherwise. */
    ghost function StartPair(initialAlphas: Matrix, initialDictionary: Matrix): (Matrix, Matrix)
      reads this
    {
      if dict.Some? && alphas.Some? then (alphas.value, dict.value) else (initialAlphas, initialDictionary)
    }

    /** Lines 306-332 once both steps have returned the new pair (`alphas`,
        `dictionary`), whose residual is `cost` and, in evaluation mode,
        whose alignment score is `score`: append them to the histories, keep
        the best state, then break or store the pair in `self.alphas`,
        `self.dict`. */
    method Bookkeep(ghost run: Run, ghost before: State, ii: nat, alphas: Matrix, dictionary: Matrix,
                    cost: real, score: real, evaluate: bool)
      returns (stop: bool)
      requires run.evaluate == evaluate && Shaped(run, before, ii) && Holds(before)
      requires IsMatrix(dictionary, run.cfg.K, run.cfg.D) && IsMatrix(alphas, run.cfg.T, run.cfg.K)
      requires cost == Cost(run, dictionary, alphas) && (evaluate ==> score == AlignmentScore(run, alphas, dictionary))
      requires run.cfg == cfg
      modifies this`errorHistory, this`dualOrtho, this`bestDualOrtho, this`bestAlphas, this`bestDictionary,
        this`alphas, this`dict
      ensures var step := Record(run, before, ii, alphas, dictionary);
        (stop ==> step == Break(Snapshot(alphas, dictionary))) &&
        (!stop ==> step == Continue(Snapshot(alphas, dictionary)))
    {
      errorHistory := errorHistory + [cost];
      if evaluate {
        dualOrtho := dualOrtho + [score];
        if Below(dualOrtho[ii + 1], bestDualOrtho) {
          bestDualOrtho := Finite(dualOrtho[ii + 1]);
          bestAlphas := alphas;
          bestDictionary := dictionary;
        }
        if dualOrtho[ii + 1] - dualOrtho[ii] > cfg.tol {
          return true;
        }
      } else {
        if ii > 0 {
          if Abs(errorHistory[ii + 1] - errorHistory[ii]) < cfg.tol {
            return true;
          } else {
            bestAlphas := alphas;
            bestDictionary := dictionary;
          }
        } else {
          bestAlphas := alphas;
          bestDictionary := dictionary;
        }
      }
      this.alphas := Some(alphas);
      this.dict := Some(dictionary);
      return false;
    }

    /** One pass of the `for ii` loop (lines 297-332) on the stored sample
        covariance. An exception from an update step comes back as `error`,
        with the fields untouched by this pass. */
    method Iterate(ghost run: Run, ii: nat, alphas: Matrix, dictionary: Matrix, shape: Shape3, evaluate: bool,
                   trueAlphas: Matrix, trueDictionary: Matrix, oracles: Oracles)
      returns (error: Option<FitError>, stop: bool, alphas': Matrix, dictionary': Matrix)
      requires cfg.Valid() && shape.t == cfg.T && shape.d == cfg.D && IsTensor(sampleC, cfg.T, cfg.D, cfg.D)
      requires cfg.aMethod.TemporalKernel? ==> oracles.Valid()
      requires evaluate ==> IsMatrix(trueAlphas, |trueAlphas|, Width(trueAlphas))
      requires run == Steps(cfg, sampleC, shape, evaluate, trueAlphas, trueDictionary, oracles)
      requires Shaped(run, Snapshot(alphas, dictionary), ii)
      modifies this`errorHistory, this`dualOrtho, this`bestDualOrtho, this`bestAlphas, this`bestDictionary,
        this`alphas, this`dict
      ensures match Iteration(run, old(Snapshot(alphas, dictionary)), ii)
        case Raise(e) => error == Some(e) && Holds(old(Snapshot(alphas, dictionary)))
        case Break(t) => error == None && stop && Snapshot(alphas', dictionary') == t
        case Continue(t) => error == None && !stop && Snapshot(alphas', dictionary') == t
    {
      ghost var before := Snapshot(alphas, dictionary);
      alphas', dictionary' := alphas, dictionary;
      stop := false;
      StepsUpdate(cfg, sampleC, shape, evaluate, trueAlphas, trueDictionary, oracles, dictionary, alphas);
      var newAlphas := UpdateAlphas(cfg, sampleC, shape, dictionary, alphas, oracles);
      if newAlphas.Failure? {
        return Some(newAlphas.error), stop, alphas', dictionary';
      }
      alphas' := newAlphas.value;
      StepsUpdate(cfg, sampleC, shape, evaluate, trueAlphas, trueDictionary, oracles, dictionary, alphas');
      var newDictionary := UpdateDictionary(cfg, sampleC, shape, dictionary, alphas', oracles);
      if newDictionary.Failure? {
        return Some(newDictionary.error), stop, alphas', dictionary';
      }
      dictionary' := newDictionary.value;
      StepsCost(cfg, sampleC, shape, evaluate, trueAlphas, trueDictionary, oracles, dictionary', alphas');
      var cost := ComputeResidual(dictionary', alphas');
      var score := if evaluate then DualPermutation(trueAlphas, trueDictionary, alphas', dictionary', oracles) else 0.0;
      error := None;
      stop := Bookkeep(run, before, ii, alphas', dictionary', cost, score, evaluate);
    }

    /** The `for ii` loop of `fit` (lines 297-334) from the pair (`alphas`,
        `dictionary`), with the state before it already set up. On an
        exception the fields keep what the loop had written so far. */
    method Iterations(ghost run: Run, alphas: Matrix, dictionary: Matrix, shape: Shape3, evaluate: bool,
                      trueAlphas: Matrix, trueDictionary: Matrix, oracles: Oracles)
      returns (error: Option<FitError>, last: int)
      requires cfg.Valid() && shape.t == cfg.T && shape.d == cfg.D && IsTensor(sampleC, cfg.T, cfg.D, cfg.D)
      requires cfg.aMethod.TemporalKernel? ==> oracles.Valid()
      requires evaluate ==> IsMatrix(trueAlphas, |trueAlphas|, Width(trueAlphas))
      requires run == Steps(cfg, sampleC, shape, evaluate, trueAlphas, trueDictionary, oracles)
      requires Shaped(run, Snapshot(alphas, dictionary), 0)
      modifies this`errorHistory, this`dualOrtho, this`bestDualOrtho, this`bestAlphas, this`bestDictionary,
        this`alphas, this`dict
      ensures Ends(Loop(run, old(Snapshot(alphas, dictionary)), 0), error, last)
    {
      ghost var f := Loop(run, Snapshot(alphas, dictionary), 0);
      var ii := -1;
      var a, d := alphas, dictionary;
      var done := false;
      error := None;
      while !done && ii + 1 < cfg.maxIter
        invariant -1 <= ii && (0 <= ii ==> ii < cfg.maxIter)
        invariant !done ==> Shaped(run, Snapshot(a, d), ii + 1)
        invariant !done ==> error == None && Loop(run, Snapshot(a, d), ii + 1) == f
        invariant done ==> Ends(f, error, ii)
      {
        ii := ii + 1;
        var stop;
        error, stop, a, d := Advance(run, f, ii, a, d, shape, evaluate, trueAlphas, trueDictionary, oracles);
        done := error.Some? || stop;
      }
      return error, ii;
    }

    /** Iteration `ii` of a loop whose outcome from here is `f`: either the
        loop goes on from the new pair to the same outcome, or it has ended
        the way `f` says. */
    method Advance(ghost run: Run, ghost f: Finish, ii: nat, alphas: Matrix, dictionary: Matrix, shape: Shape3,
                   evaluate: bool, trueAlphas: Matrix, trueDictionary: Matrix, oracles: Oracles)
      returns (error: Option<FitError>, stop: bool, alphas': Matrix, dictionary': Matrix)
      requires cfg.Valid() && shape.t == cfg.T && shape.d == cfg.D && IsTensor(sampleC, cfg.T, cfg.D, cfg.D)
      requires cfg.aMethod.TemporalKernel? ==> oracles.Valid()
      requires evaluate ==> IsMatrix(trueAlphas, |trueAlphas|, Width(trueAlphas))
      requires run == Steps(cfg, sampleC, shape, evaluate, trueAlphas, trueDictionary, oracles)
      requires Shaped(run, Snapshot(alphas, dictionary), ii) && ii < cfg.maxIter
      requires Loop(run, Snapshot(alphas, dictionary), ii) == f
      modifies this`errorHistory, this`dualOrtho, this`bestDualOrtho, this`bestAlphas, this`bestDictionary,
        this`alphas, this`dict
      ensures !(error.Some? || stop) ==> Shaped(run, Snapshot(alphas', dictionary'), ii + 1)
      ensures !(error.Some? || stop) ==> error == None && Loop(run, Snapshot(alphas', dictionary'), ii + 1) == f
      ensures error.Some? || stop ==> Ends(f, error, ii)
    {
      LoopStep(run, Snapshot(alphas, dictionary), ii);
      error, stop, alphas', dictionary' := Iterate(run, ii, alphas, dictionary, shape, evaluate, trueAlphas, trueDictionary, oracles);
    }

    /** Lines 249-292 of `fit`: pick the starting pair, reset the histories,
        compute the sample covariance and reset the best state. */
    method Prepare(x: Tensor, initialAlphas: Matrix, initialDictionary: Matrix)
      returns (alphas: Matrix, dictionary: Matrix)
      requires |x| > 0 && IsTensor(x, |x|, cfg.T, cfg.D)
      modifies this`sampleC, this`errorHistory, this`dualOrtho, this`bestDualOrtho, this`bestAlphas,
        this`bestDictionary
      ensures sampleC == SampleCovariance(x, cfg.T, cfg.D)
      ensures (alphas, dictionary) == old(StartPair(initialAlphas, initialDictionary))
      ensures errorHistory == [] && dualOrtho == [] && bestDualOrtho == Infinity
      ensures bestAlphas == [] && bestDictionary == []
    {
      if this.dict.Some? && this.alphas.Some? {
        alphas := this.alphas.value;
        dictionary := this.dict.value;
      } else {
        alphas := initialAlphas;
        dictionary := initialDictionary;
      }
      errorHistory := [];
      dualOrtho := [];
      ComputeSampleCovariance(x, cfg.T, cfg.D);
      bestDualOrtho := Infinity;
      bestAlphas := [];
      bestDictionary := [];
    }

    /** Lines 293-295 of `fit`: the starting pair's alignment score in
        evaluation mode and its residual open the two histories. */
    method RecordStart(ghost run: Run, alphas: Matrix, dictionary: Matrix, shape: Shape3, evaluate: bool,
                       trueAlphas: Matrix, trueDictionary: Matrix, oracles: Oracles)
      requires cfg.Valid() && IsTensor(sampleC, cfg.T, cfg.D, cfg.D)
      requires evaluate ==> IsMatrix(trueAlphas, |trueAlphas|, Width(trueAlphas))
      requires IsMatrix(dictionary, cfg.K, cfg.D) && IsMatrix(alphas, cfg.T, cfg.K)
      requires run == Steps(cfg, sampleC, shape, evaluate, trueAlphas, trueDictionary, oracles)
      requires errorHistory == [] && dualOrtho == [] && bestDualOrtho == Infinity
      requires bestAlphas == [] && bestDictionary == []
      modifies this`errorHistory, this`dualOrtho
      ensures Snapshot(alphas, dictionary) == Start(run, alphas, dictionary, this.alphas, dict)
    {
      StepsCost(cfg, sampleC, shape, evaluate, trueAlphas, trueDictionary, oracles, dictionary, alphas);
      if evaluate {
        dualOrtho := dualOrtho + [DualPermutation(trueAlphas, trueDictionary, alphas, dictionary, oracles)];
      }
      errorHistory := errorHistory + [ComputeResidual(dictionary, alphas)];
    }

    /** `fit(X, tol, true_a, true_d, evaluate)`. The spectral or random
        initialisation is the pair (`initialAlphas`, `initialDictionary`),
        used only when no pair is stored. The `tol` argument is never read:
        the loop compares against `self.tol`. On an exception from an update
        step the fields keep what the loop had written so far and `n_iter_`
        keeps its old value. */
    method Fit(x: Tensor, tol: real, trueAlphas: Matrix, trueDictionary: Matrix, evaluate: bool,
               initialAlphas: Matrix, initialDictionary: Matrix, oracles: Oracles)
      returns (outcome: Outcome<FitError>)
      requires cfg.Valid() && |x| > 0 && IsTensor(x, |x|, cfg.T, cfg.D)
      requires cfg.aMethod.TemporalKernel? ==> oracles.Valid()
      requires evaluate ==> IsMatrix(trueAlphas, |trueAlphas|, Width(trueAlphas))
      requires IsMatrix(StartPair(initialAlphas, initialDictionary).1, cfg.K, cfg.D)
      requires IsMatrix(StartPair(initialAlphas, initialDictionary).0, cfg.T, cfg.K)
      modifies this
      ensures sampleC == SampleCovariance(x, cfg.T, cfg.D)
      ensures var run := Steps(cfg, sampleC, Shape3(|x|, cfg.T, cfg.D), evaluate, trueAlphas, trueDictionary, oracles);
        var pair := old(StartPair(initialAlphas, initialDictionary));
        Fitted(Loop(run, Start(run, pair.0, pair.1, old(alphas), old(dict)), 0), outcome, old(nIter))
    {
      var shape := Shape3(|x|, cfg.T, cfg.D);
      var alphas, dictionary := Prepare(x, initialAlphas, initialDictionary);
      ghost var run := Steps(cfg, sampleC, shape, evaluate, trueAlphas, trueDictionary, oracles);
      outcome := Launch(run, alphas, dictionary, shape, evaluate, trueAlphas, trueDictionary, oracles);
    }

    /** Lines 293-336 of `fit` once the starting pair (`alphas`,
        `dictionary`) is chosen and the histories are reset. */
    method Launch(ghost run: Run, alphas: Matrix, dictionary: Matrix, shape: Shape3, evaluate: bool,
                  trueAlphas: Matrix, trueDictionary: Matrix, oracles: Oracles)
      returns (outcome: Outcome<FitError>)
      requires cfg.Valid() && shape.t == cfg.T && shape.d == cfg.D && IsTensor(sampleC, cfg.T, cfg.D, cfg.D)
      requires cfg.aMethod.TemporalKernel? ==> oracles.Valid()
      requires evaluate ==> IsMatrix(trueAlphas, |trueAlphas|, Width(trueAlphas))
      requires IsMatrix(dictionary, cfg.K, cfg.D) && IsMatrix(alphas, cfg.T, cfg.K)
      requires run == Steps(cfg, sampleC, shape, evaluate, trueAlphas, trueDictionary, oracles)
      requires errorHistory == [] && dualOrtho == [] && bestDualOrtho == Infinity
      requires bestAlphas == [] && bestDictionary == []
      modifies this`errorHistory, this`dualOrtho, this`bestDualOrtho, this`bestAlphas, this`bestDictionary,
        this`alphas, this`dict, this`nIter
      ensures Fitted(Loop(run, Start(run, alphas, dictionary, old(this.alphas), old(dict)), 0), outcome, old(nIter))
    {
      RecordStart(run, alphas, dictionary, shape, evaluate, trueAlphas, trueDictionary, oracles);
      ghost var start := Snapshot(alphas, dictionary);
      outcome := Conclude(run, start, alphas, dictionary, shape, evaluate, trueAlphas, trueDictionary, oracles);
    }

    /** Lines 297-336 of `fit` from the set-up state `start`: run the loop,
        then set `n_iter_` and return unless an update step raised. */
    method Conclude(ghost run: Run, ghost start: State, alphas: Matrix, dictionary: Matrix, shape: Shape3,
                    evaluate: bool, trueAlphas: Matrix, trueDictionary: Matrix, oracles: Oracles)
      returns (outcome: Outcome<FitError>)
      requires cfg.Valid() && shape.t == cfg.T && shape.d == cfg.D && IsTensor(sampleC, cfg.T, cfg.D, cfg.D)
      requires cfg.aMethod.TemporalKernel? ==> oracles.Valid()
      requires evaluate ==> IsMatrix(trueAlphas, |trueAlphas|, Width(trueAlphas))
      requires run == Steps(cfg, sampleC, shape, evaluate, trueAlphas, trueDictionary, oracles)
      requires start == Snapshot(alphas, dictionary) && Shaped(run, start, 0)
      modifies this`errorHistory, this`dualOrtho, this`bestDualOrtho, this`bestAlphas, this`bestDictionary,
        this`alphas, this`dict, this`nIter
      ensures Fitted(Loop(run, start, 0), outcome, old(nIter))
    {
      var error, last := Iterations(run, alphas, dictionary, shape, evaluate, trueAlphas, trueDictionary, oracles);
      if error.Some? {
        return Fail(error.value);
      }
      nIter := last + 2;
      return Pass;
    }
  }

  /** Where the shapes fit, the update routines of `Steps` are the model's
      `update_alphas` and `update_dictionary`. */
  lemma StepsUpdate(cfg: Config, c: Tensor, x: Shape3, evaluate: bool, trueAlphas: Matrix, trueDictionary: Matrix,
                    oracles: Oracles, dictionary: Matrix, alphas: Matrix)
    requires cfg.Valid() && x.t == cfg.T && x.d == cfg.D && IsTensor(c, cfg.T, cfg.D, cfg.D)
    requires cfg.aMethod.TemporalKernel? ==> oracles.Valid()
    requires IsMatrix(dictionary, cfg.K, cfg.D) && IsMatrix(alphas, cfg.T, cfg.K)
    ensures var run := Steps(cfg, c, x, evaluate, trueAlphas, trueDictionary, oracles);
      StepArguments(cfg, c, x, dictionary, alphas) &&
      run.updateAlphas(dictionary, alphas) == AlphasUpdate(cfg, c, x, dictionary, alphas, oracles) &&
      run.updateDictionary(dictionary, alphas) == DictionaryUpdate(cfg, c, x, dictionary, alphas, oracles)
  {
  }

  /** Where the shapes fit, the residual and score routines of `Steps` are
      `compute_residual` and the alignment score. */
  lemma StepsCost(cfg: Config, c: Tensor, x: Shape3, evaluate: bool, trueAlphas: Matrix, trueDictionary: Matrix,
                  oracles: Oracles, dictionary: Matrix, alphas: Matrix)
    requires cfg.Valid() && IsTensor(c, cfg.T, cfg.D, cfg.D)
    requires IsMatrix(dictionary, cfg.K, cfg.D) && IsMatrix(alphas, cfg.T, cfg.K)
    ensures var run := Steps(cfg, c, x, evaluate, trueAlphas, trueDictionary, oracles);
      Fits(dictionary, alphas, c, cfg.D) &&
      run.residual(dictionary, alphas) == Residual.Residual(dictionary, alphas, c, cfg.D) &&
      (IsMatrix(trueAlphas, |trueAlphas|, Width(trueAlphas)) ==>
        run.score(dictionary, alphas) == DualPermutation(trueAlphas, trueDictionary, alphas, dictionary, oracles))
  {
  }

  /** `dual_permutation(true_a.T, true_d, alphas, dictionary)`. */
  function DualPermutation(trueAlphas: Matrix, trueDictionary: Matrix, alphas: Matrix, dictionary: Matrix,
                           oracles: Oracles): real
    requires IsMatrix(trueAlphas, |trueAlphas|, Width(trueAlphas))
  {
    oracles.dualPermutation(Transpose(trueAlphas, |trueAlphas|, Width(trueAlphas)), trueDictionary, alphas, dictionary)
  }
}
