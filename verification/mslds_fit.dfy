/** The restart / best-of-N driver of `MetastableSwitchingLDS.fit`
    (Mixtape/mslds.py). Each restart hot-starts, runs `n_em_iter` E-step /
    M-step rounds and remembers the last E-step log-likelihood; the restart
    with the strictly greatest one wins. The E-step (the compiled inference
    engine) and the M-step are parameters: the model fixes how their answers
    are threaded, filtered and compared. */
module MsldsFit {

  import opened Wrappers
  import opened Linalg
  import opened Mslds

  /** Whatever the E-step hands to the M-step; opaque to this model. */
  datatype Stats = Stats(values: seq<real>)

  /** `estep(sequences, params, i)` is `_impl.do_estep(i)` run on the
      engine's copy of the parameters: the log-likelihood and the sufficient
      statistics. `mstep(params, stats, which, i)` is the parameter set after
      `_do_mstep(stats, set(params), i)`. */
  datatype EmSteps = EmSteps(
    estep: (seq<seq<Vector>>, Params, int) -> (real, Stats),
    mstep: (Params, Stats, set<char>, int) -> Params)

  function Clamp(x: int): nat
  {
    if x < 0 then 0 else x
  }

  /** The parameters after the first `i` EM rounds from `p0`. */
  function Iterate(seqs: seq<seq<Vector>>, cfg: Config, steps: EmSteps, p0: Params, i: nat): Params
  {
    if i == 0 then p0
    else
      var p := Iterate(seqs, cfg, steps, p0, i - 1);
      steps.mstep(p, steps.estep(seqs, p, i - 1).1, cfg.params, i - 1)
  }

  /** The log-likelihood the E-step of round `i` reports. */
  function LogprobAt(seqs: seq<seq<Vector>>, cfg: Config, steps: EmSteps, p0: Params, i: nat): real
  {
    steps.estep(seqs, Iterate(seqs, cfg, steps, p0, i), i).0
  }

  /** The E-step values of rounds `n_hotstart <= i < n_em_iter`, in order. */
  ghost function Tracked(seqs: seq<seq<Vector>>, cfg: Config, steps: EmSteps, p0: Params): (trace: seq<real>)
    ensures |trace| == Clamp(cfg.nEmIter - Clamp(cfg.nHotstart))
  {
    var lo := Clamp(cfg.nHotstart);
    seq(Clamp(cfg.nEmIter - lo), k requires 0 <= k => LogprobAt(seqs, cfg, steps, p0, lo + k))
  }

  /** One EM restart from `p0`, as `fit`'s inner loop runs it. `last` is
      `curr_logprob` after the loop (`None` while it is unbound) and
      `fitLogprob` collects the values of the rounds after the burn-in. */
  method EmLoop(seqs: seq<seq<Vector>>, cfg: Config, steps: EmSteps, p0: Params)
    returns (final: Params, last: Option<real>, fitLogprob: seq<real>)
    ensures final == Iterate(seqs, cfg, steps, p0, Clamp(cfg.nEmIter))
    ensures last.Some? <==> cfg.nEmIter > 0
    ensures last.Some? ==> last.value == LogprobAt(seqs, cfg, steps, p0, cfg.nEmIter - 1)
    ensures |fitLogprob| == Clamp(Clamp(cfg.nEmIter) - Clamp(cfg.nHotstart))
    ensures forall k :: 0 <= k < |fitLogprob| ==>
              fitLogprob[k] == LogprobAt(seqs, cfg, steps, p0, Clamp(cfg.nHotstart) + k)
  {
    var p := p0;
    var i := 0;
    last := None;
    fitLogprob := [];
    while i < cfg.nEmIter
      invariant 0 <= i <= Clamp(cfg.nEmIter)
      invariant p == Iterate(seqs, cfg, steps, p0, i)
      invariant last.Some? <==> i > 0
      invariant last.Some? ==> last.value == LogprobAt(seqs, cfg, steps, p0, i - 1)
      invariant |fitLogprob| == Clamp(i - Clamp(cfg.nHotstart))
      invariant forall k :: 0 <= k < |fitLogprob| ==>
                  fitLogprob[k] == LogprobAt(seqs, cfg, steps, p0, Clamp(cfg.nHotstart) + k)
    {
      var (currLogprob, stats) := steps.estep(seqs, p, i);
      if i >= cfg.nHotstart {
        fitLogprob := fitLogprob + [currLogprob];
      }
      p := steps.mstep(p, stats, cfg.params, i);
      last := Some(currLogprob);
      i := i + 1;
    }
    final := p;
  }

  /** What `fit` remembers of a finished restart: its final parameters, its
      last E-step log-likelihood and its post-burn-in trace. */
  datatype Restart = Restart(params: Params, logprob: real, fitLogprob: seq<real>)

  /** The restart `r` as the specification of one restart: hot start, then
      `n_em_iter` rounds; the trace holds the E-step values of the rounds
      `n_hotstart <= i < n_em_iter`, in order. */
  ghost function RestartOutcome(seqs: seq<seq<Vector>>, cfg: Config, start: int -> Result<Params, InitError>,
                                steps: EmSteps, r: int): Result<Restart, InitError>
    requires cfg.nEmIter > 0
  {
    match start(r)
    case Failure(e) => Failure(e)
    case Success(p0) =>
      var lo := Clamp(cfg.nHotstart);
      Success(Restart(
        Iterate(seqs, cfg, steps, p0, cfg.nEmIter),
        LogprobAt(seqs, cfg, steps, p0, cfg.nEmIter - 1),
        Tracked(seqs, cfg, steps, p0)))
  }

  /** The outcomes of restarts `0 .. n-1`, all of whose hot starts succeed. */
  ghost function Outcomes(seqs: seq<seq<Vector>>, cfg: Config, start: int -> Result<Params, InitError>,
                          steps: EmSteps, n: nat): (outs: seq<Restart>)
    requires cfg.nEmIter > 0
    requires forall j :: 0 <= j < n ==> start(j).Success?
    ensures |outs| == n
  {
    seq(n, j requires 0 <= j < n => RestartOutcome(seqs, cfg, start, steps, j).value)
  }

  function Logprobs(outs: seq<Restart>): (lps: seq<real>)
    ensures |lps| == |outs|
    ensures forall j :: 0 <= j < |outs| ==> lps[j] == outs[j].logprob
  {
    seq(|outs|, j requires 0 <= j < |outs| => outs[j].logprob)
  }

  /** The index `fit` ends up keeping when it scans `lps` with a strict `>`
      against the best so far (initially minus infinity): the first
      position of the maximum. */
  function FirstArgmax(lps: seq<real>): (b: nat)
    requires |lps| > 0
    ensures b < |lps|
    ensures forall j :: 0 <= j < |lps| ==> lps[j] <= lps[b]
    ensures forall j :: 0 <= j < b ==> lps[j] < lps[b]
  {
    if |lps| == 1 then 0
    else
      var b := FirstArgmax(lps[..|lps| - 1]);
      if lps[|lps| - 1] > lps[b] then |lps| - 1 else b
  }

  /** The first position of the maximum is the only index with both
      properties, so ties always go to the earlier restart. */
  lemma FirstArgmaxUnique(lps: seq<real>, b: nat)
    requires b < |lps|
    requires forall j :: 0 <= j < |lps| ==> lps[j] <= lps[b]
    requires forall j :: 0 <= j < b ==> lps[j] < lps[b]
    ensures FirstArgmax(lps) == b
  {
    var c := FirstArgmax(lps);
    if c != b {
      assert false;
    }
  }

  /** Everything the restart loop carries out of its last round: the winning
      restart and the parameters the last restart left on the object. */
  datatype Selection = Selection(best: Restart, last: Params)

  datatype FitError =
    | HotStartFailed(restart: nat, error: InitError) // `_init` raised
    | NoLogprob                                     // `curr_logprob` unbound: no EM round ran
    | NoBestFit                                     // `best_fit['params']` empty: no restart ran

  /** After restarts `0 .. n-1` the loop holds the first best of them and
      the last one's parameters. */
  ghost predicate Kept(seqs: seq<seq<Vector>>, cfg: Config, start: int -> Result<Params, InitError>, steps: EmSteps,
                       n: nat, best: Restart, last: Params)
  {
    && cfg.nEmIter > 0 && n > 0
    && (forall j :: 0 <= j < n ==> start(j).Success?)
    && var outs := Outcomes(seqs, cfg, start, steps, n);
    && best == outs[FirstArgmax(Logprobs(outs))]
    && last == outs[n - 1].params
  }

  /** One round of the selection: a later restart replaces the kept one
      only with a strictly greater log-likelihood. */
  lemma KeptStep(seqs: seq<seq<Vector>>, cfg: Config, start: int -> Result<Params, InitError>, steps: EmSteps,
                 n: nat, best: Restart, last: Params, cand: Restart)
    requires cfg.nEmIter > 0
    requires forall j :: 0 <= j <= n ==> start(j).Success?
    requires n > 0 ==> Kept(seqs, cfg, start, steps, n, best, last)
    requires cand == RestartOutcome(seqs, cfg, start, steps, n).value
    ensures Kept(seqs, cfg, start, steps, n + 1,
                 if n == 0 || cand.logprob > best.logprob then cand else best, cand.params)
  {
    var outs := Outcomes(seqs, cfg, start, steps, n + 1);
    assert outs[n] == cand;
    if n > 0 {
      assert outs[..n] == Outcomes(seqs, cfg, start, steps, n);
      ArgmaxStep(outs, n);
    }
  }

  /** Scanning one more restart moves the kept index to it only on a
      strictly greater log-likelihood. */
  lemma ArgmaxStep(outs: seq<Restart>, n: nat)
    requires 0 < n && |outs| == n + 1
    ensures var b := FirstArgmax(Logprobs(outs[..n]));
            FirstArgmax(Logprobs(outs)) == if outs[n].logprob > outs[b].logprob then n else b
  {
    assert Logprobs(outs)[..n] == Logprobs(outs[..n]);
  }

  /** The inner loop computes exactly the specified restart outcome. */
  lemma EmLoopIsRestart(seqs: seq<seq<Vector>>, cfg: Config, start: int -> Result<Params, InitError>, steps: EmSteps,
                        r: nat, final: Params, last: real, fitLogprob: seq<real>)
    requires cfg.nEmIter > 0
    requires start(r).Success?
    requires var p0 := start(r).value;
             && final == Iterate(seqs, cfg, steps, p0, Clamp(cfg.nEmIter))
             && last == LogprobAt(seqs, cfg, steps, p0, cfg.nEmIter - 1)
             && |fitLogprob| == Clamp(Clamp(cfg.nEmIter) - Clamp(cfg.nHotstart))
             && forall k :: 0 <= k < |fitLogprob| ==>
                  fitLogprob[k] == LogprobAt(seqs, cfg, steps, p0, Clamp(cfg.nHotstart) + k)
    ensures RestartOutcome(seqs, cfg, start, steps, r) == Success(Restart(final, last, fitLogprob))
  {
    var p0 := start(r).value;
    assert fitLogprob == Tracked(seqs, cfg, steps, p0);
  }

  /** One pass of the restart loop: hot-start restart `restart`, run its EM
      rounds, and compare it with the restart kept so far. */
  method RunOne(seqs: seq<seq<Vector>>, cfg: Config, start: int -> Result<Params, InitError>, steps: EmSteps,
                restart: nat, best: Restart, lastParams: Params)
    returns (r: Result<Selection, FitError>)
    requires forall j :: 0 <= j < restart ==> start(j).Success?
    requires restart > 0 ==> Kept(seqs, cfg, start, steps, restart, best, lastParams)
    ensures r.Success? <==> start(restart).Success? && cfg.nEmIter > 0
    ensures start(restart).Failure? ==>
              r == Failure(HotStartFailed(restart, start(restart).error))
    ensures start(restart).Success? && cfg.nEmIter <= 0 ==> r == Failure(NoLogprob)
    ensures r.Failure? ==>
              || (start(restart).Failure? && r.error == HotStartFailed(restart, start(restart).error))
              || (start(restart).Success? && cfg.nEmIter <= 0 && r.error == NoLogprob)
    ensures r.Success? ==> forall j :: 0 <= j <= restart ==> start(j).Success?
    ensures r.Success? ==> Kept(seqs, cfg, start, steps, restart + 1, r.value.best, r.value.last)
  {
    var init := start(restart);
    if init.Failure? {
      return Failure(HotStartFailed(restart, init.error));
    }
    var final, last, fitLogprob := EmLoop(seqs, cfg, steps, init.value);
    if last.None? {
      return Failure(NoLogprob);
    }
    var cand := Restart(final, last.value, fitLogprob);
    EmLoopIsRestart(seqs, cfg, start, steps, restart, final, last.value, fitLogprob);
    KeptStep(seqs, cfg, start, steps, restart, best, lastParams, cand);
    if restart == 0 || cand.logprob > best.logprob {
      return Success(Selection(cand, final));
    }
    return Success(Selection(best, final));
  }

  /** The restart loop of `fit`. */
  method RunRestarts(seqs: seq<seq<Vector>>, cfg: Config, start: int -> Result<Params, InitError>, steps: EmSteps)
    returns (r: Result<Selection, FitError>)
    ensures cfg.nInit <= 0 ==> r == Failure(NoBestFit)
    ensures cfg.nInit > 0 && start(0).Failure? ==>
              r == Failure(HotStartFailed(0, start(0).error))
    ensures cfg.nInit > 0 && start(0).Success? && cfg.nEmIter <= 0 ==>
              r == Failure(NoLogprob)
    ensures r.Failure? && r.error.HotStartFailed? ==>
              && r.error.restart < cfg.nInit
              && start(r.error.restart) == Failure(r.error.error)
              && forall j :: 0 <= j < r.error.restart ==> start(j).Success?
    ensures r.Success? <==>
              cfg.nInit > 0 && cfg.nEmIter > 0 &&
              forall j :: 0 <= j < cfg.nInit ==> start(j).Success?
    ensures r.Success? ==> Kept(seqs, cfg, start, steps, cfg.nInit, r.value.best, r.value.last)
  {
    if cfg.nInit <= 0 {
      return Failure(NoBestFit);
    }
    r := RestartLoop(seqs, cfg, start, steps);
  }

  /** The loop over `n_init >= 1` restarts. A failure is the first hot start
      that raised, or the unbound `curr_logprob` of restart 0 when no EM
      round runs. */
  method RestartLoop(seqs: seq<seq<Vector>>, cfg: Config, start: int -> Result<Params, InitError>, steps: EmSteps)
    returns (r: Result<Selection, FitError>)
    requires cfg.nInit > 0
    ensures r.Failure? ==> r.error.HotStartFailed? || r.error == NoLogprob
    ensures r.Failure? && r.error.HotStartFailed? ==>
              && r.error.restart < cfg.nInit
              && (r.error.restart > 0 ==> cfg.nEmIter > 0)
              && start(r.error.restart) == Failure(r.error.error)
              && forall j :: 0 <= j < r.error.restart ==> start(j).Success?
    ensures r.Failure? && r.error == NoLogprob ==> cfg.nEmIter <= 0 && start(0).Success?
    ensures r.Success? <==>
              cfg.nEmIter > 0 && forall j :: 0 <= j < cfg.nInit ==> start(j).Success?
    ensures r.Success? ==> Kept(seqs, cfg, start, steps, cfg.nInit, r.value.best, r.value.last)
  {
    var best: Restart := Restart(Params([], [], [], [], [], [], []), 0.0, []);
    var lastParams: Params := best.params;
    var restart := 0;
    while restart < cfg.nInit
      invariant 0 <= restart <= cfg.nInit
      invariant forall j :: 0 <= j < restart ==> start(j).Success?
      invariant restart > 0 ==> cfg.nEmIter > 0
      invariant restart > 0 ==> Kept(seqs, cfg, start, steps, restart, best, lastParams)
    {
      var step := RunOne(seqs, cfg, start, steps, restart, best, lastParams);
      if step.Failure? {
        if step.error == NoLogprob {
          assert restart == 0;
        }
        return Failure(step.error);
      }
      best, lastParams := step.value.best, step.value.last;
      restart := restart + 1;
    }
    return Success(Selection(best, lastParams));
  }

  /** What the loop keeps, spelled out: the first best restart and the
      last restart's parameters. */
  lemma KeptSelection(seqs: seq<seq<Vector>>, cfg: Config, start: int -> Result<Params, InitError>, steps: EmSteps,
                      n: nat, best: Restart, last: Params)
    requires Kept(seqs, cfg, start, steps, n, best, last)
    ensures cfg.nEmIter > 0 && n > 0 && forall j :: 0 <= j < n ==> start(j).Success?
    ensures var outs := Outcomes(seqs, cfg, start, steps, n);
            && best == outs[FirstArgmax(Logprobs(outs))]
            && last == outs[n - 1].params
  {
  }

  /** The model's attributes after `fit`: the parameters, `fit_logprob_`,
      and `vars_` when the source sets it. */
  datatype Fitted = Fitted(params: Params, fitLogprob: seq<real>, vars: Option<seq<Matrix>>)

  /** Final assignments with `covars_` restored from the winning restart,
      as intended. */
  function Finish(sel: Selection): (f: Fitted)
    ensures f.params == sel.best.params
    ensures f.fitLogprob == sel.best.fitLogprob
  {
    Fitted(sel.best.params, sel.best.fitLogprob, None)
  }

  /** Final assignments as written: the winner's covariances go to `vars_`,
      and `covars_` keeps whatever the last restart left there. */
  function FinishAsWritten(sel: Selection): (f: Fitted)
    ensures f.params.covars == sel.last.covars
    ensures f.vars == Some(sel.best.params.covars)
    ensures f.params.(covars := sel.best.params.covars) == sel.best.params
    ensures f.fitLogprob == sel.best.fitLogprob
  {
    Fitted(sel.best.params.(covars := sel.last.covars), sel.best.fitLogprob, Some(sel.best.params.covars))
  }

  /** The hot start `fit` runs at the top of every restart: `_init` with
      the intended dynamics. */
  function Starts(cfg: Config, seqs: seq<seq<Vector>>, oracles: HotStartOracles): (start: int -> Result<Params, InitError>)
    ensures forall r :: start(r) == Init(cfg, seqs, r, oracles)
  {
    r => Init(cfg, seqs, r, oracles)
  }

  /** `fit` with the covariances restored. On success the model holds the
      complete parameter set of the first restart whose last E-step
      log-likelihood is the greatest, and its post-burn-in trace. */
  method Fit(seqs: seq<seq<Vector>>, cfg: Config, oracles: HotStartOracles, steps: EmSteps)
    returns (r: Result<Fitted, FitError>)
    ensures r.Success? <==>
              cfg.nInit > 0 && cfg.nEmIter > 0 &&
              forall j :: 0 <= j < cfg.nInit ==> Init(cfg, seqs, j, oracles).Success?
    ensures r.Success? ==>
              var outs := Outcomes(seqs, cfg, Starts(cfg, seqs, oracles), steps, cfg.nInit);
              exists b :: 0 <= b < cfg.nInit
                && (forall j :: 0 <= j < cfg.nInit ==> outs[j].logprob <= outs[b].logprob)
                && (forall j :: 0 <= j < b ==> outs[j].logprob < outs[b].logprob)
                && r.value.params == outs[b].params
                && r.value.fitLogprob == outs[b].fitLogprob
    ensures r.Success? ==> |r.value.fitLogprob| == Clamp(cfg.nEmIter - Clamp(cfg.nHotstart))
  {
    r := FitFrom(seqs, cfg, Starts(cfg, seqs, oracles), steps);
  }

  /** `fit` with the covariances restored, for any hot start `start`. */
  method FitFrom(seqs: seq<seq<Vector>>, cfg: Config, start: int -> Result<Params, InitError>, steps: EmSteps)
    returns (r: Result<Fitted, FitError>)
    ensures r.Success? <==>
              cfg.nInit > 0 && cfg.nEmIter > 0 &&
              forall j :: 0 <= j < cfg.nInit ==> start(j).Success?
    ensures r.Success? ==>
              var outs := Outcomes(seqs, cfg, start, steps, cfg.nInit);
              exists b :: 0 <= b < cfg.nInit
                && (forall j :: 0 <= j < cfg.nInit ==> outs[j].logprob <= outs[b].logprob)
                && (forall j :: 0 <= j < b ==> outs[j].logprob < outs[b].logprob)
                && r.value.params == outs[b].params
                && r.value.fitLogprob == outs[b].fitLogprob
    ensures r.Success? ==> |r.value.fitLogprob| == Clamp(cfg.nEmIter - Clamp(cfg.nHotstart))
  {
    var sel := RunRestarts(seqs, cfg, start, steps);
    if sel.Failure? {
      return Failure(sel.error);
    }
    KeptSelection(seqs, cfg, start, steps, cfg.nInit, sel.value.best, sel.value.last);
    ghost var outs := Outcomes(seqs, cfg, start, steps, cfg.nInit);
    ghost var b := FirstArgmax(Logprobs(outs));
    assert outs[b] == sel.value.best;
    return Success(Finish(sel.value));
  }

  /** `fit` as written, with `self.vars_ = best_fit['params']['covars']`,
      for any hot start `start`: `_init` as the source writes it
      (`InitAsWritten`) as well as the intended one (`Init`). Every final
      attribute is the winner's except `covars_`, which keeps the last
      restart's, while the winner's covariances go to `vars_`. */
  method FitAsWritten(seqs: seq<seq<Vector>>, cfg: Config, start: int -> Result<Params, InitError>, steps: EmSteps)
    returns (r: Result<Fitted, FitError>)
    ensures r.Success? <==>
              cfg.nInit > 0 && cfg.nEmIter > 0 &&
              forall j :: 0 <= j < cfg.nInit ==> start(j).Success?
    ensures r.Success? ==>
              var outs := Outcomes(seqs, cfg, start, steps, cfg.nInit);
              var b := FirstArgmax(Logprobs(outs));
              && r.value.params.covars == outs[cfg.nInit - 1].params.covars
              && r.value.vars == Some(outs[b].params.covars)
              && r.value.params.(covars := outs[b].params.covars) == outs[b].params
              && r.value.fitLogprob == outs[b].fitLogprob
  {
    var sel := RunRestarts(seqs, cfg, start, steps);
    if sel.Failure? {
      return Failure(sel.error);
    }
    KeptSelection(seqs, cfg, start, steps, cfg.nInit, sel.value.best, sel.value.last);
    return Success(FinishAsWritten(sel.value));
  }

  /** Two restarts where the first wins but the second ends with other
      covariances: as written the model keeps the loser's covariances
      beside the winner's dynamics; restored, it keeps the winner's. */
  lemma AsWrittenLosesWinnerCovariances()
    ensures var p0 := Params([], [[[1.0]]], [], [], [], [], []);
            var p1 := Params([], [[[2.0]]], [], [], [], [], []);
            var outs := [Restart(p0, 0.0, []), Restart(p1, -1.0, [])];
            var sel := Selection(outs[FirstArgmax(Logprobs(outs))], p1);
            && FinishAsWritten(sel).params.covars != p0.covars
            && Finish(sel).params.covars == p0.covars
  {
    var p0 := Params([], [[[1.0]]], [], [], [], [], []);
    var p1 := Params([], [[[2.0]]], [], [], [], [], []);
    var outs := [Restart(p0, 0.0, []), Restart(p1, -1.0, [])];
    assert Logprobs(outs) == [0.0, -1.0];
    assert FirstArgmax(Logprobs(outs)) == 0;
    assert [[1.0]][0][0] != [[2.0]][0][0];
  }
}
