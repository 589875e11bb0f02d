# msmbuilder core in Dafny: MSLDS fitting, sparse tICA solving, docstring rewriting

This project models three pieces of msmbuilder and proves properties about them.

- **The Metastable Switching Linear Dynamical System** (`MetastableSwitchingLDS` in `Mixtape/mslds.py`), covering:
  - the k-means hot start `_init`;
  - the restart / best-of-N driver of `fit`;
  - the forward sampler `sample`;
  - the metastable-well formula `compute_metastable_wells`;
  - the property setters, which mirror every parameter into the compiled inference engine (`_impl`).
- **Sparse tICA's solve driver** (`SparseTICA._solve` in `msmbuilder/decomposition/sparsetica.py`), covering:
  - the dirty flag;
  - the hand-off to plain tICA when `rho <= 0`;
  - the deflation loop around the sparse eigensolver;
  - the descending sort that keeps each eigenvector beside its eigenvalue;
  - the `active` line of `summarize`.
- **`_replace_labels`** (`msmbuilder/cluster/__init__.py`). It rewrites the `labels_` entry of a scikit-learn docstring.

## How it is modelled

- **Foreign numerical calls** enter as function-typed parameters, and the model fixes only what is done with their answers. These are:
  - k-means, `np.cov` and `np.linalg.inv`;
  - the engine's E-step and the M-step;
  - the categorical and Gaussian draws;
  - `speigh`, `scdeflate`, and the base class's tICA solve.
- **Matrices** are `seq<seq<real>>`.
- **Python and numpy semantics** are written out where they decide a branch:
  - slice clamping, including a negative stop;
  - negative indices into an axis;
  - broadcasting a length-1 vector into a row or column;
  - the truthiness of `None` versus `0`;
  - `str.strip` with Python's white-space set;
  - `str.splitlines` with every line separator Python knows (`"\r\n"` counts as one);
  - `'%d'` formatting.
- **Failures** the source raises are `Result` failures:
  - `IndexError`, `KeyError` and `NameError`;
  - `LinAlgError`;
  - `np.vstack` of nothing;
  - a vector numpy cannot store in a row or column.

Modules:
- `Wrappers`: `Option` and `Result`.
- `Linalg`: vectors, matrices and sums.
- `Mslds`: hot start, wells, sampler and setters.
- `MsldsFit`: the `fit` driver.
- `Argsort`: `np.argsort(x)[::-1]`.
- `Decimal`: `'%d'` and reading it back.
- `SparseTica`: `_solve` and the active count of `summarize`.
- `ClusterDoc`: `_replace_labels`.

## Model

| member | source | states |
|---|---|---|
| Mslds.HotStartCount | Mixtape/mslds.py:83-84 | The number of sequences the hot start pools follows Python's `min` and slice rule. It is at most the number of sequences. A negative `n_hotstart_sequences` counts from the end. |
| Mslds.FloorZeros | Mixtape/mslds.py:97 | Exactly the zero covariance entries are replaced by 1e-5. Every other entry is kept. |
| Mslds.Assemble | Mixtape/mslds.py:89-122 | The hot-start parameter set has the following properties. All K-by-D shapes hold. The means are the k-means centers. Every state's covariance is the floored pooled covariance. `Qs` is eps times it. `transmat` and `populations` are uniform 1/K. Every state gets the same starting dynamics. Each offset is `b_k = (I - A_k) m_k`. |
| Mslds.HotStart | Mixtape/mslds.py:76-122 | The hot start fails in the source's order: empty pool, then clustering failure. It succeeds exactly when the pool is non-empty, clustering succeeds, K > 0 and the shapes fit. A success is the assembled, well-formed parameter set. |
| Mslds.InitAsWritten | Mixtape/mslds.py:105-109 | With `np.eye(D) - eps` as written, every entry of every `A_k` is `delta_ij - eps`, off-diagonal entries included. |
| Mslds.Init | Mixtape/mslds.py:105-109 | With the intended damping, every `A_k` is `(1 - eps) I`. The result is well formed. |
| Mslds.HotStartStochastic | Mixtape/mslds.py:99-103 | After a hot start, every `transmat` row and `populations` sum to 1, so both are probability distributions. |
| Mslds.AsWrittenOffsets | Mixtape/mslds.py:111-116 | With the dynamics as written, every coordinate of `b_k` equals eps times the sum of the center's coordinates. The center is lost. |
| Mslds.PyIndex | Mixtape/mslds.py:139-140 | numpy indexing accepts exactly `-n <= i < n`. A negative index counts from the end. |
| Mslds.Wells | Mixtape/mslds.py:201-210 | The wells succeed exactly when the inverse of every `I - A_k` exists with the right shape. Row k is `(I - A_k)^{-1} b_k`. A `Singular(k)` failure names a state whose inverse was refused. |
| Mslds.WellsPrefix | Mixtape/mslds.py:205-210 | The well loop over the first n states succeeds iff each of their `I - A_k` has an inverse of the right shape. Row k is then `(I - A_k)^{-1} b_k`. A `Singular` failure names one of those states whose inverse was refused. |
| Mslds.WellsRecoverCenters | Mixtape/mslds.py:201-210 | Whenever `b_k = (I - A_k) m_k` and the inverse is honest, the well formula returns exactly the means. It inverts the hot start's offset construction. |
| Mslds.DampedGapInvertible | Mixtape/mslds.py:208-209 | `I - (1 - eps) I` has the inverse `(1/eps) I`. |
| Mslds.InitWellsAreCenters | Mixtape/mslds.py:201-210 | After the intended hot start, an honest and complete inverse always succeeds. The wells are the k-means centers, for every D. |
| Mslds.AsWrittenGapSingular | Mixtape/mslds.py:109 | For D >= 2, `I - (np.eye(D) - eps)` has no left inverse, because it maps `e_0 - e_1` to zero. |
| Mslds.AsWrittenWellsFail | Mixtape/mslds.py:201-210 | After the hot start as written with D >= 2, the wells cannot be computed under any honest inverse, in exact arithmetic. |
| Mslds.AsWrittenOneFeatureAgrees | Mixtape/mslds.py:109 | With one feature, the line as written and the intended one give the same hot start. |
| Mslds.Sample | Mixtape/mslds.py:124-153 | `sample` has the following error paths: a negative length fails; a zero length is the `IndexError` on slot 0; an out-of-range state index fails; an unbroadcastable observation fails. With in-range draws and arguments it always succeeds. On success, both arrays have `n_samples` entries. The start is the given state and observation or drawn ones. Each step draws from `N(A_s x_t + b_s, Q_s)` and from row s of `transmat`, for the state s at step t. |
| Mslds.Start | Mixtape/mslds.py:131-142 | Step 0 takes the given state or draws one from `populations`. It takes the given observation, broadcast into a D-vector, or draws one from that state's `N(means_s, covars_s)`. An out-of-range state index or an observation of the wrong length fails. With in-range draws and arguments it always succeeds. |
| Mslds.Step | Mixtape/mslds.py:145-151 | One time update reads state s as numpy indexes it. The next observation is the draw from `N(A_s x_t + b_s, Q_s)` and the next state the draw from row s of `transmat`. An out-of-range state index or a draw of the wrong length fails. From an in-range state with in-range draws it succeeds, and the next state is in range. |
| Mslds.Assign | Mixtape/mslds.py:240-304 | A property setter puts the value into the model's field and into the engine's copy. Nothing else changes in either. Equal copies stay equal. |
| Mslds.SettersKeepMirror | Mixtape/mslds.py:240-304 | Any sequence of setter writes keeps the engine's copy identical to the model's parameters. The last write's value is in place. |
| Mslds.InitInstallsEverywhere | Mixtape/mslds.py:89-122 | From any prior state, the hot start's seven assignments leave both the model and the engine holding exactly the new parameter set. |
| MsldsFit.EmLoop | Mixtape/mslds.py:171-178 | After one restart's loop, the parameters are `n_em_iter` E/M rounds from the hot start. `curr_logprob` is bound iff a round ran, and it is the last round's E-step value. `fit_logprob` holds exactly the values of rounds `n_hotstart <= i < n_em_iter`, in order. |
| MsldsFit.FirstArgmax | Mixtape/mslds.py:179-188 | A strict `>` scan against the best so far keeps an index of the maximum whose predecessors are all strictly smaller. |
| MsldsFit.FirstArgmaxUnique | Mixtape/mslds.py:179-188 | The first position of the maximum is the only index with those two properties. Ties go to the earliest restart. |
| MsldsFit.KeptStep | Mixtape/mslds.py:179-188 | One round of the comparison extends "first best of the restarts so far" to one more restart. |
| MsldsFit.RunOne | Mixtape/mslds.py:170-188 | One restart of the loop succeeds iff its hot start succeeds and at least one E/M round runs. A failed hot start is reported with its restart number. On success the kept restart is the first best among the restarts so far. |
| MsldsFit.RestartLoop | Mixtape/mslds.py:168-188 | The loop over at least one restart fails only with a hot-start failure or the unbound `curr_logprob`. A hot-start failure names a restart below `n_init`, all of whose predecessors succeeded. The unbound `curr_logprob` happens only with no E/M rounds, after restart 0's hot start succeeded. The loop succeeds iff every hot start succeeds and a round runs. It then keeps the first best restart and the last restart's parameters. |
| MsldsFit.EmLoopIsRestart | Mixtape/mslds.py:170-178 | The inner loop computes exactly the specified outcome of that restart. |
| MsldsFit.RunRestarts | Mixtape/mslds.py:168-188 | The restart loop has these outcomes. `n_init <= 0` is the `KeyError` of an empty best fit. A failing hot start is reported with its restart number, and all earlier ones succeeded. `n_em_iter <= 0` is the unbound `curr_logprob`. Success holds iff all `n_init` hot starts succeed and a round runs. The kept restart is the first one with the greatest final log-likelihood. |
| MsldsFit.FinishAsWritten | Mixtape/mslds.py:189-197 | As written, `covars_` keeps the last restart's covariances and `vars_` gets the winner's. Every other parameter and `fit_logprob_` are the winner's. |
| MsldsFit.Fit | Mixtape/mslds.py:164-199 | `fit` succeeds under the same condition as the loop. The result is the complete parameter set and trace of a restart with the greatest log-likelihood, first among equals. The trace has `n_em_iter - n_hotstart` entries, clamped at 0. |
| MsldsFit.FitFrom | Mixtape/mslds.py:164-199 | For any hot start, `fit` succeeds iff `n_init > 0`, a round runs and every hot start succeeds. It then returns the parameter set and trace of a restart whose final log-likelihood is the greatest, with every earlier restart strictly lower. The trace has `n_em_iter - n_hotstart` entries, clamped at 0. |
| MsldsFit.FitAsWritten | Mixtape/mslds.py:164-199 | For any hot start, the line-109 one as written included, `fit` as written succeeds under the same condition as `FitFrom`. It ends with the first best restart's means, dynamics, offsets, `Qs_`, `transmat_`, `populations_` and trace, but with the last restart's covariances. The winner's covariances end up in `vars_`. |
| MsldsFit.AsWrittenLosesWinnerCovariances | Mixtape/mslds.py:191 | Take two restarts where the first wins. As written, the model holds the loser's covariances. Restored, it holds the winner's. |
| Linalg.Broadcast | msmbuilder/decomposition/sparsetica.py:159 | numpy stores a vector in an n-slot row or column exactly when it has n entries or 1. The stored vector is the original or its entry repeated. |
| Argsort.ArgsortDescending | msmbuilder/decomposition/sparsetica.py:163 | `np.argsort(x)[::-1]` is a permutation of the indices. It lists x in non-increasing order. Read through it, x keeps its multiset of values. |
| Argsort.PermutationDistinct | msmbuilder/decomposition/sparsetica.py:163-165 | A permutation of `0..n-1` has n entries, all in range and pairwise distinct. |
| SparseTica.Solve | msmbuilder/decomposition/sparsetica.py:139-167 | A clean estimator is returned unchanged. `rho <= 0` defers entirely to the base solve. Otherwise the call succeeds iff every component's vector fits a column; a failure names the first component that does not fit. On success, only the flag, values and vectors change. Component c holds the value and vector of the c-th largest solver pair, each vector beside its own value. The values are non-increasing and a permutation of the deflation sequence's values. The flag is cleared. |
| SparseTica.Deflate | msmbuilder/decomposition/sparsetica.py:150-160 | The deflation loop succeeds iff every component's vector fits a column. A failure names the first component that does not fit, with its vector's length. On success, slot c holds the c-th deflation round's value and column c its vector. |
| SparseTica.OrderListsEachComponentOnce | msmbuilder/decomposition/sparsetica.py:162-165 | The sort order names every component exactly once. No pair is dropped or duplicated. |
| SparseTica.CountNonzeroIsSupport | msmbuilder/decomposition/sparsetica.py:171 | The count of `abs(x) > 0` entries equals the size of the vector's support set. |
| SparseTica.ActiveCounts | msmbuilder/decomposition/sparsetica.py:171-172 | There is one count for each of the first min(n_components, 5) columns. Each count is the size of that column's support and at most the number of features. |
| SparseTica.ActiveTextRoundTrip | msmbuilder/decomposition/sparsetica.py:172 | The `[n/f, ...]` line reads back as exactly the counts it was written from, each paired with the feature count. |
| SparseTica.ActiveReportsColumns | msmbuilder/decomposition/sparsetica.py:171-172 | The `active` line of a solved estimator lists at most five columns. Each entry is its column's number of nonzero loadings out of `n_features`. |
| Decimal.ReadNatToString | msmbuilder/decomposition/sparsetica.py:172 | `'%d' % n`, followed by text that does not start with a digit, reads back as n and that text. |
| Decimal.NatToStringInjective | msmbuilder/decomposition/sparsetica.py:172 | Different counts never print the same. |
| ClusterDoc.StripEmptyIffBlank | msmbuilder/cluster/__init__.py:46 | A line strips to `''` exactly when it is all white space. |
| ClusterDoc.StripIsSlice | msmbuilder/cluster/__init__.py:42 | `strip()` removes only white space, from both ends, and leaves none at either end. |
| ClusterDoc.JoinSplitLines | msmbuilder/cluster/__init__.py:37-47 | For a docstring that breaks lines with `\n` only, `'\n'.join(doc.splitlines())` is the docstring less one final newline. |
| ClusterDoc.SplitJoinLines | msmbuilder/cluster/__init__.py:52-56 | Lines free of breaks, the last not empty, split back out of their `\n` join unchanged. |
| ClusterDoc.JoinSplitBound | msmbuilder/cluster/__init__.py:37-47 | Joining any prefix of the split lines never gives more text than the docstring. |
| ClusterDoc.Locate | msmbuilder/cluster/__init__.py:40-47 | The span to rewrite exists iff there is an `Attributes` heading, then a `labels_` line at or after it, then a blank line after that. The `labels_` line comes after the heading and before the blank line. |
| ClusterDoc.Scan | msmbuilder/cluster/__init__.py:38-47 | The scan's two offsets are both set iff the span exists. They are then the start of that `labels_` line and the end of that blank line, as `len('\n'.join(...))` counts them. The `not labelstart` truthiness tests never re-trigger. |
| ClusterDoc.ReplaceLabels | msmbuilder/cluster/__init__.py:34-57 | A docstring without the span is returned unchanged. Otherwise `0 < start < end <= len(doc)`, the text between is replaced by the new two-line entry, and everything before and after is kept. |
| ClusterDoc.ReplacementLines | msmbuilder/cluster/__init__.py:52-56 | The replacement is the new entry line and the new description line, each ended by a newline. |
| ClusterDoc.OffsetsInDoc | msmbuilder/cluster/__init__.py:44-57 | This covers docstrings that break lines with `\n` only. The rewrite starts right after a newline, and the `labels_` line's text begins at that offset. It stops right where the blank line's text ends, which follows a newline. The stop is a newline or the end of the docstring. |

## Left out

- The `float32` conversions: `ensure_type` and the setters' `np.asarray(..., dtype=np.float32)`. Parameters are exact reals.
- Mslds.AsWrittenWellsFail: holds in exact arithmetic only. The setters store `float32`, where the line-109 gap `I - A_i` is nearly but not exactly singular, so `np.linalg.inv` succeeds and the wells come out far from the centers instead of failing.
- `distribute_covar_matrix_to_match_covariance_type(cv, 'full', K)` is not called as a parameter: for the `'full'` type it stacks K copies of `cv`, and `Mslds.Assemble` builds those copies directly.
- `score`, `compute_process_covariances` and `compute_eigenspectra` are not part of the core modelled here.
- KMeans, `np.cov`, `np.linalg.inv`, the engine's `do_estep`, the M-step and the random draws are parameters:
  - `_do_mstep` is not defined in `Mixtape/mslds.py`;
  - the engine is compiled code.
- `speigh`, `scdeflate` and the tICA base class's `_solve` are parameters. The base class is not part of this model.
- Mslds.Sample: numpy's silent truncation of a float `init_state` and of draws to `int` is not modelled. States are integers.
- Mslds.InitInstallsEverywhere: in-place edits after a setter are folded into the value written. Examples are line 97's floor and the `As_[i]` fill. This assumes the engine shares the model's array, as the setters hand it the same object.
- MsldsFit.RunRestarts: the `-inf` sentinel is modelled as "no best yet", so restart 0 always wins the first comparison. A NaN or `-inf` log-likelihood would leave `best_fit['params']` empty; that case is not modelled, because log-likelihoods are reals.
- MsldsFit.Fit: possible aliasing between a kept restart's arrays and later M-steps is not modelled. The kept parameters are values.
- Argsort.ArgsortDescending: equal eigenvalues come out latest index first, as a stable ascending sort reversed would give. numpy's default quicksort does not promise any tie order, so the model fixes one.
- The rest of `summarize`'s text and its `n_components` of `None` are not modelled. Only the `active` field is.
- ClusterDoc.OffsetsInDoc: only covers docstrings whose lines end in `\n`. The other separators that `splitlines` honours make the `'\n'.join` offsets drift from the docstring, and `ReplaceLabels` computes them as the source does.
- ClusterDoc.ReplacementLines: does not state that splitting the replacement gives back its two lines.
- Module imports, warning filters, `__all__`, the tests and `setup.py` carry no behaviour of the core.

## Findings

| source | as written | input that shows it | evidently intended | confidence | as-written member | corrected member |
|---|---|---|---|---|---|---|
| Mixtape/mslds.py:109 | `self.As_[i] = np.eye(self.n_features) - self.eps` subtracts eps from every entry, so `I - A_i` is eps in every entry | any hot start with `n_features = 2`: `I - A_i = [[0.2, 0.2], [0.2, 0.2]]` is singular in exact arithmetic, so `compute_metastable_wells` has no wells to return and every `b_i` forgets its center; in the `float32` the setters store (see Left out) it is only nearly singular, so `np.linalg.inv` returns a huge ill-conditioned inverse and the wells are not the centers | `A_i = (1 - eps) I`, a damped identity, whose wells are the k-means centers | not executed | Mslds.InitAsWritten, Mslds.AsWrittenWellsFail | Mslds.Init, Mslds.InitWellsAreCenters |
| Mixtape/mslds.py:191 | `self.vars_ = best_fit['params']['covars']` | two restarts where the first has the greater log-likelihood: `covars_` keeps the second restart's covariances beside the first's means and dynamics | `self.covars_ = best_fit['params']['covars']` | not executed | MsldsFit.FitAsWritten, MsldsFit.AsWrittenLosesWinnerCovariances | MsldsFit.Fit, MsldsFit.FitFrom |
