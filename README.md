# Adaptive polynomial-chaos basis selection, in Dafny

This project models the basis-selection core of `pyapprox/approximate.py`.
That core builds a sparse polynomial-chaos expansion and picks its
multi-indices with cross-validated regression. The model covers:

- **Admissible expansion** (`expand_basis`), in module `Expansion`. Each index
  proposes its forward neighbours. A neighbour is admitted when it is new and
  every backward neighbour along the active dimensions is known.
- **Restriction** (`restrict_basis`), in module `Restriction`. It keeps the
  columns whose coefficient exceeds a tolerance in magnitude, and it always
  keeps the constant term. The same module holds the final filter of the
  adaptive search, which drops the columns whose coefficient is exactly zero.
- **Multi-QoI merge**, in module `Merge`. It takes the first-seen union of the
  per-QoI index sets, numbered by a dictionary. Each QoI's coefficients are
  then scattered into a zero-initialised matrix (a Dafny `array2`).
- **Degree sweep** (`_cross_validate_pce_degree`), in module `DegreeSearch`.
  The degree rises while a term-count cap allows. The sweep keeps the first
  strictly best score and stops early once two degrees in a row have failed
  to improve it.
- **Expand/restrict search** (`_expanding_basis_pce`), in module
  `ExpandingSearch`. It chooses a seed degree, then runs trials of one to three
  expansions and refits, and keeps the best candidate. It stops two outer
  iterations after the last improvement, then filters out zero coefficients.
- **Option checks of `fit_linear_model`**, in module `Solver`. These cover
  solver-name validation, the refusal of `lars`, the choice between the
  cross-validating and plain estimator, the `max_iter` clamp for `omp`, and
  folding the intercept into the constant-term coefficient.

A multi-index is a `seq<nat>`, one entry per variable. A basis is a
`seq<Index>` holding the columns in order. The Python version compares
indices by their `hash_array` key; here they are compared by value.

Two parts of the source are passed in as function-valued parameters:

- `hyperbolic(d)` stands for `compute_hyperbolic_indices(nvars, d, strength)`.
- `fit(basis)` stands for evaluating the basis matrix on the training samples
  and calling `fit_linear_model`. It returns the coefficients, the
  cross-validation score and the regularisation parameter.

The source saves the random-number state once and restores it around every
fit. Every fit therefore uses the same folds, so the fit is a deterministic
function of the basis.

## Model

| member | source | states |
|---|---|---|
| Expansion.AllBackwardPresent | pyapprox/approximate.py:862-867 | The loop over active dimensions, with its early break, returns true exactly when every backward neighbour of the forward index, along each dimension active in the origin, is in the known set. |
| Expansion.ActiveDimsAgree | pyapprox/approximate.py:857-867 | For an origin that is in the known set, testing along the origin's active dimensions accepts exactly the candidates that the textbook test accepts, which uses the candidate's own active dimensions. |
| Expansion.Consider | pyapprox/approximate.py:859-870 | A forward neighbour is appended exactly when it is not yet known and is admissible. The known set stays equal to the members of the input plus the output. Every appended index has all its backward neighbours earlier in the input or the output. |
| Expansion.ExpandBasis | pyapprox/approximate.py:848-871 | The output is exactly `ExpandSpec`: candidates are taken column by column and dimension by dimension, and each is tested against the input plus the indices admitted before it. Every returned index is the forward neighbour of some input index along some dimension, in discovery order. None is in the input, none is repeated, and each one's backward neighbours come earlier. Every admissible forward neighbour of the input ends up in the input or the output. A downward-closed input stays downward closed once the output is appended. |
| Expansion.ExpandColumn | pyapprox/approximate.py:857-870 | The inner loop over the dimensions of one column admits exactly what `ExpandSpec` admits for that column, and keeps the discovery-order, novelty and admissibility facts of everything admitted so far. |
| Expansion.ChainedAdmission | pyapprox/approximate.py:855-871 | From the columns (0,0), (1,0), (2,0), one expansion returns exactly (0,1), (1,1), (3,0), (2,1). (1,1) is admitted only because (0,1) was admitted earlier in the same call, and (2,1) only because of (1,1). |
| Expansion.ClosedAfterExpansion | pyapprox/approximate.py:848-871 | A downward-closed basis, extended by indices whose backward neighbours each come earlier, is still downward closed. |
| Expansion.AsWrittenRejectsFromConstant | pyapprox/approximate.py:857-867 | The test as written rejects (1), reached from the basis {(0)}, although (1) is admissible. |
| Expansion.AsWrittenAdmitsTooEarly | pyapprox/approximate.py:857-867 | The test as written admits (1,1,1) from (1,1,0) in the downward-closed basis {000,100,010,001,110}, where the per-dimension test refuses it. |
| MultiIndex.DegreeZeroIffZero | pyapprox/approximate.py:839-840 | The total degree is zero exactly for the all-zero index, so the degree test finds the constant term. |
| Restriction.Positions | pyapprox/approximate.py:837 | The kept positions are in range and strictly increasing, and they contain position j exactly when the coefficient at j passes the test. |
| Restriction.RestrictBasis | pyapprox/approximate.py:836-845 | Restriction fails exactly when the basis does not hold exactly one constant term, and then with that error. What survives is stated by the three lemmas below. |
| Restriction.RestrictBasisAsWritten | pyapprox/approximate.py:836-845 | As written, the call fails exactly when the basis does not hold exactly one constant term, or when the constant term's coefficient is within the tolerance. |
| Restriction.RestrictAsWrittenFails | pyapprox/approximate.py:842-844 | The basis [(0),(1)] with coefficients [0,1] and tolerance 0 makes the written code raise in its re-add branch. |
| Restriction.SmallBasis | pyapprox/approximate.py:837-841 | On the same input, the constant term is found at position 0 and only position 1 passes the tolerance, so the re-add branch is taken. |
| Restriction.RestrictKeepsAnchor | pyapprox/approximate.py:839-845 | Restriction fails exactly when the basis does not hold exactly one constant term. A successful result holds exactly one constant term, whatever its coefficient. |
| Restriction.RestrictKeepsExactly | pyapprox/approximate.py:837-845 | For a basis without repeats, an index survives restriction exactly when its coefficient exceeds the tolerance in magnitude or it is the constant term. |
| Restriction.RestrictIdempotent | pyapprox/approximate.py:836-845 | When the constant term already passes the tolerance, restricting the restricted basis (with its coefficients) gives the same basis again. |
| Restriction.DropZeroCoefficientsSound | pyapprox/approximate.py:1072-1075 | The filtered indices and coefficients stay aligned and contain no zero coefficient. Every nonzero input column survives, and every surviving column is an input column. |
| Restriction.DropZeroCoefficients | pyapprox/approximate.py:1072-1075 | The filtered indices and coefficients have the same length, at most the input's. |
| Merge.AddNewProps | pyapprox/approximate.py:762-766 | Adding one QoI's indices keeps the earlier union as a prefix. It adds exactly the missing indices and no duplicates. |
| Merge.AddNewPrefix | pyapprox/approximate.py:762-766 | Within one QoI, the union built from a prefix of its indices is a prefix of the full union (first-seen order). |
| Merge.UnionMembers | pyapprox/approximate.py:762-768 | The union has no duplicates, holds every index of every QoI, and holds nothing else. |
| Merge.UnionPrefix | pyapprox/approximate.py:762-766 | The union of the first k QoIs is a prefix of the union of all QoIs. |
| Merge.EntryOfDistinct | pyapprox/approximate.py:770-773 | For a QoI without repeated indices, the merged coefficient of its j-th index is its j-th coefficient. |
| Merge.EntryAbsent | pyapprox/approximate.py:769-773 | An index that a QoI does not use gets coefficient 0 in that QoI's column. |
| Merge.NumberIndices | pyapprox/approximate.py:762-766 | The numbering loop produces the first-seen union without duplicates. The dictionary maps each union member to its column, and maps nothing else. |
| Merge.ScatterCoefficients | pyapprox/approximate.py:768-773 | The new matrix has one row per union index and one column per QoI. Each entry is that QoI's coefficient for the row's index (the last write wins), or 0 when the QoI does not use the index. |
| Merge.ScatterColumn | pyapprox/approximate.py:771-773 | For one QoI, its zero column receives that QoI's merged coefficient in the row of each union index. The other columns are unchanged. |
| Merge.MergeQoIs | pyapprox/approximate.py:762-775 | The merge block as a whole gives the first-seen union and the scattered coefficient matrix. |
| Solver.ParseSolver | pyapprox/approximate.py:578-589 | The table lookup succeeds exactly for lasso, lasso_grad, lars, omp and lstsq, each mapped to its own kind. Any other name fails as unsupported, carrying the name. |
| Solver.PlanFit | pyapprox/approximate.py:578-636 | Accepted names are exactly lasso, lasso_grad, omp and lstsq. lars is refused with its own error; any other name is unsupported. The cross-validating estimator is used exactly when cv is given and is not False. cv is passed on unchanged. max_iter changes only for omp, where it becomes min(max_iter, number of columns). |
| Solver.FoldIntercept | pyapprox/approximate.py:647 | The call fails exactly on an empty coefficient vector. Otherwise the first coefficient grows by the intercept and the others are unchanged. |
| Solver.FitLinearModel | pyapprox/approximate.py:575-678 | The call fails exactly in five cases: the plan is refused; cv is False; lstsq is given `max_iter`, which the least-squares constructors (lines 522 and 538) do not take; cv is given with lasso_grad, whose LassoCV result has no branch in the parameter extraction; or the estimator returns no coefficients. lstsq with `max_iter` fails with its own error exactly when cv is not False. Otherwise the coefficients are the estimator's with the intercept folded in. The score and parameter are present exactly when a cv value other than False was given, and they are then the estimator's. |
| DegreeSearch.OverCap | pyapprox/approximate.py:804-806 | The cap rule fires only above 100000 terms. At the first degree (previous count 0) it fires exactly above 200000 terms. When the previous count is within the cap and the new one above it, the rule fires exactly when the previous count is strictly closer to the cap. |
| DegreeSearch.ScanOne | pyapprox/approximate.py:819-826 | Fitting one more degree, when the score rule does not fire, keeps the sweep invariant. The best degree is still the first one with the least score, and every degree before it scored strictly worse. The running best is still `BestBefore`, and the score rule has fired at no degree so far. |
| DegreeSearch.Sweep | pyapprox/approximate.py:792-826 | Each fitted degree is within the term cap, and the score rule fired at none of them. The best score starts at the largest double and only strictly smaller scores replace it, so the best is `BestBefore` at the stop. The loop ends at the first degree where the cap rule or the score rule fires, or past the maximum degree. |
| DegreeSearch.CrossValidateDegree | pyapprox/approximate.py:781-833 | Defaults are min 2 and max the largest int minus 1. The sweep stops at the first degree where the cap rule or the score rule fires (or past the maximum), so the stopping degree is determined by the scores. On success, the returned degree is the first with the least score among those compared, and it is the running best at the stop. Its basis is the hyperbolic cross of that degree, and its coefficients, score and parameter are that fit's. No earlier degree ties it, and the sweep stopped within two degrees of it. When nothing beat the initial score, the result is an error. |
| ExpandingSearch.MaxTerms | pyapprox/approximate.py:975-976 | A given limit is used as is. A missing one becomes ten times the number of QoI columns, which is one here. |
| ExpandingSearch.SeedDegree | pyapprox/approximate.py:977-989 | The loop stops at the first degree from 2 upward whose term count exceeds the limit. That degree is `TopOf` the returned seed. The result steps back one degree exactly when the previous count (0 below degree 3) is strictly closer to the limit. |
| ExpandingSearch.ExpandOnce | pyapprox/approximate.py:1026-1027 | One in-place expansion is the basis followed by exactly its expansion. The old basis stays a prefix, shape and downward closure are kept, and so is the number of constant terms, since no forward neighbour is the zero index. |
| ExpandingSearch.ExpandSteps | pyapprox/approximate.py:1024-1029 | Expands min(trial, best step count) times, and the result is that many successive expansions of the basis. The old basis stays a prefix, every column keeps its shape, downward closure is kept, the number of constant terms is kept, and the term count is the grown basis size. |
| ExpandingSearch.Trial | pyapprox/approximate.py:1021-1029 | A trial fails exactly when the basis does not hold exactly one constant term, with restriction's error. Otherwise it expands min(trial, best step count) times, and the result is that many successive expansions. |
| ExpandingSearch.RunTrial | pyapprox/approximate.py:1021-1051 | One trial followed by its fit. The grown basis is appended to the trial log. It becomes the pick exactly when it scores strictly below the best so far, and the log keeps its invariant. |
| ExpandingSearch.TrialLogAppend | pyapprox/approximate.py:1046-1051 | Recording a trial keeps the log: trial t starts from trial t-1's basis and expands min(t, best step count) times. The pick is the first trial that scores strictly below the incoming best and reaches the least score, or none when no trial beats it. |
| ExpandingSearch.Trials | pyapprox/approximate.py:1015-1058 | Runs one to three trials; trial t expands the previous trial's basis min(t, best step count) times. The returned basis is the last trial's, with its fit, and holds one constant term. Every trial before the last is below the term limit, and fewer than three trials happen only when the last reaches it. The returned best is the incoming best when no trial scores lower. Otherwise it is the fit of the first trial that reaches the least score, with that trial's expansion count. The call fails, with restriction's error, exactly when the basis does not hold exactly one constant term. |
| ExpandingSearch.TrialLogImproves | pyapprox/approximate.py:1046-1051 | From the log: the iteration's best never scores higher than the incoming best. A changed best is the fit of a basis grown from the iteration's start with a strictly lower score. The step count stays in 1..3. |
| ExpandingSearch.Iteration | pyapprox/approximate.py:1015-1058 | Returns the record of the trials that ran: their bases, expansion counts and pick, which satisfy everything `Trials` states, started from the working basis with the running step count. The carried basis is the last trial's, and the new best and step count are those the record determines. The new best succeeds the old one: no higher score, and any change is a strictly better fit of a basis grown from the seed basis. The call fails, with restriction's error, exactly when the basis does not hold exactly one constant term. |
| ExpandingSearch.LoggedAppend | pyapprox/approximate.py:1013-1070 | Appending one outer iteration, started from the last carried basis and step count and from the last running best, keeps the log: each iteration starts where the one before left off. |
| ExpandingSearch.RoundsStep | pyapprox/approximate.py:1060-1070 | An outer iteration improves exactly when its best changed, which is exactly when it scores strictly lower. The loop stops at iteration `best_it + 2` exactly when that iteration does not improve; otherwise the loop state is kept. |
| ExpandingSearch.StepImproves | pyapprox/approximate.py:1060-1066 | After an iteration whose best scores strictly lower, that best, its step count and the current iteration become the running ones, and the loop state and the log hold for the next iteration, whose working basis is the last trial's. |
| ExpandingSearch.StepContinues | pyapprox/approximate.py:1060-1070 | After a non-improving iteration before `best_it + 2`, the running best and its step count are kept, and the loop state and the log hold for the next iteration. |
| ExpandingSearch.StepStops | pyapprox/approximate.py:1067-1068 | A non-improving iteration at `best_it + 2` ends the search: the log is complete, the stopping rule holds, and the running best is the last entry of the history. |
| ExpandingSearch.OuterStep | pyapprox/approximate.py:1013-1070 | One pass of the outer loop body fails exactly when the seed basis does not hold exactly one constant term, leaving the log unchanged. Otherwise it records the iteration that ran and either stops with the rule satisfied or hands on the loop state for the next iteration. |
| ExpandingSearch.ScoresFall | pyapprox/approximate.py:1060-1061 | Along the history of bests, scores never rise. |
| ExpandingSearch.BestIsFirstMinimum | pyapprox/approximate.py:1060-1068 | The returned candidate has the least score of the history, and nothing changes after `best_it`. When iteration `best_it` improved, every earlier best scored strictly higher, so the returned candidate is the first to reach the minimum. |
| ExpandingSearch.OuterLoop | pyapprox/approximate.py:1010-1070 | Returns the log of the outer iterations that ran. Iteration k started from the basis and step count in `carries[k]` (the seed basis and 3 for the first), ran the trials recorded in `rounds[k]` as `Trials` states them, took the running best from `history[k]` to `history[k + 1]`, and handed its last trial's basis on as `carries[k + 1]`. On success the history descends from the seed fit and ends with the returned candidate, and the loop stopped at iteration `best_it + 2`. The candidate is a fit of a basis grown from the seed basis, no worse than the seed fit. The call fails with restriction's error exactly when there is fuel and the seed basis does not hold exactly one constant term. Running out of fuel leaves a history of fuel + 1 bests in the loop state after the last iteration. |
| ExpandingSearch.ExpandingBasisPce | pyapprox/approximate.py:968-1075 | Every degree from 2 below the seed is within the term limit. The degree at which the seed loop stopped is the first one above the limit. The seed steps back from it exactly when the previous count is strictly closer to the limit. The log of outer iterations is the one `OuterLoop` states, from the seed's hyperbolic cross. On success, the history of bests descends from the seed fit and the search stopped at iteration `best_it + 2`. The result is the zero-filtered last best, which is the fit of a basis grown from the seed's hyperbolic cross. It scores no worse than the seed fit, its indices and coefficients are aligned, and no coefficient is zero. The search fails with restriction's error exactly when there is fuel and the seed basis does not hold exactly one constant term. Running out of fuel is stated as in `OuterLoop`. |

## Left out

- Printing (`verbose`), building the basis matrix and the scikit-learn estimators: the fit and the hyperbolic cross are function-valued parameters, and the cross-validation score and the best regularisation parameter are fields the estimator returns.
- The saving and restoring of the random-number state: it is what makes `fit` a function of the basis, and it is modelled as exactly that.
- `compute_hyperbolic_indices`, `get_forward_neighbor`, `get_backward_neighbor` and `hash_array` are not part of this model. Forward and backward neighbours are written out directly, and index keys are replaced by equality of values.
- Floating point: coefficients and scores are `real`. `np.finfo(np.double).max` appears as its exact value. The default `restriction_tol` (twice the machine epsilon) is left to the caller as an ordinary parameter.
- ExpandingSearch.OuterLoop: the outer `while True` loop is bounded by a `fuel` parameter and returns `OutOfFuel` when the fuel runs out. The source has no such bound.
- ExpandingSearch.ExpandingBasisPce: the seed loop needs a degree whose hyperbolic cross exceeds the term limit. That degree is a ghost parameter; the source's loop has no such bound.
- ExpandingSearch.Trial: the model calls the corrected `RestrictBasis` (see Findings), so a trial fails only when the basis does not hold exactly one constant term. As written, `restrict_basis` raises whenever the constant term's coefficient is within the tolerance (lines 842-844), and that exception ends the whole search; the model carries on instead. The restricted basis is never used (line 1022), so the model expands the current working basis, as the source does.
- ExpandingSearch.ExpandSteps: numpy's `hstack` of an empty expansion result (a one-dimensional empty array) raises a shape error. The model appends nothing instead.
- ExpandingSearch.ExpandingBasisPce and DegreeSearch.CrossValidateDegree: the fits inside both searches always return a score. A fit without a `cv` keyword returns `None`, and the source then compares `None` with a number (line 1046, and line 819 in the degree sweep); that case is not modelled.
- DegreeSearch.CrossValidateDegree: when no degree beats the initial score, the source calls `set_coefficients(None)` and then reads an unbound `best_reg_param`. The model returns the error `NoImprovement` instead. The function's own default `min_degree=1` (used when the argument is omitted) is the caller passing `Some(1)`. The model's `None` is an explicit `None`, which the function replaces by 2.
- Solver.FitLinearModel: omp with cross validation is taken to be the patched `OrthogonalMatchingPursuitCV` that the comment at lines 625-626 asks for, which stores `mse_path_`. Unpatched, line 678 would raise. With `cv=False`, lstsq fails in the constructor (line 522 takes no `cv`). The other kinds fail at the score extraction (lines 672-678); whether the scikit-learn constructors already refuse the keyword is not part of this model. Likewise, lstsq given `max_iter` fails because its constructors take no such keyword, while the plain `OrthogonalMatchingPursuit` constructor's own refusal of `max_iter` is outside this model: omp without cross validation accepts it here. The shape assertions on `train_vals` (lines 597-598) are met by construction, since only a single QoI column is modelled.
- Merge.MergeQoIs: the three merge blocks (lines 762-775, 950-963, 1138-1151) are identical and are modelled once. The per-QoI fitting loops around them and the packaging into `ApproximateResult` are outside this model.
- The polynomial-chaos object's `set_indices` and `set_coefficients` are modelled as returned values, not as updates to a shared object.
- ExpandingSearch.SeedDegree: the seed can exceed the term limit. When the counts above and below are equally far from the limit, the degree with more terms is kept. The model follows the code here, not the informal description of choosing "the closest without exceeding".

## Findings

| source | as written | input that shows it | evidently intended | confidence | as-written member | corrected member |
|---|---|---|---|---|---|---|
| pyapprox/approximate.py:857-867 | `np.nonzero` returns a tuple, so `for kk in active_vars` runs once, with `kk` the array of all active dimensions. The one neighbour checked has every active coordinate lowered at once, and nothing is lowered for the constant term. | From the basis {(0)}, the candidate (1) is rejected. From {000,100,010,001,110}, (1,1,1) is admitted although 011 and 101 are missing. | Test each active dimension separately (`for kk in active_vars[0]`). | medium: relies on `get_backward_neighbor` decrementing at the given positions; not executed | Expansion.AsWrittenRejectsFromConstant, Expansion.AsWrittenAdmitsTooEarly | Expansion.ExpandBasis, Expansion.ActiveDimsAgree |
| pyapprox/approximate.py:842-844 | The re-add branch refers to `restrict_indices`, a name that is not defined, and slices `indices[:J]` instead of taking column J. | Basis [(0),(1)], coefficients [0,1], tolerance 0. | Put the constant-term column in front of the kept columns. | high: the name is defined nowhere; not executed | Restriction.RestrictAsWrittenFails | Restriction.RestrictKeepsAnchor |
