/** The adaptive expand/restrict search of one QoI (`_expanding_basis_pce`):
    seed-degree choice, the nested trial loops, and the final sparsity
    filter. */
module ExpandingSearch {
  import opened Wrappers
  import opened MultiIndex
  import opened Fitting
  import opened Expansion
  import opened Restriction
  import Solver
  import DegreeSearch

  /** The search handles one QoI column (line 973). */
  const QoiCount: nat := 1

  /** `max_num_terms`, defaulting to ten times the single QoI column. */
  function MaxTerms(maxNumTerms: Option<nat>): (m: nat)
    ensures maxNumTerms.Some? ==> m == maxNumTerms.value
    ensures maxNumTerms.None? ==> m == 10 * QoiCount
  {
    if maxNumTerms.Some? then maxNumTerms.value else 10 * QoiCount
  }

  /** The degree at which the degree loop stopped, recovered from the seed
      degree it chose: the seed itself when it is a degree the loop visits
      whose set is too large, else the degree above. */
  function TopOf(hyperbolic: nat -> seq<Index>, maxNumTerms: nat, seed: nat): (top: nat)
  {
    if seed >= 2 && |hyperbolic(seed)| > maxNumTerms then seed else seed + 1
  }

  /** Seed-degree selection (lines 977-989): raise the degree from 2 while the
      hyperbolic cross has at most `maxNumTerms` terms; at the first degree
      `top` that has more, step back one degree only when the previous count
      is strictly closer to `maxNumTerms`. The ghost `bound` is a degree whose
      set is too large, which makes the `while True` loop terminate. */
  method SeedDegree(hyperbolic: nat -> seq<Index>, maxNumTerms: nat, ghost bound: nat)
    returns (degree: nat, ghost top: nat)
    requires 2 <= bound && |hyperbolic(bound)| > maxNumTerms
    ensures 2 <= top <= bound && |hyperbolic(top)| > maxNumTerms
    ensures forall d :: 2 <= d < top ==> |hyperbolic(d)| <= maxNumTerms
    ensures degree == top || degree + 1 == top
    ensures 1 <= degree && forall d :: 2 <= d < degree ==> |hyperbolic(d)| <= maxNumTerms
    ensures |hyperbolic(degree)| > maxNumTerms || |hyperbolic(degree + 1)| > maxNumTerms
    ensures degree + 1 == top <==>
      DegreeSearch.AbsDiff(DegreeSearch.PrevCount(hyperbolic, 2, top), maxNumTerms)
        < DegreeSearch.AbsDiff(|hyperbolic(top)|, maxNumTerms)
    ensures top == TopOf(hyperbolic, maxNumTerms, degree)
  {
    degree := 2;
    var prevNumTerms := 0;
    var numTerms := |hyperbolic(degree)|;
    while numTerms <= maxNumTerms
      invariant 2 <= degree <= bound
      invariant numTerms == |hyperbolic(degree)|
      invariant prevNumTerms == if degree > 2 then |hyperbolic(degree - 1)| else 0
      invariant forall d :: 2 <= d < degree ==> |hyperbolic(d)| <= maxNumTerms
      decreases bound - degree
    {
      degree := degree + 1;
      prevNumTerms := numTerms;
      numTerms := |hyperbolic(degree)|;
    }
    top := degree;
    if DegreeSearch.AbsDiff(numTerms, maxNumTerms) > DegreeSearch.AbsDiff(prevNumTerms, maxNumTerms) {
      degree := degree - 1;
    }
  }

  /** A basis with the fit obtained on it. */
  datatype Candidate = Candidate(indices: seq<Index>, coef: seq<real>, score: real, regParam: real)

  /** The candidate's coefficients, score and parameter are the fit on its
      basis. */
  ghost predicate FitOf(fit: seq<Index> -> Fit, c: Candidate)
  {
    c.coef == fit(c.indices).coef && c.score == fit(c.indices).score && c.regParam == fit(c.indices).regParam
  }

  /** The basis grows only by admissible expansion: `old` is a prefix of
      `grown`, the shape is kept, and closure under backward neighbours is
      kept. */
  ghost predicate GrownFrom(base: seq<Index>, grown: seq<Index>, nvars: nat)
  {
    && base <= grown
    && (Shaped(base, nvars) ==> Shaped(grown, nvars))
    && (DownwardClosed(Members(base)) ==> DownwardClosed(Members(grown)))
  }

  lemma GrownFromTrans(a: seq<Index>, b: seq<Index>, c: seq<Index>, nvars: nat)
    requires GrownFrom(a, b, nvars) && GrownFrom(b, c, nvars)
    ensures GrownFrom(a, c, nvars)
  {
  }

  /** One in-place expansion (lines 1027-1028): the basis followed by its
      new indices. */
  method ExpandOnce(basis: seq<Index>, nvars: nat) returns (grown: seq<Index>)
    requires Shaped(basis, nvars)
    ensures grown == basis + ExpandSpec(basis, nvars)
    ensures GrownFrom(basis, grown, nvars)
    ensures ZeroCount(grown) == ZeroCount(basis)
  {
    var added, origins := ExpandBasis(basis, nvars);
    forall j | 0 <= j < |added|
      ensures !IsZero(added[j])
    {
      ForwardNotZero(basis[origins[j].0], origins[j].1);
    }
    ZeroCountNoZeroBack(added);
    ZeroCountAppend(basis, added);
    grown := basis + added;
  }

  lemma ExpandTimesNext(basis: seq<Index>, nvars: nat, n: nat)
    requires Shaped(basis, nvars)
    ensures ExpandTimes(basis, nvars, n + 1)
         == ExpandTimes(basis, nvars, n) + ExpandSpec(ExpandTimes(basis, nvars, n), nvars)
  {
  }

  /** The expansion loop of lines 1024-1029: expand the current basis in
      place while fewer than `maxSteps` and fewer than `bestSteps` steps
      were taken; `numTerms` is the basis size after the last step. */
  method ExpandSteps(basis: seq<Index>, nvars: nat, maxSteps: nat, bestSteps: nat, numTerms0: nat)
    returns (grown: seq<Index>, steps: nat, numTerms: nat)
    requires Shaped(basis, nvars)
    ensures steps == Solver.Min(maxSteps, bestSteps)
    ensures GrownFrom(basis, grown, nvars) && Shaped(grown, nvars)
    ensures numTerms == if steps > 0 then |grown| else numTerms0
    ensures grown == ExpandTimes(basis, nvars, steps)
    ensures ZeroCount(grown) == ZeroCount(basis)
  {
    grown, steps, numTerms := basis, 0, numTerms0;
    while steps < maxSteps && steps < bestSteps
      invariant 0 <= steps <= Solver.Min(maxSteps, bestSteps)
      invariant grown == ExpandTimes(basis, nvars, steps)
      invariant GrownFrom(basis, grown, nvars)
      invariant numTerms == if steps > 0 then |grown| else numTerms0
      invariant ZeroCount(grown) == ZeroCount(basis)
    {
      var next := ExpandOnce(grown, nvars);
      ExpandTimesNext(basis, nvars, steps);
      GrownFromTrans(basis, grown, next, nvars);
      grown := next;
      numTerms := |grown|;
      steps := steps + 1;
    }
  }

  datatype SearchError =
    | RestrictFailed(e: RestrictError)   // the assertion inside `restrict_basis`
    | OutOfFuel                          // the outer loop ran past the fuel bound

  /** Trial t (counting from 1) expands min(t, bestSteps) times. */
  ghost predicate Schedule(expansions: seq<nat>, bestSteps: nat)
  {
    forall t :: 0 <= t < |expansions| ==> expansions[t] == Solver.Min(t + 1, bestSteps)
  }

  lemma ScheduleAppend(expansions: seq<nat>, bestSteps: nat, steps: nat)
    requires Schedule(expansions, bestSteps) && steps == Solver.Min(|expansions| + 1, bestSteps)
    ensures Schedule(expansions + [steps], bestSteps)
  {
  }

  /** The iteration's best candidate `c` with expansion count `steps`,
      relative to the one it started from: its score never rises; it is
      either unchanged (with its count) or a fit of a basis grown from
      `basis` with a strictly lower score; the count stays in 1..3. */
  ghost predicate Improves(fit: seq<Index> -> Fit, basis: seq<Index>, nvars: nat,
                           prev: Candidate, prevSteps: nat, c: Candidate, steps: nat)
  {
    && c.score <= prev.score
    && 1 <= steps <= 3
    && (c == prev ==> steps == prevSteps)
    && (c != prev ==> c.score < prev.score && FitOf(fit, c) && GrownFrom(basis, c.indices, nvars) && Shaped(c.indices, nvars))
  }

  /** The candidate fitted on basis `b`. */
  function FitCandidate(fit: seq<Index> -> Fit, b: seq<Index>): (c: Candidate)
    ensures FitOf(fit, c) && c.indices == b
  {
    Candidate(b, fit(b).coef, fit(b).score, fit(b).regParam)
  }

  /** The basis trial t starts from: the one left by trial t - 1, or
      `basis` for the first trial. */
  function StartOf(basis: seq<Index>, tried: seq<seq<Index>>, t: nat): (start: seq<Index>)
    requires t <= |tried|
  {
    if t == 0 then basis else tried[t - 1]
  }

  /** The bases tried by one outer iteration: trial t expands the basis it
      starts from `expansions[t]` times. */
  ghost predicate Chain(basis: seq<Index>, nvars: nat, tried: seq<seq<Index>>, expansions: seq<nat>)
  {
    && |tried| == |expansions|
    && Shaped(basis, nvars)
    && (forall t :: 0 <= t < |tried| ==> Shaped(tried[t], nvars))
    && (forall t :: 0 <= t < |tried| ==>
          tried[t] == ExpandTimes(StartOf(basis, tried, t), nvars, expansions[t]))
  }

  lemma ChainAppend(basis: seq<Index>, nvars: nat, tried: seq<seq<Index>>, expansions: seq<nat>,
                    grown: seq<Index>, steps: nat)
    requires Chain(basis, nvars, tried, expansions)
    requires grown == ExpandTimes(StartOf(basis, tried, |tried|), nvars, steps)
    ensures Chain(basis, nvars, tried + [grown], expansions + [steps])
  {
    var tried', expansions' := tried + [grown], expansions + [steps];
    forall t | 0 <= t < |tried'|
      ensures Shaped(tried'[t], nvars)
      ensures tried'[t] == ExpandTimes(StartOf(basis, tried', t), nvars, expansions'[t])
    {
      ChainEntry(basis, nvars, tried, expansions, grown, steps, t);
    }
  }

  /** Entry t of the appended chain. */
  lemma ChainEntry(basis: seq<Index>, nvars: nat, tried: seq<seq<Index>>, expansions: seq<nat>,
                   grown: seq<Index>, steps: nat, t: nat)
    requires Chain(basis, nvars, tried, expansions)
    requires grown == ExpandTimes(StartOf(basis, tried, |tried|), nvars, steps)
    requires t <= |tried|
    ensures Shaped((tried + [grown])[t], nvars)
    ensures (tried + [grown])[t] == ExpandTimes(StartOf(basis, tried + [grown], t), nvars, (expansions + [steps])[t])
  {
    if t < |tried| {
      assert (tried + [grown])[t] == tried[t] && (expansions + [steps])[t] == expansions[t];
      assert StartOf(basis, tried + [grown], t) == StartOf(basis, tried, t);
    } else {
      assert StartOf(basis, tried + [grown], t) == StartOf(basis, tried, |tried|);
    }
  }

  /** The iteration's pick among the trials: with `pick == None` no trial
      scored below `prev` and `prev` is kept with its count; otherwise trial
      `pick` is the first trial reaching the lowest score, which is below
      `prev`, and its fit and expansion count are kept. */
  ghost predicate Picked(fit: seq<Index> -> Fit, tried: seq<seq<Index>>, expansions: seq<nat>,
                        prev: Candidate, prevSteps: nat, c: Candidate, steps: nat, pick: Option<nat>)
  {
    && |tried| == |expansions|
    && (pick.None? ==>
          c == prev && steps == prevSteps
          && forall t :: 0 <= t < |tried| ==> fit(tried[t]).score >= prev.score)
    && (pick.Some? ==>
          && pick.value < |tried|
          && c == FitCandidate(fit, tried[pick.value]) && steps == expansions[pick.value]
          && c.score < prev.score
          && (forall t :: 0 <= t < pick.value ==> fit(tried[t]).score > c.score)
          && (forall t :: pick.value < t < |tried| ==> fit(tried[t]).score >= c.score))
  }

  /** Recording one more trial, kept only when it beats the pick so far. */
  lemma PickedAppend(fit: seq<Index> -> Fit, tried: seq<seq<Index>>, expansions: seq<nat>,
                     prev: Candidate, prevSteps: nat, c: Candidate, steps: nat, pick: Option<nat>,
                     grown: seq<Index>, s: nat)
    requires Picked(fit, tried, expansions, prev, prevSteps, c, steps, pick)
    ensures fit(grown).score < c.score ==>
      Picked(fit, tried + [grown], expansions + [s], prev, prevSteps, FitCandidate(fit, grown), s, Some(|tried|))
    ensures fit(grown).score >= c.score ==>
      Picked(fit, tried + [grown], expansions + [s], prev, prevSteps, c, steps, pick)
  {
    var tried', expansions' := tried + [grown], expansions + [s];
    if fit(grown).score < c.score {
      forall t | 0 <= t < |tried|
        ensures fit(tried'[t]).score > fit(grown).score
      {
        assert tried'[t] == tried[t];
        if pick.Some? && t != pick.value {
          assert fit(tried[t]).score >= c.score;
        }
      }
    } else {
      forall t | 0 <= t < |tried'|
        ensures fit(tried'[t]).score >= c.score
      {
        if t < |tried| {
          assert tried'[t] == tried[t];
          if pick.Some? && t < pick.value {
            assert fit(tried[t]).score > c.score;
          }
        }
      }
    }
  }

  /** What `Trials` knows after the trials in `tried`: they form the
      expansion chain on schedule, and `best` with its count is the pick. */
  ghost predicate TrialLog(fit: seq<Index> -> Fit, nvars: nat, basis: seq<Index>, bestSteps: nat,
                           iterBest: Candidate, iterSteps: nat, tried: seq<seq<Index>>, expansions: seq<nat>,
                           best: Candidate, bestStepsIter: nat, pick: Option<nat>)
  {
    && Chain(basis, nvars, tried, expansions) && Schedule(expansions, bestSteps)
    && Picked(fit, tried, expansions, iterBest, iterSteps, best, bestStepsIter, pick)
    && GrownFrom(basis, StartOf(basis, tried, |tried|), nvars)
    && (pick.Some? ==> pick.value < |tried| && GrownFrom(basis, tried[pick.value], nvars))
  }

  /** Recording one more trial keeps `TrialLog`, with the trial picked when
      it beats the pick so far. */
  lemma TrialLogAppend(fit: seq<Index> -> Fit, nvars: nat, basis: seq<Index>, bestSteps: nat,
                       iterBest: Candidate, iterSteps: nat, tried: seq<seq<Index>>, expansions: seq<nat>,
                       best: Candidate, bestStepsIter: nat, pick: Option<nat>, grown: seq<Index>, steps: nat,
                       best': Candidate, bestStepsIter': nat, pick': Option<nat>)
    requires TrialLog(fit, nvars, basis, bestSteps, iterBest, iterSteps, tried, expansions, best, bestStepsIter, pick)
    requires grown == ExpandTimes(StartOf(basis, tried, |tried|), nvars, steps)
    requires steps == Solver.Min(|tried| + 1, bestSteps)
    requires GrownFrom(basis, grown, nvars)
    requires fit(grown).score < best.score ==>
      best' == FitCandidate(fit, grown) && bestStepsIter' == steps && pick' == Some(|tried|)
    requires fit(grown).score >= best.score ==>
      best' == best && bestStepsIter' == bestStepsIter && pick' == pick
    ensures TrialLog(fit, nvars, basis, bestSteps, iterBest, iterSteps, tried + [grown], expansions + [steps],
                     best', bestStepsIter', pick')
  {
    ChainAppend(basis, nvars, tried, expansions, grown, steps);
    ScheduleAppend(expansions, bestSteps, steps);
    PickedAppend(fit, tried, expansions, iterBest, iterSteps, best, bestStepsIter, pick, grown, steps);
    if pick'.Some? && pick'.value < |tried| {
      assert (tried + [grown])[pick'.value] == tried[pick'.value];
    }
  }

  /** The pick of a trial log improves on the candidate the iteration
      started from. */
  lemma TrialLogImproves(fit: seq<Index> -> Fit, nvars: nat, basis: seq<Index>, bestSteps: nat,
                         iterBest: Candidate, iterSteps: nat, tried: seq<seq<Index>>, expansions: seq<nat>,
                         best: Candidate, bestStepsIter: nat, pick: Option<nat>)
    requires TrialLog(fit, nvars, basis, bestSteps, iterBest, iterSteps, tried, expansions, best, bestStepsIter, pick)
    requires 1 <= bestSteps <= 3 && 1 <= iterSteps <= 3
    ensures Improves(fit, basis, nvars, iterBest, iterSteps, best, bestStepsIter)
  {
    if pick.Some? {
      var p := pick.value;
      assert expansions[p] == Solver.Min(p + 1, bestSteps);
      assert Shaped(tried[p], nvars);
    }
  }

  /** The head of one trial (lines 1022-1029): restrict the basis, whose
      result the source discards, so that only its failure matters; then
      expand the basis min(maxSteps, bestSteps) times. The restriction fails
      exactly when the basis does not hold exactly one constant term. */
  method Trial(nvars: nat, tol: real, basis: seq<Index>, coef: seq<real>, maxSteps: nat, bestSteps: nat)
    returns (r: Result<(seq<Index>, nat), SearchError>)
    requires Shaped(basis, nvars) && |coef| == |basis|
    ensures r.Err? <==> ZeroCount(basis) != 1
    ensures r.Err? ==> r.error == RestrictFailed(ConstantTermCount)
    ensures r.Ok? ==>
      && r.value.1 == Solver.Min(maxSteps, bestSteps)
      && r.value.0 == ExpandTimes(basis, nvars, r.value.1)
      && GrownFrom(basis, r.value.0, nvars) && Shaped(r.value.0, nvars)
      && ZeroCount(r.value.0) == ZeroCount(basis)
  {
    var restricted := RestrictBasis(basis, coef, tol);
    RestrictKeepsAnchor(basis, coef, tol);
    if restricted.Err? {
      return Err(RestrictFailed(restricted.error));
    }
    var grown, steps, _ := ExpandSteps(basis, nvars, maxSteps, bestSteps, |basis|);
    r := Ok((grown, steps));
  }

  /** One pass of the `for max_num_steps in range(1, 4)` loop body of
      `_expanding_basis_pce`: restrict and expand the current basis, fit it,
      and keep it when it scores strictly lower than the best so far. The
      ghost arguments and results are the trial log before and after. */
  method RunTrial(fit: seq<Index> -> Fit, nvars: nat, tol: real, basis: seq<Index>, bestSteps: nat,
                  iterBest: Candidate, iterSteps: nat, maxSteps: nat,
                  pceIdx: seq<Index>, pceCoef: seq<real>, best: Candidate, bestStepsIter: nat,
                  ghost tried: seq<seq<Index>>, ghost expansions: seq<nat>, ghost pick: Option<nat>)
    returns (r: Result<(seq<Index>, seq<real>, Candidate, nat), SearchError>,
             ghost tried': seq<seq<Index>>, ghost expansions': seq<nat>, ghost pick': Option<nat>)
    requires forall b :: |fit(b).coef| == |b|
    requires 1 <= bestSteps <= 3 && 1 <= maxSteps <= 3 && |tried| == maxSteps - 1
    requires TrialLog(fit, nvars, basis, bestSteps, iterBest, iterSteps, tried, expansions, best, bestStepsIter, pick)
    requires pceIdx == StartOf(basis, tried, |tried|) && Shaped(pceIdx, nvars) && |pceCoef| == |pceIdx|
    ensures r.Err? <==> ZeroCount(pceIdx) != 1
    ensures r.Err? ==> r.error == RestrictFailed(ConstantTermCount)
    ensures r.Ok? ==>
      && tried' == tried + [r.value.0]
      && Shaped(r.value.0, nvars) && r.value.1 == fit(r.value.0).coef
      && ZeroCount(r.value.0) == ZeroCount(pceIdx)
      && TrialLog(fit, nvars, basis, bestSteps, iterBest, iterSteps, tried', expansions', r.value.2, r.value.3, pick')
  {
    tried', expansions', pick' := tried, expansions, pick;
    var trial := Trial(nvars, tol, pceIdx, pceCoef, maxSteps, bestSteps);
    if trial.Err? {
      return Err(trial.error), tried', expansions', pick';
    }
    var (grown, steps) := trial.value;
    GrownFromTrans(basis, pceIdx, grown, nvars);
    var f := fit(grown);
    var best', bestStepsIter' := best, bestStepsIter;
    if f.score < best.score {
      best', bestStepsIter' := Candidate(grown, f.coef, f.score, f.regParam), steps;
      pick' := Some(|tried|);
    }
    TrialLogAppend(fit, nvars, basis, bestSteps, iterBest, iterSteps, tried, expansions,
                   best, bestStepsIter, pick, grown, steps, best', bestStepsIter', pick');
    tried', expansions' := tried + [grown], expansions + [steps];
    r := Ok((grown, f.coef, best', bestStepsIter'));
  }

  /** One outer iteration (lines 1015-1058): up to three trials; trial t
      restricts (result unused), expands the CURRENT basis min(t, bestSteps)
      more times, refits, and records the trial when it beats the best score
      recorded so far. Returns the grown basis with its last fit, the
      iteration's best candidate and its expansion count. The ghost outputs
      list the bases tried, the number of expansions of each trial, and
      which trial was picked. */
  method Trials(fit: seq<Index> -> Fit, nvars: nat, tol: real, maxNumTerms: nat,
                basis: seq<Index>, coef: seq<real>, bestSteps: nat, iterBest: Candidate, iterSteps: nat)
    returns (r: Result<(seq<Index>, seq<real>, Candidate, nat), SearchError>,
             ghost tried: seq<seq<Index>>, ghost expansions: seq<nat>, ghost pick: Option<nat>)
    requires forall b :: |fit(b).coef| == |b|
    requires Shaped(basis, nvars) && |coef| == |basis|
    requires 1 <= bestSteps <= 3 && 1 <= iterSteps <= 3
    ensures r.Ok? ==>
      && 1 <= |tried| <= 3 && r.value.0 == tried[|tried| - 1]
      && Shaped(r.value.0, nvars) && r.value.1 == fit(r.value.0).coef
      && TrialLog(fit, nvars, basis, bestSteps, iterBest, iterSteps, tried, expansions, r.value.2, r.value.3, pick)
      && (forall t :: 0 <= t < |tried| - 1 ==> |tried[t]| < maxNumTerms)
      && (|tried| < 3 ==> |r.value.0| >= maxNumTerms)
      && ZeroCount(r.value.0) == 1
    ensures r.Err? <==> ZeroCount(basis) != 1
    ensures r.Err? ==> r.error == RestrictFailed(ConstantTermCount)
  {
    var pceIdx, pceCoef := basis, coef;
    var best, bestStepsIter := iterBest, iterSteps;
    // `num_terms` is reassigned by every trial before it is read: every
    // trial expands at least once, since bestSteps >= 1.
    var numTerms: nat;
    var maxSteps := 1;
    tried, expansions, pick := [], [], None;
    while true
      invariant 1 <= maxSteps <= 3 && |tried| == maxSteps - 1
      invariant TrialLog(fit, nvars, basis, bestSteps, iterBest, iterSteps, tried, expansions, best, bestStepsIter, pick)
      invariant pceIdx == StartOf(basis, tried, |tried|)
      invariant forall t :: 0 <= t < |tried| ==> |tried[t]| < maxNumTerms
      invariant Shaped(pceIdx, nvars) && |pceCoef| == |pceIdx|
      invariant maxSteps > 1 ==> pceCoef == fit(pceIdx).coef
      invariant ZeroCount(pceIdx) == ZeroCount(basis)
      decreases 3 - maxSteps
    {
      var trial;
      trial, tried, expansions, pick := RunTrial(fit, nvars, tol, basis, bestSteps, iterBest, iterSteps, maxSteps,
                                                 pceIdx, pceCoef, best, bestStepsIter, tried, expansions, pick);
      if trial.Err? {
        return Err(trial.error), tried, expansions, pick;
      }
      pceIdx, pceCoef, best, bestStepsIter := trial.value.0, trial.value.1, trial.value.2, trial.value.3;
      numTerms := |pceIdx|;
      if numTerms >= maxNumTerms {
        break;
      }
      if maxSteps >= 3 {
        break;
      }
      maxSteps := maxSteps + 1;
    }
    r := Ok((pceIdx, pceCoef, best, bestStepsIter));
  }

  /** One outer iteration's effect on the running best `c`, from `prev`: the
      score never rises, and a change is a fit of a basis grown from the
      seed basis with a strictly lower score. */
  ghost predicate Succeeds(fit: seq<Index> -> Fit, seedBasis: seq<Index>, nvars: nat, prev: Candidate, c: Candidate)
  {
    && c.score <= prev.score
    && (c != prev ==> c.score < prev.score && FitOf(fit, c) && GrownFrom(seedBasis, c.indices, nvars))
  }

  /** The running best after each outer iteration, `h[0]` being the seed
      fit: every iteration succeeds the one before. */
  ghost predicate Descends(fit: seq<Index> -> Fit, seedBasis: seq<Index>, nvars: nat, h: seq<Candidate>)
  {
    forall k :: 0 < k < |h| ==> Succeeds(fit, seedBasis, nvars, h[k - 1], h[k])
  }

  /** Outer iteration `r` replaced the best (line 1061). */
  ghost predicate Improved(h: seq<Candidate>, r: nat)
  {
    r + 1 < |h| && h[r + 1] != h[r]
  }

  /** The outer loop's stopping rule (lines 1061-1068) on the history of
      bests: it ends at iteration `bestIt + 2`, the second in a row that
      did not improve, `bestIt` being the last that did (or 0), and no
      earlier iteration met the rule. */
  ghost predicate StopsAt(h: seq<Candidate>, bestIt: nat)
  {
    && |h| == bestIt + 4
    && (bestIt == 0 || Improved(h, bestIt))
    && !Improved(h, bestIt + 1) && !Improved(h, bestIt + 2)
    && forall r :: 2 <= r < bestIt + 2 ==> Improved(h, r) || Improved(h, r - 1)
  }

  lemma HistoryAppend(fit: seq<Index> -> Fit, seedBasis: seq<Index>, nvars: nat, h: seq<Candidate>, c: Candidate)
    requires |h| > 0 && Descends(fit, seedBasis, nvars, h) && Succeeds(fit, seedBasis, nvars, h[|h| - 1], c)
    ensures Descends(fit, seedBasis, nvars, h + [c])
    ensures forall r: nat :: r + 1 < |h| ==> (Improved(h + [c], r) <==> Improved(h, r))
    ensures Improved(h + [c], |h| - 1) <==> c != h[|h| - 1]
  {
    var h' := h + [c];
    forall k | 0 < k < |h'|
      ensures Succeeds(fit, seedBasis, nvars, h'[k - 1], h'[k])
    {
      if k < |h| {
        assert h'[k - 1] == h[k - 1] && h'[k] == h[k];
      }
    }
  }

  /** The loop state of the outer iteration before iteration `it` runs:
      `it` iterations have been recorded, `bestIt` is the last that
      improved (or 0), and none of them met the stopping rule. */
  ghost predicate Rounds(fit: seq<Index> -> Fit, seedBasis: seq<Index>, nvars: nat, h: seq<Candidate>, it: nat, bestIt: nat)
  {
    && |h| == it + 1
    && Descends(fit, seedBasis, nvars, h)
    && bestIt <= it <= bestIt + 2
    && (bestIt == 0 || Improved(h, bestIt))
    && (forall k :: bestIt < k < it ==> !Improved(h, k))
    && (forall k :: 2 <= k < it ==> Improved(h, k) || Improved(h, k - 1))
  }

  /** One more outer iteration with new best `c`: it improves exactly when
      `c` differs; otherwise the loop stops at the second non-improving
      iteration in a row, or goes on. */
  lemma RoundsStep(fit: seq<Index> -> Fit, seedBasis: seq<Index>, nvars: nat, h: seq<Candidate>,
                   it: nat, bestIt: nat, c: Candidate)
    requires Rounds(fit, seedBasis, nvars, h, it, bestIt) && Succeeds(fit, seedBasis, nvars, h[it], c)
    ensures c != h[it] ==> c.score < h[it].score && Rounds(fit, seedBasis, nvars, h + [c], it + 1, it)
    ensures c == h[it] && it - bestIt >= 2 ==> StopsAt(h + [c], bestIt)
    ensures c == h[it] && it - bestIt < 2 ==> Rounds(fit, seedBasis, nvars, h + [c], it + 1, bestIt)
  {
    HistoryAppend(fit, seedBasis, nvars, h, c);
  }

  /** Scores along the history never rise. */
  lemma {:induction false} ScoresFall(fit: seq<Index> -> Fit, seedBasis: seq<Index>, nvars: nat,
                                      h: seq<Candidate>, i: nat, j: nat)
    requires Descends(fit, seedBasis, nvars, h) && i <= j < |h|
    ensures h[j].score <= h[i].score
    decreases j - i
  {
    if i < j {
      ScoresFall(fit, seedBasis, nvars, h, i + 1, j);
      assert Succeeds(fit, seedBasis, nvars, h[i], h[i + 1]);
    }
  }

  /** The candidate the search returns is the lowest-scoring of the
      history, reached at iteration `bestIt` and kept after it; when
      `bestIt` improved, every earlier best scored strictly higher, so the
      returned candidate is the first to reach the minimum. */
  lemma BestIsFirstMinimum(fit: seq<Index> -> Fit, seedBasis: seq<Index>, nvars: nat, h: seq<Candidate>, bestIt: nat)
    requires Descends(fit, seedBasis, nvars, h) && StopsAt(h, bestIt)
    ensures forall k :: bestIt < k < |h| ==> h[k] == h[|h| - 1]
    ensures forall k :: 0 <= k < |h| ==> h[|h| - 1].score <= h[k].score
    ensures Improved(h, bestIt) ==> forall k :: 0 <= k <= bestIt ==> h[k].score > h[|h| - 1].score
  {
    var last := |h| - 1;
    forall k | 0 <= k < |h|
      ensures h[last].score <= h[k].score
    {
      ScoresFall(fit, seedBasis, nvars, h, k, last);
    }
    if Improved(h, bestIt) {
      assert Succeeds(fit, seedBasis, nvars, h[bestIt], h[bestIt + 1]);
      forall k | 0 <= k <= bestIt
        ensures h[k].score > h[last].score
      {
        ScoresFall(fit, seedBasis, nvars, h, k, bestIt);
      }
    }
  }

  /** The record of one outer iteration: the bases its trials produced,
      the expansions each made, which trial (if any) was picked, and the
      step count it hands on. */
  datatype Round = Round(tried: seq<seq<Index>>, expansions: seq<nat>, pick: Option<nat>, after: nat)

  /** What an outer iteration starts from: the working basis and
      `best_num_expansion_steps`. */
  datatype Carry = Carry(basis: seq<Index>, steps: nat)

  /** Outer iteration `rd`, started from `start` with step count `steps`,
      took the running best from `prev` to `c`: one to three trials, on
      schedule, each expanding the previous trial's basis; every trial but
      the last stayed below the term limit, and stopping before the third
      means the last reached it; `c` is `prev` or the first trial reaching
      the least score below it, with its count. */
  ghost predicate RoundRan(fit: seq<Index> -> Fit, nvars: nat, maxNumTerms: nat, start: seq<Index>, steps: nat,
                           rd: Round, prev: Candidate, c: Candidate)
  {
    && 1 <= |rd.tried| <= 3
    && TrialLog(fit, nvars, start, steps, prev, steps, rd.tried, rd.expansions, c, rd.after, rd.pick)
    && (forall t :: 0 <= t < |rd.tried| - 1 ==> |rd.tried[t]| < maxNumTerms)
    && (|rd.tried| < 3 ==> |rd.tried[|rd.tried| - 1]| >= maxNumTerms)
  }

  /** What iteration `rd` hands to the next one: its last trial's basis and
      its step count. */
  function Handed(rd: Round): (next: Carry)
    requires rd.tried != []
  {
    Carry(rd.tried[|rd.tried| - 1], rd.after)
  }

  /** The outer iterations that ran, against the history of bests `h` and
      what each iteration started from, `carries`: the first starts from the
      seed basis with step count 3 and the seed fit `h[0]`; iteration k
      started from `carries[k]`, took the running best from `h[k]` to
      `h[k + 1]`, and handed `carries[k + 1]` on. */
  ghost predicate Logged(fit: seq<Index> -> Fit, nvars: nat, maxNumTerms: nat, seedBasis: seq<Index>,
                         h: seq<Candidate>, carries: seq<Carry>, rounds: seq<Round>)
  {
    && |h| == |rounds| + 1 && |carries| == |rounds| + 1
    && h[0] == FitCandidate(fit, seedBasis) && carries[0] == Carry(seedBasis, 3)
    && forall k :: 0 <= k < |rounds| ==> RoundLogged(fit, nvars, maxNumTerms, h, carries, rounds, k)
  }

  /** Entry k of the log: iteration k started from `carries[k]`, took the
      running best from `h[k]` to `h[k + 1]`, and handed `carries[k + 1]`
      on. */
  ghost predicate RoundLogged(fit: seq<Index> -> Fit, nvars: nat, maxNumTerms: nat,
                              h: seq<Candidate>, carries: seq<Carry>, rounds: seq<Round>, k: nat)
    requires k < |rounds| && |h| == |rounds| + 1 && |carries| == |rounds| + 1
  {
    LogEntry(fit, nvars, maxNumTerms, carries[k], rounds[k], h[k], h[k + 1], carries[k + 1])
  }

  /** Iteration `rd` started from `start`, took the running best from
      `prev` to `c`, and handed `next` on. */
  ghost predicate LogEntry(fit: seq<Index> -> Fit, nvars: nat, maxNumTerms: nat,
                           start: Carry, rd: Round, prev: Candidate, c: Candidate, next: Carry)
  {
    && RoundRan(fit, nvars, maxNumTerms, start.basis, start.steps, rd, prev, c)
    && next == Handed(rd)
  }

  /** Recording one more outer iteration, started from the last carry. */
  lemma LoggedAppend(fit: seq<Index> -> Fit, nvars: nat, maxNumTerms: nat, seedBasis: seq<Index>,
                     h: seq<Candidate>, carries: seq<Carry>, rounds: seq<Round>,
                     start: Carry, rd: Round, prev: Candidate, c: Candidate)
    requires Logged(fit, nvars, maxNumTerms, seedBasis, h, carries, rounds)
    requires carries[|carries| - 1] == start && h[|h| - 1] == prev
    requires RoundRan(fit, nvars, maxNumTerms, start.basis, start.steps, rd, prev, c)
    ensures Logged(fit, nvars, maxNumTerms, seedBasis, h + [c], carries + [Handed(rd)], rounds + [rd])
  {
    forall k | 0 <= k < |rounds| {
      RoundLoggedKept(fit, nvars, maxNumTerms, h, carries, rounds, c, Handed(rd), rd, k);
    }
    RoundLoggedLast(fit, nvars, maxNumTerms, h, carries, rounds, start, rd, prev, c);
  }

  /** Appending to the log keeps its earlier entries. */
  lemma RoundLoggedKept(fit: seq<Index> -> Fit, nvars: nat, maxNumTerms: nat,
                        h: seq<Candidate>, carries: seq<Carry>, rounds: seq<Round>,
                        c: Candidate, next: Carry, rd: Round, k: nat)
    requires k < |rounds| && |h| == |rounds| + 1 && |carries| == |rounds| + 1
    requires RoundLogged(fit, nvars, maxNumTerms, h, carries, rounds, k)
    ensures RoundLogged(fit, nvars, maxNumTerms, h + [c], carries + [next], rounds + [rd], k)
  {
    var h', carries', rounds' := h + [c], carries + [next], rounds + [rd];
    assert carries'[k] == carries[k] && carries'[k + 1] == carries[k + 1];
    assert rounds'[k] == rounds[k] && h'[k] == h[k] && h'[k + 1] == h[k + 1];
  }

  /** The appended iteration is the log's last entry. */
  lemma RoundLoggedLast(fit: seq<Index> -> Fit, nvars: nat, maxNumTerms: nat,
                        h: seq<Candidate>, carries: seq<Carry>, rounds: seq<Round>,
                        start: Carry, rd: Round, prev: Candidate, c: Candidate)
    requires |h| == |rounds| + 1 && |carries| == |rounds| + 1
    requires carries[|carries| - 1] == start && h[|h| - 1] == prev
    requires RoundRan(fit, nvars, maxNumTerms, start.basis, start.steps, rd, prev, c)
    ensures RoundLogged(fit, nvars, maxNumTerms, h + [c], carries + [Handed(rd)], rounds + [rd], |rounds|)
  {
    var h', carries', rounds' := h + [c], carries + [Handed(rd)], rounds + [rd];
    assert carries'[|rounds|] == start && rounds'[|rounds|] == rd && h'[|rounds|] == prev && h'[|rounds| + 1] == c;
  }

  /** The trials of one outer iteration (lines 1017-1059), seen from the
      outer loop: the record `round` of the trials that ran, the new running
      best that they determine, which succeeds the old one, and the basis
      carried forward, which is the last trial's and is grown from the seed
      basis. The iteration fails exactly when restriction does. */
  method Iteration(fit: seq<Index> -> Fit, nvars: nat, tol: real, maxNumTerms: nat, ghost seedBasis: seq<Index>,
                   basis: seq<Index>, coef: seq<real>, bestSteps: nat, iterBest: Candidate)
    returns (r: Result<(seq<Index>, seq<real>, Candidate, nat), SearchError>, ghost round: Round)
    requires forall b :: |fit(b).coef| == |b|
    requires GrownFrom(seedBasis, basis, nvars) && Shaped(basis, nvars) && |coef| == |basis|
    requires 1 <= bestSteps <= 3
    ensures r.Err? <==> ZeroCount(basis) != 1
    ensures r.Err? ==> r.error == RestrictFailed(ConstantTermCount)
    ensures r.Ok? ==>
      IterationRan(fit, nvars, maxNumTerms, seedBasis, basis, bestSteps, iterBest, round,
                   r.value.0, r.value.1, r.value.2, r.value.3)
  {
    var trials, tried, expansions, pick := Trials(fit, nvars, tol, maxNumTerms, basis, coef, bestSteps, iterBest, bestSteps);
    if trials.Err? {
      return Err(trials.error), Round(tried, expansions, pick, bestSteps);
    }
    var (grown, _, iterCand, iterSteps) := trials.value;
    round := Round(tried, expansions, pick, iterSteps);
    TrialLogImproves(fit, nvars, basis, bestSteps, iterBest, bestSteps, tried, expansions, iterCand, iterSteps, pick);
    GrownFromTrans(seedBasis, basis, grown, nvars);
    if iterCand != iterBest {
      GrownFromTrans(seedBasis, basis, iterCand.indices, nvars);
    }
    r := trials;
  }

  /** What the search returns: the final basis and its coefficients, the
      best score and its regularisation parameter. */
  datatype Final = Final(indices: seq<Index>, coef: seq<real>, score: real, regParam: real)

  /** The outer loop's state before iteration `it` (lines 1012-1014 and
      1060-1070): `bestCand` is the running best, a fit no worse than the
      seed fit, with `bestNumSteps` its expansion count and `bestIter` the
      source's `best_it`; `pceIdx` is the basis the iteration works on; the
      loop state `Rounds` and the log `Logged` hold, and the constant term
      is kept by every expansion. The iteration's own best starts at the
      running best: `best_cv_score_iter` is never reset, but equals
      `best_cv_score` whenever an iteration begins. */
  ghost predicate OuterState(fit: seq<Index> -> Fit, nvars: nat, maxTerms: nat, seedBasis: seq<Index>,
                             pceIdx: seq<Index>, pceCoef: seq<real>, bestCand: Candidate, bestNumSteps: nat,
                             it: nat, bestIter: nat, history: seq<Candidate>, carries: seq<Carry>, rounds: seq<Round>)
  {
    && FitOf(fit, bestCand) && bestCand.score <= fit(seedBasis).score
    && GrownFrom(seedBasis, bestCand.indices, nvars)
    && GrownFrom(seedBasis, pceIdx, nvars) && Shaped(pceIdx, nvars) && |pceCoef| == |pceIdx|
    && 1 <= bestNumSteps <= 3
    && Rounds(fit, seedBasis, nvars, history, it, bestIter)
    && history[it] == bestCand
    && Logged(fit, nvars, maxTerms, seedBasis, history, carries, rounds)
    && carries[it] == Carry(pceIdx, bestNumSteps)
    && ZeroCount(pceIdx) == ZeroCount(seedBasis)
    && (it > 0 ==> ZeroCount(seedBasis) == 1)
  }

  /** What a successful outer iteration from `basis`, `bestSteps` and
      `iterBest` hands back, as `Iteration` promises it. */
  ghost predicate IterationRan(fit: seq<Index> -> Fit, nvars: nat, maxNumTerms: nat, seedBasis: seq<Index>,
                               basis: seq<Index>, bestSteps: nat, iterBest: Candidate, round: Round,
                               grown: seq<Index>, coef: seq<real>, iterCand: Candidate, iterSteps: nat)
  {
    && round.after == iterSteps
    && RoundRan(fit, nvars, maxNumTerms, basis, bestSteps, round, iterBest, iterCand)
    && grown == round.tried[|round.tried| - 1] && coef == fit(grown).coef
    && ZeroCount(basis) == 1 && ZeroCount(grown) == 1
    && Succeeds(fit, seedBasis, nvars, iterBest, iterCand) && 1 <= iterSteps <= 3
    && (iterCand == iterBest ==> iterSteps == bestSteps)
    && GrownFrom(seedBasis, grown, nvars) && Shaped(grown, nvars) && |coef| == |grown|
  }

  /** The loop state after an iteration whose best is strictly better:
      that best, its count and the current iteration become the running
      ones. */
  lemma StepImproves(fit: seq<Index> -> Fit, nvars: nat, maxTerms: nat, seedBasis: seq<Index>,
                     pceIdx: seq<Index>, pceCoef: seq<real>, bestCand: Candidate, bestNumSteps: nat,
                     it: nat, bestIter: nat, history: seq<Candidate>, carries: seq<Carry>, rounds: seq<Round>,
                     round: Round, grown: seq<Index>, coef: seq<real>, iterCand: Candidate, iterSteps: nat)
    requires OuterState(fit, nvars, maxTerms, seedBasis, pceIdx, pceCoef, bestCand, bestNumSteps, it, bestIter, history, carries, rounds)
    requires IterationRan(fit, nvars, maxTerms, seedBasis, pceIdx, bestNumSteps, bestCand, round, grown, coef, iterCand, iterSteps)
    requires iterCand.score < bestCand.score
    ensures OuterState(fit, nvars, maxTerms, seedBasis, grown, coef, iterCand, iterSteps, it + 1, it,
                       history + [iterCand], carries + [Handed(round)], rounds + [round])
  {
    RoundsStep(fit, seedBasis, nvars, history, it, bestIter, iterCand);
    LoggedAppend(fit, nvars, maxTerms, seedBasis, history, carries, rounds, Carry(pceIdx, bestNumSteps), round, bestCand, iterCand);
  }

  /** The loop state after a non-improving iteration that does not stop
      the loop: the running best and its count are kept. */
  lemma StepContinues(fit: seq<Index> -> Fit, nvars: nat, maxTerms: nat, seedBasis: seq<Index>,
                      pceIdx: seq<Index>, pceCoef: seq<real>, bestCand: Candidate, bestNumSteps: nat,
                      it: nat, bestIter: nat, history: seq<Candidate>, carries: seq<Carry>, rounds: seq<Round>,
                      round: Round, grown: seq<Index>, coef: seq<real>, iterCand: Candidate, iterSteps: nat)
    requires OuterState(fit, nvars, maxTerms, seedBasis, pceIdx, pceCoef, bestCand, bestNumSteps, it, bestIter, history, carries, rounds)
    requires IterationRan(fit, nvars, maxTerms, seedBasis, pceIdx, bestNumSteps, bestCand, round, grown, coef, iterCand, iterSteps)
    requires iterCand.score >= bestCand.score && it - bestIter < 2
    ensures OuterState(fit, nvars, maxTerms, seedBasis, grown, coef, bestCand, bestNumSteps, it + 1, bestIter,
                       history + [iterCand], carries + [Handed(round)], rounds + [round])
  {
    RoundsStep(fit, seedBasis, nvars, history, it, bestIter, iterCand);
    LoggedAppend(fit, nvars, maxTerms, seedBasis, history, carries, rounds, Carry(pceIdx, bestNumSteps), round, bestCand, iterCand);
  }

  /** The second non-improving iteration in a row ends the search with the
      running best, which is the last entry of the history. */
  lemma StepStops(fit: seq<Index> -> Fit, nvars: nat, maxTerms: nat, seedBasis: seq<Index>,
                  pceIdx: seq<Index>, pceCoef: seq<real>, bestCand: Candidate, bestNumSteps: nat,
                  it: nat, bestIter: nat, history: seq<Candidate>, carries: seq<Carry>, rounds: seq<Round>,
                  round: Round, grown: seq<Index>, coef: seq<real>, iterCand: Candidate, iterSteps: nat)
    requires OuterState(fit, nvars, maxTerms, seedBasis, pceIdx, pceCoef, bestCand, bestNumSteps, it, bestIter, history, carries, rounds)
    requires IterationRan(fit, nvars, maxTerms, seedBasis, pceIdx, bestNumSteps, bestCand, round, grown, coef, iterCand, iterSteps)
    requires iterCand.score >= bestCand.score && it - bestIter >= 2
    ensures Stopped(fit, nvars, maxTerms, seedBasis, bestCand, bestIter, history + [iterCand], carries + [Handed(round)], rounds + [round])
  {
    assert iterCand == bestCand && history[it] == bestCand;
    RoundsStep(fit, seedBasis, nvars, history, it, bestIter, iterCand);
    HistoryAppend(fit, seedBasis, nvars, history, iterCand);
    LoggedAppend(fit, nvars, maxTerms, seedBasis, history, carries, rounds, Carry(pceIdx, bestNumSteps), round, bestCand, iterCand);
  }

  /** The outer loop has stopped with `bestCand`: the log and the history
      of bests agree, the stopping rule holds at `bestIter`, and `bestCand`
      is the last best, a fit of a basis grown from the seed basis no worse
      than the seed fit. */
  ghost predicate Stopped(fit: seq<Index> -> Fit, nvars: nat, maxTerms: nat, seedBasis: seq<Index>,
                          bestCand: Candidate, bestIter: nat, history: seq<Candidate>, carries: seq<Carry>, rounds: seq<Round>)
  {
    && Logged(fit, nvars, maxTerms, seedBasis, history, carries, rounds) && Descends(fit, seedBasis, nvars, history)
    && StopsAt(history, bestIter) && history[|history| - 1] == bestCand
    && FitOf(fit, bestCand) && GrownFrom(seedBasis, bestCand.indices, nvars)
    && bestCand.score <= fit(seedBasis).score
  }

  /** One pass of the outer loop body (lines 1013-1070): run the trials,
      record them, take the iteration's best when it is strictly better,
      and report `Ok(true)` when the stopping rule fires. */
  method OuterStep(fit: seq<Index> -> Fit, nvars: nat, maxTerms: nat, tol: real, ghost seedBasis: seq<Index>,
                   pceIdx: seq<Index>, pceCoef: seq<real>, bestCand: Candidate, bestNumSteps: nat,
                   it: nat, bestIter: nat, ghost history: seq<Candidate>, ghost carries: seq<Carry>, ghost rounds: seq<Round>)
    returns (r: Result<bool, SearchError>, pceIdx': seq<Index>, pceCoef': seq<real>, bestCand': Candidate,
             bestNumSteps': nat, bestIter': nat,
             ghost history': seq<Candidate>, ghost carries': seq<Carry>, ghost rounds': seq<Round>)
    requires forall b :: |fit(b).coef| == |b|
    requires OuterState(fit, nvars, maxTerms, seedBasis, pceIdx, pceCoef, bestCand, bestNumSteps, it, bestIter, history, carries, rounds)
    ensures r.Err? <==> ZeroCount(seedBasis) != 1
    ensures r.Err? ==>
      && r.error == RestrictFailed(ConstantTermCount)
      && history' == history && carries' == carries && rounds' == rounds && bestIter' == bestIter
    ensures r.Ok? && !r.value ==>
      OuterState(fit, nvars, maxTerms, seedBasis, pceIdx', pceCoef', bestCand', bestNumSteps', it + 1, bestIter',
                 history', carries', rounds')
    ensures r.Ok? && r.value ==> Stopped(fit, nvars, maxTerms, seedBasis, bestCand', bestIter', history', carries', rounds')
  {
    pceIdx', pceCoef', bestCand', bestNumSteps', bestIter' := pceIdx, pceCoef, bestCand, bestNumSteps, bestIter;
    history', carries', rounds' := history, carries, rounds;
    var trials, round := Iteration(fit, nvars, tol, maxTerms, seedBasis, pceIdx, pceCoef, bestNumSteps, bestCand);
    if trials.Err? {
      r := Err(trials.error);
      return;
    }
    var (grown, coef, iterCand, iterSteps) := trials.value;
    if iterCand.score < bestCand.score {
      StepImproves(fit, nvars, maxTerms, seedBasis, pceIdx, pceCoef, bestCand, bestNumSteps, it, bestIter,
                   history, carries, rounds, round, grown, coef, iterCand, iterSteps);
      bestCand', bestNumSteps', bestIter' := iterCand, iterSteps, it;
      r := Ok(false);
    } else if it - bestIter >= 2 {
      StepStops(fit, nvars, maxTerms, seedBasis, pceIdx, pceCoef, bestCand, bestNumSteps, it, bestIter,
                history, carries, rounds, round, grown, coef, iterCand, iterSteps);
      r := Ok(true);
    } else {
      StepContinues(fit, nvars, maxTerms, seedBasis, pceIdx, pceCoef, bestCand, bestNumSteps, it, bestIter,
                    history, carries, rounds, round, grown, coef, iterCand, iterSteps);
      r := Ok(false);
    }
    history', carries', rounds' := history + [iterCand], carries + [Handed(round)], rounds + [round];
    pceIdx', pceCoef' := grown, coef;
  }

  /** The outer `while True` loop of `_expanding_basis_pce` (lines
      1012-1070), from the fit of the seed basis; it runs at most `fuel`
      times. The ghost `history` holds the running best after each outer
      iteration, `history[0]` being the seed fit, `rounds` records the
      trials of each iteration and `carries` the basis and step count each
      started from, and `bestIt` is the source's `best_it`. */
  method OuterLoop(fit: seq<Index> -> Fit, nvars: nat, maxTerms: nat, tol: real, fuel: nat, seedBasis: seq<Index>)
    returns (r: Result<Candidate, SearchError>,
             ghost history: seq<Candidate>, ghost carries: seq<Carry>, ghost rounds: seq<Round>, ghost bestIt: nat)
    requires Shaped(seedBasis, nvars)
    requires forall b :: |fit(b).coef| == |b|
    ensures Logged(fit, nvars, maxTerms, seedBasis, history, carries, rounds)
    ensures r.Ok? ==> Stopped(fit, nvars, maxTerms, seedBasis, r.value, bestIt, history, carries, rounds)
    ensures r.Err? ==> r.error == OutOfFuel || r.error == RestrictFailed(ConstantTermCount)
    ensures r == Err(RestrictFailed(ConstantTermCount)) <==> fuel > 0 && ZeroCount(seedBasis) != 1
    ensures r == Err(OutOfFuel) ==> |history| == fuel + 1 && Rounds(fit, seedBasis, nvars, history, fuel, bestIt)
    ensures fuel == 0 ==> r == Err(OutOfFuel)
  {
    var pceIdx := seedBasis;
    var f := fit(pceIdx);
    var pceCoef := f.coef;
    var bestCand := Candidate(pceIdx, pceCoef, f.score, f.regParam);
    var bestNumSteps := 3;
    var it, bestIter := 0, 0;
    var remaining := fuel;
    history, carries, rounds := [bestCand], [Carry(seedBasis, 3)], [];
    while true
      invariant OuterState(fit, nvars, maxTerms, seedBasis, pceIdx, pceCoef, bestCand, bestNumSteps, it, bestIter, history, carries, rounds)
      invariant it + remaining == fuel
      decreases remaining
    {
      if remaining == 0 {
        r := Err(OutOfFuel);
        break;
      }
      remaining := remaining - 1;
      var step;
      step, pceIdx, pceCoef, bestCand, bestNumSteps, bestIter, history, carries, rounds :=
        OuterStep(fit, nvars, maxTerms, tol, seedBasis, pceIdx, pceCoef, bestCand, bestNumSteps, it, bestIter, history, carries, rounds);
      if step.Err? {
        r := Err(step.error);
        break;
      }
      if step.value {
        r := Ok(bestCand);
        break;
      }
      it := it + 1;
    }
    bestIt := bestIter;
  }

  /** `_expanding_basis_pce`. `hyperbolic(d)` is the hyperbolic-cross index
      set of degree `d` and `fit` the regression on a basis. `seed` is the
      seed degree (the one the source reports when verbose); the ghost
      outputs are those of `OuterLoop`. */
  method ExpandingBasisPce(hyperbolic: nat -> seq<Index>, fit: seq<Index> -> Fit, nvars: nat,
                           maxNumTerms: Option<nat>, tol: real, fuel: nat, ghost seedBound: nat)
    returns (r: Result<Final, SearchError>, seed: nat,
             ghost history: seq<Candidate>, ghost carries: seq<Carry>, ghost rounds: seq<Round>, ghost bestIt: nat)
    requires forall d :: Shaped(hyperbolic(d), nvars)
    requires forall b :: |fit(b).coef| == |b|
    requires 2 <= seedBound && |hyperbolic(seedBound)| > MaxTerms(maxNumTerms)
    ensures forall d :: 2 <= d < seed ==> |hyperbolic(d)| <= MaxTerms(maxNumTerms)
    ensures var top := TopOf(hyperbolic, MaxTerms(maxNumTerms), seed);
      && |hyperbolic(top)| > MaxTerms(maxNumTerms)
      && (forall d :: 2 <= d < top ==> |hyperbolic(d)| <= MaxTerms(maxNumTerms))
      && (seed + 1 == top <==>
            DegreeSearch.AbsDiff(DegreeSearch.PrevCount(hyperbolic, 2, top), MaxTerms(maxNumTerms))
              < DegreeSearch.AbsDiff(|hyperbolic(top)|, MaxTerms(maxNumTerms)))
    ensures Logged(fit, nvars, MaxTerms(maxNumTerms), hyperbolic(seed), history, carries, rounds)
    ensures r.Ok? ==> r.value.score <= fit(hyperbolic(seed)).score
    ensures r.Ok? ==> |r.value.indices| == |r.value.coef| && forall m :: 0 <= m < |r.value.coef| ==> r.value.coef[m] != 0.0
    ensures r.Ok? ==>
      && Descends(fit, hyperbolic(seed), nvars, history)
      && |history| >= 4 && history[0] == FitCandidate(fit, hyperbolic(seed))
      && var best := history[|history| - 1];
      && FitOf(fit, best) && |best.coef| == |best.indices| && GrownFrom(hyperbolic(seed), best.indices, nvars)
      && (r.value.indices, r.value.coef) == DropZeroCoefficients(best.indices, best.coef)
      && r.value.score == best.score && r.value.regParam == best.regParam
      && StopsAt(history, bestIt)
    ensures r.Err? ==> r.error == OutOfFuel || r.error == RestrictFailed(ConstantTermCount)
    ensures r == Err(RestrictFailed(ConstantTermCount)) <==> fuel > 0 && ZeroCount(hyperbolic(seed)) != 1
    ensures r == Err(OutOfFuel) ==>
      |history| == fuel + 1 && Rounds(fit, hyperbolic(seed), nvars, history, fuel, bestIt)
  {
    var maxTerms := MaxTerms(maxNumTerms);
    ghost var top;
    seed, top := SeedDegree(hyperbolic, maxTerms, seedBound);
    var outer;
    outer, history, carries, rounds, bestIt := OuterLoop(fit, nvars, maxTerms, tol, fuel, hyperbolic(seed));
    if outer.Err? {
      return Err(outer.error), seed, history, carries, rounds, bestIt;
    }
    var best := outer.value;
    var (indices, coefs) := DropZeroCoefficients(best.indices, best.coef);
    DropZeroCoefficientsSound(best.indices, best.coef);
    r := Ok(Final(indices, coefs, best.score, best.regParam));
  }
}
