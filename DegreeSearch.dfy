/** The total/hyperbolic-degree sweep of one QoI (`_cross_validate_pce_degree`). */
module DegreeSearch {
  import opened Wrappers
  import opened MultiIndex
  import opened Fitting

  /** The hard cap on the number of terms. */
  const TermCap: nat := 100000

  /** The sweep stops before fitting a degree whose term count exceeds the
      cap by more than the previous degree's count fell short of it. */
  predicate OverCap(numTerms: nat, prevNumTerms: nat)
    ensures OverCap(numTerms, prevNumTerms) ==> numTerms > TermCap
    ensures prevNumTerms == 0 ==> (OverCap(numTerms, prevNumTerms) <==> numTerms > 2 * TermCap)
    ensures prevNumTerms <= TermCap < numTerms ==>
      (OverCap(numTerms, prevNumTerms) <==> AbsDiff(prevNumTerms, TermCap) < AbsDiff(numTerms, TermCap))
  {
    numTerms > TermCap && TermCap - prevNumTerms < numTerms - TermCap
  }

  function AbsDiff(a: int, b: int): (d: nat)
  {
    if a < b then b - a else a - b
  }

  /** The term count of the degree before `d` in a sweep starting at `lo`
      (0 before the first degree). */
  function PrevCount(hyperbolic: nat -> seq<Index>, lo: nat, d: nat): (n: nat)
  {
    if d > lo then |hyperbolic(d - 1)| else 0
  }

  /** Degree `d` of a sweep starting at `lo` passes the cap rule. */
  predicate WithinCap(hyperbolic: nat -> seq<Index>, lo: nat, d: nat)
  {
    !OverCap(|hyperbolic(d)|, PrevCount(hyperbolic, lo, d))
  }

  /** The running best before degree `d` of a sweep starting at `lo`: the
      first degree whose score is the least seen and below the initial
      `MaxDouble`, or `lo` with `MaxDouble` when none is. */
  ghost function BestBefore(hyperbolic: nat -> seq<Index>, fit: seq<Index> -> Fit, lo: nat, d: nat): (b: (nat, real))
    ensures lo <= b.0 && (d > lo ==> b.0 < d) && b.1 <= MaxDouble
    decreases d
  {
    if d <= lo then (lo, MaxDouble)
    else
      var prev := BestBefore(hyperbolic, fit, lo, d - 1);
      var score := fit(hyperbolic(d - 1)).score;
      if score < prev.1 then (d - 1, score) else prev
  }

  /** The score rule of line 819 fires at degree `d`: it scores no better
      than the running best, found more than one degree earlier. */
  ghost predicate ScoreStops(hyperbolic: nat -> seq<Index>, fit: seq<Index> -> Fit, lo: nat, d: nat)
  {
    var best := BestBefore(hyperbolic, fit, lo, d);
    fit(hyperbolic(d)).score >= best.1 && d - best.0 > 1
  }

  datatype Selection = Selection(indices: seq<Index>, coef: seq<real>, score: real, degree: nat, regParam: real)

  datatype SweepError = NoImprovement   // no degree scored below the initial best

  /** The sweep's state after comparing every degree in [lo, degree):
      `best` is the first degree reaching the least score seen, when some
      score beat the initial best. */
  ghost predicate Scanned(hyperbolic: nat -> seq<Index>, fit: seq<Index> -> Fit, lo: nat, degree: nat,
                          found: bool, bestDegree: nat, bestScore: real, bestFit: Fit)
  {
    && lo <= bestDegree && degree <= bestDegree + 2
    && (forall d :: lo <= d < degree ==> WithinCap(hyperbolic, lo, d))
    && (!found ==> bestScore == MaxDouble && bestDegree == lo)
    && (found ==> bestDegree < degree && bestFit == fit(hyperbolic(bestDegree)) && bestScore == bestFit.score)
    && bestScore <= MaxDouble
    && (forall d :: lo <= d < bestDegree ==> fit(hyperbolic(d)).score > bestScore)
    && (forall d :: lo <= d < degree ==> fit(hyperbolic(d)).score >= bestScore)
    && BestBefore(hyperbolic, fit, lo, degree) == (bestDegree, bestScore)
    && (forall d :: lo <= d < degree ==> !ScoreStops(hyperbolic, fit, lo, d))
  }

  /** Comparing one more degree keeps the sweep's state. */
  lemma ScanOne(hyperbolic: nat -> seq<Index>, fit: seq<Index> -> Fit, lo: nat, degree: nat,
                found: bool, bestDegree: nat, bestScore: real, bestFit: Fit)
    requires lo <= degree
    requires Scanned(hyperbolic, fit, lo, degree, found, bestDegree, bestScore, bestFit)
    requires WithinCap(hyperbolic, lo, degree)
    requires !ScoreStops(hyperbolic, fit, lo, degree)
    ensures var f := fit(hyperbolic(degree));
      if f.score < bestScore then Scanned(hyperbolic, fit, lo, degree + 1, true, degree, f.score, f)
      else Scanned(hyperbolic, fit, lo, degree + 1, found, bestDegree, bestScore, bestFit)
  {
  }

  /** The loop of lines 800-826 over degrees lo..hi. */
  method Sweep(hyperbolic: nat -> seq<Index>, fit: seq<Index> -> Fit, lo: nat, hi: nat)
    returns (found: bool, bestDegree: nat, bestScore: real, bestFit: Fit, ghost stop: nat)
    ensures lo <= stop && (stop <= hi + 1 || stop == lo)
    ensures Scanned(hyperbolic, fit, lo, stop, found, bestDegree, bestScore, bestFit)
    ensures found <==> bestScore < MaxDouble
    ensures stop <= hi ==> !WithinCap(hyperbolic, lo, stop) || ScoreStops(hyperbolic, fit, lo, stop)
  {
    bestScore, bestDegree, bestFit, found := MaxDouble, lo, Fit([], 0.0, 0.0), false;
    var prevNumTerms := 0;
    var degree := lo;
    while degree <= hi
      invariant lo <= degree && (degree <= hi + 1 || degree == lo)
      invariant prevNumTerms == PrevCount(hyperbolic, lo, degree)
      invariant Scanned(hyperbolic, fit, lo, degree, found, bestDegree, bestScore, bestFit)
      invariant found <==> bestScore < MaxDouble
      decreases hi + 1 - degree
    {
      var indices := hyperbolic(degree);
      var numTerms := |indices|;
      if numTerms > TermCap && TermCap - prevNumTerms < numTerms - TermCap {
        break;
      }
      var f := fit(indices);
      if f.score >= bestScore && degree - bestDegree > 1 {
        break;
      }
      ScanOne(hyperbolic, fit, lo, degree, found, bestDegree, bestScore, bestFit);
      if f.score < bestScore {
        bestScore, bestFit, bestDegree, found := f.score, f, degree, true;
      }
      prevNumTerms := numTerms;
      degree := degree + 1;
    }
    stop := degree;
  }

  /** `_cross_validate_pce_degree`. `hyperbolic(d)` is the hyperbolic-cross
      index set of degree `d`; `fit` is the regression on a basis. The ghost
      `stop` is the degree at which the loop ended: every degree in
      [lo, stop) was fitted and compared. */
  method CrossValidateDegree(hyperbolic: nat -> seq<Index>, fit: seq<Index> -> Fit,
                             minDegree: Option<nat>, maxDegree: Option<nat>)
    returns (r: Result<Selection, SweepError>, ghost stop: nat)
    // success: the selected basis is the hyperbolic cross of the selected
    // degree, fitted; the degree is within the cap and every degree fitted
    // before it scored strictly worse
    ensures r.Ok? ==>
      var lo := if minDegree.Some? then minDegree.value else 2;
      var s := r.value;
      && lo <= s.degree && s.indices == hyperbolic(s.degree)
      && s.score == fit(s.indices).score && s.coef == fit(s.indices).coef && s.regParam == fit(s.indices).regParam
      && s.score < MaxDouble
      && (forall d :: lo <= d <= s.degree ==> WithinCap(hyperbolic, lo, d))
      && (forall d :: lo <= d < s.degree ==> fit(hyperbolic(d)).score > s.score)
    ensures var lo := if minDegree.Some? then minDegree.value else 2;
      var hi := if maxDegree.Some? then maxDegree.value else MaxIntMinusOne;
      && lo <= stop && (stop <= hi + 1 || stop == lo)
      // no degree fitted was over the cap or met the score rule, and the
      // loop ended at the first degree that did (or past `hi`)
      && (forall d :: lo <= d < stop ==> WithinCap(hyperbolic, lo, d) && !ScoreStops(hyperbolic, fit, lo, d))
      && (stop <= hi ==> !WithinCap(hyperbolic, lo, stop) || ScoreStops(hyperbolic, fit, lo, stop))
      // failure: nothing beat the initial best score
      && (r.Err? ==> stop <= lo + 2 && forall d :: lo <= d < stop ==> fit(hyperbolic(d)).score >= MaxDouble)
      // success: the first degree reaching the least score among those compared
      && (r.Ok? ==>
            var s := r.value;
            && lo <= s.degree < stop <= s.degree + 2
            && s.indices == hyperbolic(s.degree)
            && s.score == fit(s.indices).score && s.coef == fit(s.indices).coef && s.regParam == fit(s.indices).regParam
            && s.score < MaxDouble
            && (forall d :: lo <= d < s.degree ==> fit(hyperbolic(d)).score > s.score)
            && (forall d :: s.degree < d < stop ==> fit(hyperbolic(d)).score >= s.score)
            && BestBefore(hyperbolic, fit, lo, stop) == (s.degree, s.score))
  {
    var lo := if minDegree.Some? then minDegree.value else 2;
    var hi := if maxDegree.Some? then maxDegree.value else MaxIntMinusOne;
    var found, bestDegree, bestScore, bestFit;
    found, bestDegree, bestScore, bestFit, stop := Sweep(hyperbolic, fit, lo, hi);
    if found {
      r := Ok(Selection(hyperbolic(bestDegree), bestFit.coef, bestScore, bestDegree, bestFit.regParam));
    } else {
      r := Err(NoImprovement);
    }
  }
}
