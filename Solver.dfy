/** The option handling of `fit_linear_model`: which solver kinds are
    accepted, which estimator variant is used, the `max_iter` clamp for
    orthogonal matching pursuit, and folding the intercept into the first
    coefficient. The estimators themselves are an oracle. */
module Solver {
  import opened Wrappers

  datatype SolverKind = Lasso | LassoGrad | Lars | Omp | Lstsq

  datatype SolverError =
    | UnsupportedSolver(name: string)   // not a key of the solver table
    | LarsDisabled                      // 'lars' is in the table but always refused
    | EmptyCoefficients                 // `coef[0]` on an empty coefficient vector
    | CvFalseRejected                   // `cv=False` reaches a plain estimator, which has no cross validation
    | NoRegParamExtractor               // LassoCV is not among the types whose parameter is extracted
    | MaxIterRejected                   // the least-squares constructors take no `max_iter` keyword

  /** A value of the `cv` keyword other than `False`, passed on unchanged to
      the cross-validating estimator: `None`, a number of folds, or a
      splitter object (known here only by an identity). */
  datatype CvValue = CvNone | CvFolds(folds: int) | CvSplitter(id: nat)

  /** The `cv` keyword: missing, the literal `False`, or another value. */
  datatype CvSetting = CvAbsent | CvFalse | CvGiven(value: CvValue)

  datatype Options = Options(cv: CvSetting, maxIter: Option<int>)

  /** Which estimator is built, and with which keyword arguments. */
  datatype Plan = Plan(kind: SolverKind, crossValidated: bool, options: Options)

  /** What the estimator oracle returns after fitting. */
  datatype Estimate = Estimate(coef: seq<real>, intercept: real, cvScore: real, regParam: real)

  /** What `fit_linear_model` returns: the coefficients, and the score and
      regularisation parameter when a `cv` keyword was given. */
  datatype FitOutput = FitOutput(coef: seq<real>, cvScore: Option<real>, regParam: Option<real>)

  /** The solver table lookup followed by the refusal of 'lars'. */
  function ParseSolver(name: string): (r: Result<SolverKind, SolverError>)
    ensures r.Ok? <==> name in {"lasso", "lasso_grad", "lars", "omp", "lstsq"}
    ensures r.Err? ==> r == Err(UnsupportedSolver(name))
    ensures r.Ok? ==>
      && (r.value == Lars <==> name == "lars") && (r.value == Omp <==> name == "omp")
      && (r.value == LassoGrad <==> name == "lasso_grad") && (r.value == Lstsq <==> name == "lstsq")
  {
    if name == "lasso" then Ok(Lasso)
    else if name == "lasso_grad" then Ok(LassoGrad)
    else if name == "lars" then Ok(Lars)
    else if name == "omp" then Ok(Omp)
    else if name == "lstsq" then Ok(Lstsq)
    else Err(UnsupportedSolver(name))
  }

  function Min(a: int, b: int): (m: int)
  {
    if a <= b then a else b
  }

  /** Validation and estimator selection for a design matrix with `ncols`
      columns. The accepted names are exactly lasso, lasso_grad, omp and
      lstsq; 'lars' is refused with its own error, any other name as
      unsupported. An accepted plan uses the non-cross-validating estimator
      exactly when `cv` is absent or `False`, passes `cv` on unchanged, and
      changes `max_iter` only for 'omp', where it becomes
      min(max_iter, ncols). */
  function PlanFit(name: string, opts: Options, ncols: nat): (r: Result<Plan, SolverError>)
    ensures r.Ok? <==> name in {"lasso", "lasso_grad", "omp", "lstsq"}
    ensures name == "lars" ==> r == Err(LarsDisabled)
    ensures name !in {"lasso", "lasso_grad", "lars", "omp", "lstsq"} ==> r == Err(UnsupportedSolver(name))
    ensures r.Ok? ==>
      && r.value.kind != Lars
      && (r.value.kind == Omp <==> name == "omp")
      && (r.value.crossValidated <==> opts.cv.CvGiven?)
      && r.value.options.cv == opts.cv
      && r.value.options.maxIter.Some? == opts.maxIter.Some?
      && (r.value.kind != Omp ==> r.value.options.maxIter == opts.maxIter)
      && (r.value.kind == Omp && opts.maxIter.Some? ==>
            && r.value.options.maxIter.value <= opts.maxIter.value
            && r.value.options.maxIter.value <= ncols
            && (r.value.options.maxIter.value == opts.maxIter.value || r.value.options.maxIter.value == ncols))
  {
    match ParseSolver(name)
    case Err(e) => Err(e)
    case Ok(kind) =>
      if kind == Lars then Err(LarsDisabled)
      else
        var maxIter := if kind == Omp && opts.maxIter.Some? then Some(Min(opts.maxIter.value, ncols)) else opts.maxIter;
        var crossValidated := !(opts.cv == CvAbsent || opts.cv == CvFalse);
        Ok(Plan(kind, crossValidated, Options(opts.cv, maxIter)))
  }

  /** `coef[0] += intercept`: the constant-term coefficient absorbs the
      estimator's intercept, so predicting with the coefficients alone
      reproduces the estimator's prediction. */
  function FoldIntercept(coef: seq<real>, intercept: real): (r: Result<seq<real>, SolverError>)
    ensures r.Err? <==> coef == []
    ensures r.Ok? ==>
      && |r.value| == |coef| && r.value[0] - intercept == coef[0]
      && forall j :: 1 <= j < |coef| ==> r.value[j] == coef[j]
  {
    if coef == [] then Err(EmptyCoefficients)
    else Ok([coef[0] + intercept] + coef[1..])
  }

  /** `fit_linear_model` with the estimator as an oracle of the plan.
      Besides the option checks, three paths raise: an empty coefficient
      vector (line 647); `cv=False`, which is passed to the plain estimator
      (`LinearLeastSquares`, line 522, takes no `cv`) and then asks it for a
      cross-validation score it does not have (lines 672-678); and
      'lasso_grad' with cross validation, whose `LassoCV` result has no
      branch in the parameter extraction (lines 658-670). And 'lstsq' with
      `max_iter` raises in the constructor (line 636), since neither
      `LinearLeastSquares` (line 522) nor `LinearLeastSquaresCV` (line 538)
      takes that keyword. */
  function FitLinearModel(name: string, opts: Options, ncols: nat, estimator: Plan -> Estimate): (r: Result<FitOutput, SolverError>)
    ensures r.Ok? ==> PlanFit(name, opts, ncols).Ok?
    ensures r.Err? <==>
      || PlanFit(name, opts, ncols).Err?
      || opts.cv == CvFalse
      || (opts.cv.CvGiven? && name == "lasso_grad")
      || (name == "lstsq" && opts.maxIter.Some?)
      || estimator(PlanFit(name, opts, ncols).value).coef == []
    ensures PlanFit(name, opts, ncols).Err? ==> r == Err(PlanFit(name, opts, ncols).error)
    ensures r == Err(MaxIterRejected) <==> name == "lstsq" && opts.maxIter.Some? && opts.cv != CvFalse
    ensures r.Ok? ==> var e := estimator(PlanFit(name, opts, ncols).value);
      && |r.value.coef| == |e.coef| > 0 && r.value.coef[0] == e.coef[0] + e.intercept
      && r.value.coef[1..] == e.coef[1..]
      && (r.value.cvScore.Some? <==> opts.cv.CvGiven?)
      && (r.value.regParam.Some? <==> opts.cv.CvGiven?)
      && (r.value.cvScore.Some? ==> r.value.cvScore.value == e.cvScore && r.value.regParam == Some(e.regParam))
  {
    match PlanFit(name, opts, ncols)
    case Err(err) => Err(err)
    case Ok(plan) =>
      if opts.cv == CvFalse && plan.kind == Lstsq then Err(CvFalseRejected)
      else if plan.kind == Lstsq && opts.maxIter.Some? then Err(MaxIterRejected)
      else
        var e := estimator(plan);
        match FoldIntercept(e.coef, e.intercept)
        case Err(err) => Err(err)
        case Ok(coef) =>
          if opts.cv == CvAbsent then Ok(FitOutput(coef, None, None))
          else if opts.cv == CvFalse then Err(CvFalseRejected)
          else if plan.kind == LassoGrad then Err(NoRegParamExtractor)
          else Ok(FitOutput(coef, Some(e.cvScore), Some(e.regParam)))
  }
}
