/** What the search drivers see of the regression backend. */
module Fitting {

  /** One regression fit: coefficients aligned with the basis columns, the
      cross-validation score (lower is better) and the chosen
      regularisation parameter. The random state is restored around every
      fit, so a fit is a function of the basis alone. */
  datatype Fit = Fit(coef: seq<real>, score: real, regParam: real)

  /** `np.finfo(np.double).max`, the starting "best" score of the degree
      sweep. */
  const MaxDouble: real := 179769313486231570814527423731704356798070567525844996598917476803157260780028538760589558632766878171540458953514382464234321326889464182768467546703537516986049910576551282076245490090389328944075868508455133942304583236903222948165808559332123348274797826204144723168738177180919299881250404026184124858368.0

  /** `np.iinfo(int).max - 1`, the degree sweep's upper bound when none is
      given. */
  const MaxIntMinusOne: nat := 9223372036854775806
}
