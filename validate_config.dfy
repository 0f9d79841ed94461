/**
 * The configuration validator: four guarded throws over the option values
 * after defaults are applied, run once when a connection helper is made.
 * Its errors are plain configuration errors, without the pagination code.
 */
module ValidateConfig {
  import opened Wrappers
  import opened Types
  import opened ConnectionError

  const MaxLimitMessage := "Configuration option \"maxLimit\" must be a positive integer."
  const PaginationRequiredMessage := "Configuration option \"paginationRequired\" must be a boolean."
  const ToCursorMessage := "Configuration option \"toCursor\" must be a function."
  const ValidateCursorMessage := "Configuration option \"validateCursor\" must be a function."

  /** The six option values handed to the validator, as `typeof` sees them. */
  datatype ConfigValues = ConfigValues(
    maxLimit: Value,
    paginationRequired: Value,
    disableBackwardsPagination: Value,
    toCursor: Value,
    validateCursor: Value,
    getTotalCount: Value)

  /**
   * The configurations the validator lets through: a non-negative number
   * limit (zero included, although the message asks for a positive one), a
   * boolean `paginationRequired`, and function values for `toCursor` and
   * `validateCursor`.
   */
  predicate WellFormed(c: ConfigValues) {
    && c.maxLimit.JNum? && c.maxLimit.n >= 0
    && c.paginationRequired.JBool?
    && c.toCursor.JFun?
    && c.validateCursor.JFun?
  }

  /** The four guarded throws, in source order. */
  function Checks(c: ConfigValues): seq<Check> {
    [ Check(!c.maxLimit.JNum? || c.maxLimit.n < 0, ConfigurationError(MaxLimitMessage)),
      Check(!c.paginationRequired.JBool?, ConfigurationError(PaginationRequiredMessage)),
      Check(!c.toCursor.JFun?, ConfigurationError(ToCursorMessage)),
      Check(!c.validateCursor.JFun?, ConfigurationError(ValidateCursorMessage)) ]
  }

  /** `validateConfig(options)`. */
  function Validate(c: ConfigValues): (r: Outcome<Error>)
    ensures r.Pass? <==> WellFormed(c)
    ensures r.Fail? ==> r.error.ConfigurationError? && Code(r.error).None?
    ensures !c.maxLimit.JNum? || c.maxLimit.n < 0 ==> r == Fail(ConfigurationError(MaxLimitMessage))
  {
    if !c.maxLimit.JNum? || c.maxLimit.n < 0 then Fail(ConfigurationError(MaxLimitMessage))
    else if !c.paginationRequired.JBool? then Fail(ConfigurationError(PaginationRequiredMessage))
    else if !c.toCursor.JFun? then Fail(ConfigurationError(ToCursorMessage))
    else if !c.validateCursor.JFun? then Fail(ConfigurationError(ValidateCursorMessage))
    else Pass
  }

  /** The validator is fail-fast in source order: its outcome is that of the first of the four checks that fails. */
  lemma ValidateIsFirstFailure(c: ConfigValues)
    ensures Validate(c) == FirstFailure(Checks(c))
  {
    var cs := Checks(c);
    assert cs[0..] == cs && cs[4..] == [];
    FirstFailureStep(cs, 0); FirstFailureStep(cs, 1); FirstFailureStep(cs, 2); FirstFailureStep(cs, 3);
  }

  /** `disableBackwardsPagination` and `getTotalCount` are never inspected: any values for them give the same outcome. */
  lemma IgnoresUninspectedOptions(c: ConfigValues, disable: Value, count: Value)
    ensures Validate(c.(disableBackwardsPagination := disable, getTotalCount := count)) == Validate(c)
  {
  }

  /** A limit of zero is accepted; a negative one is refused with the `maxLimit` message. */
  lemma ZeroLimitAccepted(c: ConfigValues, n: int)
    requires c.paginationRequired.JBool? && c.toCursor.JFun? && c.validateCursor.JFun?
    ensures Validate(c.(maxLimit := JNum(n))).Pass? <==> n >= 0
    ensures Validate(c.(maxLimit := JNum(0))) == Pass
  {
  }
}
