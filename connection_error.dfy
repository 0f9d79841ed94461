/**
 * Errors raised by the pagination core. Request-time errors are instances of
 * `GraphQLConnectionError` and carry the extension code
 * `RELAY_PAGINATION_ERROR`; configuration errors are plain `Error`s.
 */
module ConnectionError {
  import opened Wrappers

  const PaginationCode := "RELAY_PAGINATION_ERROR"

  datatype Error =
    | PaginationError(message: string)     // GraphQLConnectionError(message)
    | ConfigurationError(message: string)  // new Error(message)
    | NotCallableError(name: string)       // runtime TypeError: calling a non-function

  /** The machine-readable code a GraphQL client sees in the error's extensions. */
  function Code(e: Error): (c: Option<string>)
    ensures c.Some? <==> e.PaginationError?
    ensures c.Some? ==> c.value == PaginationCode
  {
    if e.PaginationError? then Some(PaginationCode) else None
  }

  /** One guarded `throw` of a fail-fast validator: whether its guard holds and what it throws. */
  datatype Check = Check(fails: bool, error: Error)

  /**
   * Running guarded throws in order: the first whose guard holds decides the
   * error; when none holds, the validator returns normally.
   */
  function FirstFailure(checks: seq<Check>): (r: Outcome<Error>)
    ensures r.Pass? <==> forall i :: 0 <= i < |checks| ==> !checks[i].fails
    ensures r.Fail? ==> exists i :: 0 <= i < |checks| && checks[i].fails && r.error == checks[i].error &&
                                    forall j :: 0 <= j < i ==> !checks[j].fails
  {
    if checks == [] then Pass
    else if checks[0].fails then Fail(checks[0].error)
    else
      var rest := FirstFailure(checks[1..]);
      assert forall i :: 1 <= i < |checks| ==> checks[i] == checks[1..][i - 1];
      rest
  }

  /** One step of the fail-fast chain: the check at position `k` decides, or the rest of the chain does. */
  lemma FirstFailureStep(checks: seq<Check>, k: nat)
    requires k < |checks|
    ensures FirstFailure(checks[k..]) ==
      if checks[k].fails then Fail(checks[k].error) else FirstFailure(checks[k + 1..])
  {
    assert checks[k..][1..] == checks[k + 1..];
  }
}
