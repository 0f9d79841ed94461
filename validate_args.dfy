/**
 * The request-argument validator: eight guarded throws over `first`, `last`,
 * `after` and `before`, checked in a fixed order before any data is
 * touched. Every error it raises is a pagination error.
 */
module ValidateArgs {
  import opened Wrappers
  import opened Types
  import opened ConnectionError
  import opened NumberText

  const FirstNotNonNegative := "Argument \"first\" must be a non-negative integer."
  const LastNotNonNegative := "Argument \"last\" must be a non-negative integer."
  const BothFirstAndLast := "Passing both \"first\" and \"last\" to paginate the connection is not supported."
  const AfterInvalid := "Argument \"after\" is invalid."
  const BeforeInvalid := "Argument \"before\" is invalid."
  const PaginationRequired := "You must provide a `first` or `last` value to properly paginate the connection."

  /** The message for a page size above the configured limit, naming both numbers. */
  function LimitExceeded(arg: string, requested: int, limit: int): string {
    "Requesting " + IntToString(requested) + LimitTail(arg, limit)
  }

  /** What follows the requested number in the limit message. */
  function LimitTail(arg: string, limit: int): string {
    " records on the connection exceeds the \"" + arg + "\" limit of " + IntToString(limit) + " records."
  }

  /** Text between a fixed head and a fixed tail is determined by the whole. */
  lemma Between(head: string, a: string, b: string, tail: string)
    requires head + a + tail == head + b + tail
    ensures a == b
  {
    assert a == (head + a + tail)[|head|..|head| + |a|];
    assert b == (head + b + tail)[|head|..|head| + |b|];
  }

  /** The limit message names the requested number: two requests get the same message exactly when they asked for the same size. */
  lemma LimitExceededNamesRequest(arg: string, m: int, n: int, limit: int)
    ensures LimitExceeded(arg, m, limit) == LimitExceeded(arg, n, limit) <==> m == n
  {
    if LimitExceeded(arg, m, limit) == LimitExceeded(arg, n, limit) {
      Between("Requesting ", IntToString(m), IntToString(n), LimitTail(arg, limit));
      IntToStringInjective(m, n);
    }
  }

  /** A given page size that is not a number, or is negative. */
  predicate BadSize(v: Value) {
    IsDefined(v) && (!v.JNum? || v.n < 0)
  }

  /** A given page size above the limit (only reached once the size is known to be a number). */
  predicate AboveLimit(v: Value, maxLimit: int) {
    IsDefined(v) && v.JNum? && v.n > maxLimit
  }

  /** The number a size argument holds (only read once it is known to be a number). */
  function SizeOf(v: Value): int {
    if v.JNum? then v.n else 0
  }

  /** A given cursor that the cursor check refuses. */
  predicate BadCursor(v: Value, validateCursor: ValidateCursorFn) {
    IsDefined(v) && !validateCursor(v)
  }

  /**
   * The arguments the validator lets through, stated per argument: each
   * given size is a number between 0 and the limit, at most one of them is
   * given, and one is given when pagination is required; each given cursor
   * passes the cursor check.
   */
  predicate Acceptable(maxLimit: int, paginationRequired: bool, validateCursor: ValidateCursorFn, args: Args) {
    && (IsDefined(args.first) ==> args.first.JNum? && 0 <= args.first.n <= maxLimit)
    && (IsDefined(args.last) ==> args.last.JNum? && 0 <= args.last.n <= maxLimit)
    && !(IsDefined(args.first) && IsDefined(args.last))
    && (paginationRequired ==> IsDefined(args.first) || IsDefined(args.last))
    && (IsDefined(args.after) ==> validateCursor(args.after))
    && (IsDefined(args.before) ==> validateCursor(args.before))
  }

  /** The eight guarded throws, in source order. */
  function Checks(maxLimit: int, paginationRequired: bool, validateCursor: ValidateCursorFn, args: Args): seq<Check> {
    [ Check(BadSize(args.first), PaginationError(FirstNotNonNegative)),
      Check(BadSize(args.last), PaginationError(LastNotNonNegative)),
      Check(IsDefined(args.first) && IsDefined(args.last), PaginationError(BothFirstAndLast)),
      Check(BadCursor(args.after, validateCursor), PaginationError(AfterInvalid)),
      Check(BadCursor(args.before, validateCursor), PaginationError(BeforeInvalid)),
      Check(paginationRequired && !IsDefined(args.first) && !IsDefined(args.last), PaginationError(PaginationRequired)),
      Check(AboveLimit(args.first, maxLimit), PaginationError(LimitExceeded("first", SizeOf(args.first), maxLimit))),
      Check(AboveLimit(args.last, maxLimit), PaginationError(LimitExceeded("last", SizeOf(args.last), maxLimit))) ]
  }

  /**
   * `validateArgs({ maxLimit, paginationRequired, validateCursor })(args)`.
   * `maxLimit` and `paginationRequired` are a number and a boolean because
   * the configuration check has already run; no backwards-pagination flag
   * is read.
   */
  function Validate(maxLimit: int, paginationRequired: bool, validateCursor: ValidateCursorFn, args: Args): (r: Outcome<Error>)
    ensures r.Pass? <==> Acceptable(maxLimit, paginationRequired, validateCursor, args)
    ensures r.Fail? ==> r.error.PaginationError? && Code(r.error) == Some(PaginationCode)
    ensures BadSize(args.first) ==> r == Fail(PaginationError(FirstNotNonNegative))
    ensures !BadSize(args.first) && BadSize(args.last) ==> r == Fail(PaginationError(LastNotNonNegative))
  {
    if BadSize(args.first) then Fail(PaginationError(FirstNotNonNegative))
    else if BadSize(args.last) then Fail(PaginationError(LastNotNonNegative))
    else if IsDefined(args.first) && IsDefined(args.last) then Fail(PaginationError(BothFirstAndLast))
    else if BadCursor(args.after, validateCursor) then Fail(PaginationError(AfterInvalid))
    else if BadCursor(args.before, validateCursor) then Fail(PaginationError(BeforeInvalid))
    else if paginationRequired && !IsDefined(args.first) && !IsDefined(args.last) then Fail(PaginationError(PaginationRequired))
    else if AboveLimit(args.first, maxLimit) then Fail(PaginationError(LimitExceeded("first", args.first.n, maxLimit)))
    else if AboveLimit(args.last, maxLimit) then Fail(PaginationError(LimitExceeded("last", args.last.n, maxLimit)))
    else Pass
  }

  /** The validator is fail-fast in source order: its outcome is that of the first of the eight checks that fails. */
  lemma ValidateIsFirstFailure(maxLimit: int, paginationRequired: bool, validateCursor: ValidateCursorFn, args: Args)
    ensures Validate(maxLimit, paginationRequired, validateCursor, args) == FirstFailure(Checks(maxLimit, paginationRequired, validateCursor, args))
  {
    var cs := Checks(maxLimit, paginationRequired, validateCursor, args);
    assert cs[0..] == cs && cs[8..] == [];
    FirstFailureStep(cs, 0); FirstFailureStep(cs, 1); FirstFailureStep(cs, 2); FirstFailureStep(cs, 3);
    FirstFailureStep(cs, 4); FirstFailureStep(cs, 5); FirstFailureStep(cs, 6); FirstFailureStep(cs, 7);
  }

  /** `null` and `undefined` are interchangeable for every argument: both count as absent. */
  lemma NullIsAbsent(maxLimit: int, paginationRequired: bool, validateCursor: ValidateCursorFn, args: Args, a: Value, b: Value)
    requires (a.JNull? || a.JUndefined?) && (b.JNull? || b.JUndefined?)
    ensures Validate(maxLimit, paginationRequired, validateCursor, args.(first := a)) ==
            Validate(maxLimit, paginationRequired, validateCursor, args.(first := b))
    ensures Validate(maxLimit, paginationRequired, validateCursor, args.(last := a)) ==
            Validate(maxLimit, paginationRequired, validateCursor, args.(last := b))
    ensures Validate(maxLimit, paginationRequired, validateCursor, args.(after := a)) ==
            Validate(maxLimit, paginationRequired, validateCursor, args.(after := b))
    ensures Validate(maxLimit, paginationRequired, validateCursor, args.(before := a)) ==
            Validate(maxLimit, paginationRequired, validateCursor, args.(before := b))
  {
  }

  /**
   * A cursor problem is reported before a missing page size and before a
   * size above the limit, and `after` is reported before `before`.
   */
  lemma CursorErrorsPrecedeSizeErrors(maxLimit: int, paginationRequired: bool, validateCursor: ValidateCursorFn, args: Args)
    requires !BadSize(args.first) && !BadSize(args.last) && !(IsDefined(args.first) && IsDefined(args.last))
    requires BadCursor(args.after, validateCursor) || BadCursor(args.before, validateCursor)
    ensures Validate(maxLimit, paginationRequired, validateCursor, args) ==
      if BadCursor(args.after, validateCursor) then Fail(PaginationError(AfterInvalid)) else Fail(PaginationError(BeforeInvalid))
  {
  }

  /** A size equal to the limit passes; one more than the limit is refused with the limit message. */
  lemma LimitIsInclusive(maxLimit: int, paginationRequired: bool, validateCursor: ValidateCursorFn, n: int)
    requires 0 <= n
    ensures Validate(maxLimit, paginationRequired, validateCursor, Args(JNum(n), JUndefined, JUndefined, JUndefined)).Pass?
            <==> n <= maxLimit
    ensures Validate(maxLimit, paginationRequired, validateCursor, Args(JUndefined, JNum(n), JUndefined, JUndefined)).Pass?
            <==> n <= maxLimit
    ensures n > maxLimit ==>
      Validate(maxLimit, paginationRequired, validateCursor, Args(JNum(n), JUndefined, JUndefined, JUndefined)) ==
      Fail(PaginationError(LimitExceeded("first", n, maxLimit)))
  {
  }

  /**
   * An instance of `Validate`'s characterization: a well-formed backward
   * request (`last` alone, within the limit) passes; nothing in the check
   * looks at the paging direction.
   */
  lemma BackwardRequestAccepted(maxLimit: int, paginationRequired: bool, validateCursor: ValidateCursorFn, last: int, before: Value)
    requires 0 <= last <= maxLimit
    requires IsDefined(before) ==> validateCursor(before)
    ensures Validate(maxLimit, paginationRequired, validateCursor, Args(JUndefined, JNum(last), JUndefined, before)) == Pass
  {
  }
}
