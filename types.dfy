/**
 * The JavaScript values that reach the pagination core: the four Relay
 * connection arguments and the function-valued configuration options.
 */
module Types {
  import opened Wrappers

  /**
   * A JavaScript value as far as the core's `typeof` and `=== null` tests can
   * tell values apart. Numbers are integers; `JFun` is a function value whose
   * behaviour the core never calls.
   */
  datatype Value =
    | JUndefined
    | JNull
    | JNum(n: int)
    | JBool(b: bool)
    | JStr(s: string)
    | JFun
    | JOther

  /** The validators' notion of a given argument: neither `undefined` nor `null`. */
  predicate IsDefined(v: Value) {
    !v.JUndefined? && !v.JNull?
  }

  /** A value that is not a function. */
  type PlainValue = v: Value | !v.JFun? witness JUndefined

  /**
   * A value in a position where a function is expected: either a function the
   * model can call, or some other value (`NotCallable(JUndefined)` is an
   * option that was not given at all).
   */
  datatype Callable<!F> = Fn(call: F) | NotCallable(value: PlainValue)

  /** The `typeof` view of a function-position value. */
  function AsValue<F>(c: Callable<F>): (v: Value)
    ensures v.JFun? <==> c.Fn?
  {
    match c
    case Fn(_) => JFun
    case NotCallable(v) => v
  }

  /** The Relay connection arguments `first`, `last`, `after` and `before`. */
  datatype Args = Args(first: Value, last: Value, after: Value, before: Value)

  /** `(node, args, index) => string`: the cursor text of one item. */
  type ToCursorFn<!N> = (N, Args, nat) -> string

  /** `(cursor) => boolean`: the syntactic check of a supplied cursor. */
  type ValidateCursorFn = Value -> bool

  /** `(root, data, args) => number`: the reported total count. */
  type TotalCountFn<!R, !N> = (R, seq<N>, Args) -> int
}
