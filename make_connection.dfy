/**
 * `makeConnection(options)(resolver, overrides)`: the defaults, the
 * configuration check that runs once when the helper is made, and the
 * per-request pipeline that checks the arguments, consults the resolver
 * and hands its items to the connection builder.
 */
module MakeConnection {
  import opened Wrappers
  import opened Types
  import opened ConnectionError
  import opened NumberText
  import opened ToConnection
  import ValidateArgs
  import ValidateConfig
  import ToConnectionProperties

  const DefaultMaxLimit := 100

  /** `defaultToCursor`: the decimal text of the item's index. */
  function DefaultToCursor<N>(node: N, args: Args, index: nat): (cursor: string)
    ensures forall i :: 0 <= i < |cursor| ==> IsDigit(cursor[i])
    ensures ParseNat(cursor) == index
  {
    ParseNatToString(index);
    NatToString(index)
  }

  /** `defaultValidateCursor`: a supplied cursor must be a non-empty string. */
  function DefaultValidateCursor(cursor: Value): (ok: bool)
    ensures ok <==> cursor.JStr? && cursor.s != ""
  {
    cursor.JStr? && |cursor.s| > 0
  }

  /** `defaultGetTotalCount`: the number of items the resolver produced. */
  function DefaultGetTotalCount<R, N>(root: R, data: seq<N>, args: Args): (count: int)
    ensures count == |data|
  {
    |data|
  }

  /**
   * The options object as given: plain values for the scalar options and
   * `Callable`s for the function options. `JUndefined` and
   * `NotCallable(JUndefined)` stand for an option that was left out.
   */
  datatype Options<!R, !N> = Options(
    maxLimit: Value,
    paginationRequired: Value,
    disableBackwardsPagination: Value,
    toCursor: Callable<ToCursorFn<N>>,
    validateCursor: Callable<ValidateCursorFn>,
    getTotalCount: Callable<TotalCountFn<R, N>>)

  /** `makeConnection()` with no options object at all. */
  function NoOptions<R, N>(): Options<R, N> {
    Options(JUndefined, JUndefined, JUndefined, NotCallable(JUndefined), NotCallable(JUndefined), NotCallable(JUndefined))
  }

  /** A destructuring default: it replaces `undefined` only, never `null`. */
  function OrDefault(v: Value, default: Value): Value {
    if v.JUndefined? then default else v
  }

  /** A function option that was left out. */
  predicate Absent<F>(c: Callable<F>) {
    c.NotCallable? && c.value.JUndefined?
  }

  function CallableOrDefault<F>(c: Callable<F>, default: F): Callable<F> {
    if Absent(c) then Fn(default) else c
  }

  /**
   * The options after the parameter defaults of `makeConnection` are
   * applied: each option left out takes its default, and every option that
   * was given, `null` included, is kept as it is.
   */
  function WithDefaults<R, N>(o: Options<R, N>): (d: Options<R, N>)
    ensures o.maxLimit.JUndefined? ==> d.maxLimit == JNum(DefaultMaxLimit)
    ensures o.paginationRequired.JUndefined? ==> d.paginationRequired == JBool(true)
    ensures o.disableBackwardsPagination.JUndefined? ==> d.disableBackwardsPagination == JBool(false)
    ensures Absent(o.toCursor) ==> d.toCursor == Fn(DefaultToCursor)
    ensures Absent(o.validateCursor) ==> d.validateCursor == Fn(DefaultValidateCursor)
    ensures Absent(o.getTotalCount) ==> d.getTotalCount == Fn(DefaultGetTotalCount)
    ensures !o.maxLimit.JUndefined? ==> d.maxLimit == o.maxLimit
    ensures !o.paginationRequired.JUndefined? ==> d.paginationRequired == o.paginationRequired
    ensures !o.disableBackwardsPagination.JUndefined? ==> d.disableBackwardsPagination == o.disableBackwardsPagination
    ensures !Absent(o.toCursor) ==> d.toCursor == o.toCursor
    ensures !Absent(o.validateCursor) ==> d.validateCursor == o.validateCursor
    ensures !Absent(o.getTotalCount) ==> d.getTotalCount == o.getTotalCount
  {
    Options(
      OrDefault(o.maxLimit, JNum(DefaultMaxLimit)),
      OrDefault(o.paginationRequired, JBool(true)),
      OrDefault(o.disableBackwardsPagination, JBool(false)),
      CallableOrDefault(o.toCursor, DefaultToCursor),
      CallableOrDefault(o.validateCursor, DefaultValidateCursor),
      CallableOrDefault(o.getTotalCount, DefaultGetTotalCount))
  }

  /** Applying the defaults twice changes nothing more: no option is left out afterwards. */
  lemma WithDefaultsIdempotent<R, N>(o: Options<R, N>)
    ensures WithDefaults(WithDefaults(o)) == WithDefaults(o)
    ensures var d := WithDefaults(o);
      && !d.maxLimit.JUndefined? && !d.paginationRequired.JUndefined? && !d.disableBackwardsPagination.JUndefined?
      && !Absent(d.toCursor) && !Absent(d.validateCursor) && !Absent(d.getTotalCount)
  {
  }

  /** What the configuration check sees of the options. */
  function Inspected<R, N>(o: Options<R, N>): ValidateConfig.ConfigValues {
    ValidateConfig.ConfigValues(o.maxLimit, o.paginationRequired, o.disableBackwardsPagination,
                                AsValue(o.toCursor), AsValue(o.validateCursor), AsValue(o.getTotalCount))
  }

  /** A configuration that passed the check; `getTotalCount` was never inspected and may not be callable. */
  datatype Config<!R, !N> = Config(
    maxLimit: int,
    paginationRequired: bool,
    disableBackwardsPagination: Value,
    toCursor: ToCursorFn<N>,
    validateCursor: ValidateCursorFn,
    getTotalCount: Callable<TotalCountFn<R, N>>)

  /**
   * `makeConnection(options)`: applies the defaults and runs the
   * configuration check once; a bad configuration fails here, before any
   * resolver is wrapped.
   */
  function Make<R, N>(options: Options<R, N>): (r: Result<Config<R, N>, Error>)
    ensures r.Failure? <==> !ValidateConfig.WellFormed(Inspected(WithDefaults(options)))
    ensures r.Failure? ==> r == Failure(ValidateConfig.Validate(Inspected(WithDefaults(options))).error)
    ensures r.Success? ==>
      && r.value.maxLimit >= 0
      && (options.maxLimit.JUndefined? ==> r.value.maxLimit == DefaultMaxLimit)
      && (options.maxLimit.JNum? ==> r.value.maxLimit == options.maxLimit.n)
      && (options.paginationRequired.JUndefined? ==> r.value.paginationRequired)
      && (options.paginationRequired.JBool? ==> r.value.paginationRequired == options.paginationRequired.b)
      && (options.disableBackwardsPagination.JUndefined? ==> r.value.disableBackwardsPagination == JBool(false))
      && (!options.disableBackwardsPagination.JUndefined? ==> r.value.disableBackwardsPagination == options.disableBackwardsPagination)
      && (options.toCursor.Fn? || Absent(options.toCursor))
      && (options.toCursor.Fn? ==> r.value.toCursor == options.toCursor.call)
      && (Absent(options.toCursor) ==> r.value.toCursor == DefaultToCursor)
      && (options.validateCursor.Fn? || Absent(options.validateCursor))
      && (options.validateCursor.Fn? ==> r.value.validateCursor == options.validateCursor.call)
      && (Absent(options.validateCursor) ==> r.value.validateCursor == DefaultValidateCursor)
      && (Absent(options.getTotalCount) ==> r.value.getTotalCount == Fn(DefaultGetTotalCount))
      && (!Absent(options.getTotalCount) ==> r.value.getTotalCount == options.getTotalCount)
  {
    var o := WithDefaults(options);
    match ValidateConfig.Validate(Inspected(o))
    case Fail(e) => Failure(e)
    case Pass =>
      Success(Config(o.maxLimit.n, o.paginationRequired.b, o.disableBackwardsPagination,
                     o.toCursor.call, o.validateCursor.call, o.getTotalCount))
  }

  /** The per-resolver options: `toCursor` and `validateCursor` only; `None` leaves the configured one in place. */
  datatype ResolverOptions<!N> = ResolverOptions(toCursor: Option<ToCursorFn<N>>, validateCursor: Option<ValidateCursorFn>)

  /** A wrapped resolver: the configuration and the cursor functions this resolver uses. */
  datatype Wrapped<!R, !N> = Wrapped(config: Config<R, N>, toCursor: ToCursorFn<N>, validateCursor: ValidateCursorFn)

  /**
   * `makeConnection(options)(resolver, overrides)`: a given per-resolver
   * option replaces the configured cursor function; the limits, the flags
   * and `getTotalCount` always come from the configuration.
   */
  function Wrap<R, N>(config: Config<R, N>, overrides: ResolverOptions<N>): (w: Wrapped<R, N>)
    ensures w.config == config
    ensures overrides.toCursor.Some? ==> w.toCursor == overrides.toCursor.value
    ensures overrides.toCursor.None? ==> w.toCursor == config.toCursor
    ensures overrides.validateCursor.Some? ==> w.validateCursor == overrides.validateCursor.value
    ensures overrides.validateCursor.None? ==> w.validateCursor == config.validateCursor
  {
    Wrapped(config,
            if overrides.toCursor.Some? then overrides.toCursor.value else config.toCursor,
            if overrides.validateCursor.Some? then overrides.validateCursor.value else config.validateCursor)
  }

  /** The argument check of a request: the configured limits with this resolver's cursor check. */
  function CheckArgs<R, N>(w: Wrapped<R, N>, args: Args): (r: Outcome<Error>)
    ensures r.Pass? <==> ValidateArgs.Acceptable(w.config.maxLimit, w.config.paginationRequired, w.validateCursor, args)
    ensures r.Fail? ==> r.error.PaginationError?
  {
    ValidateArgs.Validate(w.config.maxLimit, w.config.paginationRequired, w.validateCursor, args)
  }

  /**
   * The per-resolver overrides only change how cursors are made and
   * checked: without `after` and `before`, any two sets of overrides give
   * the same argument check.
   */
  lemma OverridesOnlyAffectCursors<R, N>(config: Config<R, N>, o1: ResolverOptions<N>, o2: ResolverOptions<N>, args: Args)
    requires !IsDefined(args.after) && !IsDefined(args.before)
    ensures CheckArgs(Wrap(config, o1), args) == CheckArgs(Wrap(config, o2), args)
  {
  }

  /** `resolver(...) ?? []`: a `null` or `undefined` result is no items. */
  function ResolvedData<N>(result: Option<seq<N>>): (data: seq<N>)
    ensures result.Some? ==> data == result.value
    ensures result.None? ==> data == []
  {
    if result.Some? then result.value else []
  }

  /**
   * One request to a wrapped resolver: the arguments are checked first, and
   * only when they pass is the resolver consulted (once) and a connection
   * built over its items; nothing of the connection is computed yet.
   * The resolver is a function here, so `resolverCalls` is bookkeeping: it
   * records where the body calls the resolver, and its contract pins the
   * call to the path where the arguments passed.
   */
  method Handle<R, N>(w: Wrapped<R, N>, resolver: (R, Args) -> Option<seq<N>>, enc: string -> string, root: R, args: Args)
    returns (r: Result<Connection<R, N>, Error>, ghost resolverCalls: nat)
    ensures r.Failure? <==> CheckArgs(w, args).Fail?
    ensures r.Failure? ==> r.error == CheckArgs(w, args).error && resolverCalls == 0
    ensures r.Success? ==>
      && resolverCalls == 1
      && fresh(r.value.Repr) && r.value.Valid()
      && r.value.root == root && r.value.data == ResolvedData(resolver(root, args)) && r.value.args == args
      && r.value.toCursor == w.toCursor && r.value.getTotalCount == w.config.getTotalCount && r.value.enc == enc
      && r.value.page.None? && r.value.nodes.None? && r.value.windowRuns == 0
  {
    var check := CheckArgs(w, args);
    if check.Fail? {
      return Failure(check.error), 0;
    }
    var result := resolver(root, args);
    resolverCalls := 1;
    var connection := new Connection(root, ResolvedData(result), args, w.toCursor, w.config.getTotalCount, enc);
    r := Success(connection);
  }

  /** The Base64 wrapper as the connection builder needs it: injective, and non-empty on non-empty text. */
  ghost predicate Base64Like(enc: string -> string) {
    && Injective(enc)
    && forall s :: |s| > 0 ==> |enc(s)| > 0
  }

  /** Without options, the configuration is the documented defaults. */
  lemma DefaultConfiguration<R, N>()
    ensures Make(NoOptions<R, N>()) ==
      Success(Config(DefaultMaxLimit, true, JBool(false), DefaultToCursor, DefaultValidateCursor, Fn(DefaultGetTotalCount)))
  {
  }

  /** A `null` option is not replaced by its default, so the configuration check refuses it. */
  lemma NullOptionsRejected<R, N>()
    ensures Make(NoOptions<R, N>().(maxLimit := JNull)) == Failure(ConfigurationError(ValidateConfig.MaxLimitMessage))
    ensures Make(NoOptions<R, N>().(toCursor := NotCallable(JNull))) == Failure(ConfigurationError(ValidateConfig.ToCursorMessage))
  {
  }

  /** With the default `toCursor` and an injective wrapper, the items get pairwise distinct cursors. */
  lemma DefaultCursorsDistinct<N>(enc: string -> string, data: seq<N>, args: Args)
    requires Injective(enc)
    ensures Distinct(Cursors(enc, DefaultToCursor, data, args))
  {
    var cs := Cursors(enc, DefaultToCursor, data, args);
    forall i, j | 0 <= i < j < |cs|
      ensures cs[i] != cs[j]
    {
      EdgeCursorDetermines(enc, DefaultToCursor, data[i], args, i, data[j], args, j);
    }
  }

  /** Every cursor the connection builder hands out passes the default cursor check. */
  lemma CursorsPassDefaultCheck<N>(enc: string -> string, toCursor: ToCursorFn<N>, data: seq<N>, args: Args, i: int)
    requires Base64Like(enc) && 0 <= i < |data|
    ensures DefaultValidateCursor(JStr(Cursors(enc, toCursor, data, args)[i]))
  {
    var text := CursorPrefix + toCursor(data[i], args, i);
    assert |text| > 0;
  }

  /** A connection built with the default total count reports the number of items. */
  lemma DefaultTotalCountIsLength<R, N>(c: Connection<R, N>)
    requires c.getTotalCount == Fn(DefaultGetTotalCount)
    ensures c.TotalCount() == Success(|c.data|)
  {
  }

  /** The backwards-pagination option is passed along but never read: it cannot change the argument check. */
  lemma BackwardsFlagIgnored<R, N>(w: Wrapped<R, N>, args: Args, flag: Value)
    ensures CheckArgs(w.(config := w.config.(disableBackwardsPagination := flag)), args) == CheckArgs(w, args)
  {
  }

  /** The default helper, wrapping a resolver without overrides. */
  function DefaultWrapped<R, N>(): Wrapped<R, N> {
    Wrap(Config(DefaultMaxLimit, true, JBool(false), DefaultToCursor, DefaultValidateCursor, Fn(DefaultGetTotalCount)),
         ResolverOptions(None, None))
  }

  /**
   * Forward paging with the defaults over three items: `after` set to the
   * first item's cursor with `first = 1` passes the checks and yields the
   * second item, with a next page after it.
   */
  lemma AfterFirstItemScenario<R, N>(enc: string -> string, data: seq<N>)
    requires Base64Like(enc) && |data| == 3
    ensures var args := Args(JNum(1), JUndefined, JStr(EdgeCursor(enc, DefaultToCursor, data[0], Args(JUndefined, JUndefined, JUndefined, JUndefined), 0)), JUndefined);
      var cs := Cursors(enc, DefaultToCursor, data, args);
      && CheckArgs(DefaultWrapped<R, N>(), args) == Pass
      && Window(cs, args).Success?
      && var (lo, hi) := EdgeRange(|data|, Window(cs, args).value);
      && data[lo..hi] == [data[1]]
      && PageInfoOf(cs, args, Window(cs, args).value).hasNextPage
  {
    var args := Args(JNum(1), JUndefined, JStr(EdgeCursor(enc, DefaultToCursor, data[0], Args(JUndefined, JUndefined, JUndefined, JUndefined), 0)), JUndefined);
    var cs := Cursors(enc, DefaultToCursor, data, args);
    DefaultCursorsDistinct(enc, data, args);
    CursorsPassDefaultCheck(enc, DefaultToCursor, data, args, 0);
    assert cs[0] == args.after.s;
    ToConnectionProperties.AfterThenFirstOne(cs, 0);
  }

  /**
   * Backward paging with the defaults over three items: `before` set to the
   * third item's cursor with `last = 1` passes the checks and yields the
   * second item, with a previous page before it.
   */
  lemma BeforeThirdItemScenario<R, N>(enc: string -> string, data: seq<N>)
    requires Base64Like(enc) && |data| == 3
    ensures var args := Args(JUndefined, JNum(1), JUndefined, JStr(EdgeCursor(enc, DefaultToCursor, data[2], Args(JUndefined, JUndefined, JUndefined, JUndefined), 2)));
      var cs := Cursors(enc, DefaultToCursor, data, args);
      && CheckArgs(DefaultWrapped<R, N>(), args) == Pass
      && Window(cs, args).Success?
      && var (lo, hi) := EdgeRange(|data|, Window(cs, args).value);
      && data[lo..hi] == [data[1]]
      && PageInfoOf(cs, args, Window(cs, args).value).hasPreviousPage
  {
    var args := Args(JUndefined, JNum(1), JUndefined, JStr(EdgeCursor(enc, DefaultToCursor, data[2], Args(JUndefined, JUndefined, JUndefined, JUndefined), 2)));
    var cs := Cursors(enc, DefaultToCursor, data, args);
    DefaultCursorsDistinct(enc, data, args);
    CursorsPassDefaultCheck(enc, DefaultToCursor, data, args, 2);
    assert cs[2] == args.before.s;
    ToConnectionProperties.BeforeThenLastOne(cs, 2);
  }

  /**
   * With `maxLimit: 2`, asking for ten items fails with the limit message,
   * which prints both numbers in decimal.
   */
  lemma LimitScenario<R, N>()
    ensures Make(NoOptions<R, N>().(maxLimit := JNum(2))).Success?
    ensures var w := Wrap(Make(NoOptions<R, N>().(maxLimit := JNum(2))).value, ResolverOptions(None, None));
      CheckArgs(w, Args(JNum(10), JUndefined, JUndefined, JUndefined)) ==
        Fail(PaginationError(ValidateArgs.LimitExceeded("first", 10, 2)))
    ensures IntToString(10) == "10" && IntToString(2) == "2"
  {
    assert NatToString(10) == NatToString(1) + [DigitChar(0)];
  }

  /**
   * With the defaults, an empty `after` is refused as invalid, and a
   * request with neither `first` nor `last` is refused because pagination
   * is required.
   */
  lemma DefaultRequestScenarios<R, N>()
    ensures CheckArgs(DefaultWrapped<R, N>(), Args(JNum(10), JUndefined, JStr(""), JUndefined)) ==
      Fail(PaginationError(ValidateArgs.AfterInvalid))
    ensures CheckArgs(DefaultWrapped<R, N>(), Args(JNum(10), JUndefined, JUndefined, JStr(""))) ==
      Fail(PaginationError(ValidateArgs.BeforeInvalid))
    ensures CheckArgs(DefaultWrapped<R, N>(), Args(JUndefined, JUndefined, JUndefined, JUndefined)) ==
      Fail(PaginationError(ValidateArgs.PaginationRequired))
  {
  }
}
