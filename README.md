# connection-resolver-helper, modelled in Dafny

This project models the pagination core of `connection-resolver-helper`, a helper that turns a GraphQL resolver's list of items into a Relay-style connection: `edges` (each with a `node`, the `root` and an opaque `cursor`), `nodes`, `pageInfo` (`hasNextPage`, `hasPreviousPage`, `startCursor`, `endCursor`) and `totalCount`. The model covers four parts:

- **The connection builder** (`toConnection` and `toEdge`; modules `ToConnection` and `ToConnectionProperties`). `Connection` and `Edge` are classes with once-only caches. `Connection.GetEdges` is the windowing pass, written as a loop over the items. It builds every edge and resolves `after`/`before` to the last index whose cursor matches. It then reports an unmatched cursor (`after` first), slices for `first` and then for `last`, and caches the result. The pass is proved against the pure functions `Window`, `EdgeRange` and `PageInfoOf`. The lemmas state what those promise: the forward and backward slice bounds, what the two page-info booleans mean, and that paging on from `endCursor`/`startCursor` yields the adjacent page.
- **The argument check** (`validateArgs`; module `ValidateArgs`): eight fail-fast checks over `first`, `last`, `after` and `before`.
- **The configuration check** (`validateConfig`; module `ValidateConfig`): four fail-fast checks over option values.
- **The defaults and the request pipeline** (`makeConnection`; module `MakeConnection`). The configuration is checked once when the helper is made. Each request is then handled in order: check the arguments, consult the resolver, apply `?? []`, build the connection.

JavaScript values are the tagged datatype `Types.Value`. Only the distinctions the code's `typeof` and `=== null` tests make are kept. A function option is a `Callable`, which is either a callable function or some other value. The Base64 wrapper (section 4 of RFC 4648, via Node's `Buffer`) is a parameter `enc: string -> string`. Where a property needs it, the lemma assumes it is injective, and non-empty on non-empty text (`MakeConnection.Base64Like`). Errors are the datatype `ConnectionError.Error`. Argument and cursor errors carry the code `RELAY_PAGINATION_ERROR`. Configuration errors, and the `NotCallableError` a non-callable `getTotalCount` gives on a `totalCount` read, have no code.

The ghost counters `Connection.windowRuns` and `Edge.evaluations` count the runs of the windowing pass and of each edge's `toCursor` call. Every getter adds one to a counter exactly when nothing was cached yet. No getter replaces or discards a cached result: the pass, the node list and every memoized edge cursor are kept. The classes' `Valid` invariants keep both counters at most one.

## Model

| member | source | states |
|---|---|---|
| ConnectionError.Code | src/GraphQLConnectionError.ts:3-8 | exactly the pagination errors carry an extension code, and it is `RELAY_PAGINATION_ERROR` |
| ConnectionError.FirstFailure | src/validateArgs.ts:21-55 | a chain of guarded throws passes iff no guard holds; otherwise the error is that of the first guard that holds |
| ToConnection.CursorNotFound | src/toConnection.ts:18-22 | an unmatched cursor is reported as a pagination error naming the argument and the cursor |
| ToConnection.EdgeCursorDetermines | src/toConnection.ts:27-32 | with an injective Base64 wrapper, two items share a cursor exactly when `toCursor` gives them the same text |
| ToConnection.LastMatch | src/toConnection.ts:61-69 | the offset the search loop leaves behind is -1 or an index of an item |
| ToConnection.LastMatchIsLargest | src/toConnection.ts:61-70 | the search loop's offset is -1 exactly when no item has the cursor; otherwise it is the largest index whose cursor matches |
| ToConnection.LastMatchExtend | src/toConnection.ts:64-69 | one more item moves the match offset to that item when its cursor matches, and leaves it otherwise |
| ToConnection.SliceRange | src/toConnection.ts:82 | `slice(start, end)` keeps `[start, end)` for in-range bounds and nothing for an inverted range |
| ToConnection.Window | src/toConnection.ts:58-99 | the pass fails iff a string `after` or `before` matches no item, and reports `after` first; otherwise both offsets are the last matching indices, or 0 and the item count when absent |
| ToConnection.WindowFrom | src/toConnection.ts:72-89 | the pass fails exactly on a -1 offset, and otherwise keeps the offsets it was given |
| ToConnection.PageInfoOf | src/toConnection.ts:105-128 | `startCursor`/`endCursor` are null iff the page is empty, and otherwise are the cursors of its first and last item; `hasNextPage` is false with `last`, `hasPreviousPage` is false with `first`, and both are false on an empty page |
| ToConnection.Edge.constructor | src/toConnection.ts:24-35 | a new edge holds its index, root and node, and has not computed its cursor |
| ToConnection.Edge.Cursor | src/toConnection.ts:27-39 | the getter yields `enc("arrayconnection:" + toCursor(node, args, index))` and memoizes it; the evaluation count grows by one on the first read only |
| ToConnection.Connection.constructor | src/toConnection.ts:43-56 | `toConnection` only captures its inputs; no pass has run |
| ToConnection.Connection.VisitItem | src/toConnection.ts:64-69 | one loop step builds edge `index` for `data[index]`, and moves an offset to `index` only when that argument is a string equal to the edge's cursor |
| ToConnection.Connection.BuildEdges | src/toConnection.ts:59-70 | after the loop there is one fresh edge per item, in data order, and each offset is the last matching index (-1 if none), or its absent default |
| ToConnection.Connection.Slice | src/toConnection.ts:72-89 | an unmatched cursor becomes the matching error; otherwise the page is the slice `EdgeRange` selects of all edges |
| ToConnection.Connection.RunPass | src/toConnection.ts:58-100 | the whole pass agrees with `Window`: same error, or edge `k` of the page is the edge for item `lo + k` |
| ToConnection.Connection.GetEdges | src/toConnection.ts:58-100 | the pass runs on the first call only (`windowRuns` grows by one exactly then); later calls return the cached page or error and change nothing |
| ToConnection.Connection.Cache | src/toConnection.ts:58-100 | the first run's result becomes the cached pass, exactly one run is counted, and only that run's edges join the footprint |
| ToConnection.Connection.Edges | src/toConnection.ts:133-135 | `edges` is the cached page: the edges for items `lo .. hi-1` of `EdgeRange`, or the pass's error; an existing cached pass is kept and not re-run, and the cached node list is kept |
| ToConnection.Connection.Nodes | src/toConnection.ts:102-132 | `nodes` is `data[lo..hi]`, the nodes of the page's edges in order, computed once and then served from the cache; it shares the once-only pass, keeping an existing cached pass and running it only when none is cached |
| ToConnection.Connection.BoundaryCursors | src/toConnection.ts:122-127 | the first and last edge's cursors are `cursors[lo]` and `cursors[hi-1]`, or null on an empty page; the connection is unchanged and every already-memoized edge cursor keeps its memo without running `toCursor` again |
| ToConnection.Connection.GetPageInfo | src/toConnection.ts:105-129 | `pageInfo` equals `PageInfoOf` of the pass, or fails with the pass's error; it runs the pass only when none is cached and keeps an existing one, keeps the cached node list, and keeps every memoized cursor of a previously cached page |
| ToConnection.Connection.TotalCount | src/toConnection.ts:136-138 | `totalCount` calls `getTotalCount(root, data, args)`; it fails only when that option is not callable, and never runs the pass |
| ToConnectionProperties.LastMatchDistinct | src/toConnection.ts:64-70 | with distinct cursors, the cursor of item `i` resolves to `i` |
| ToConnectionProperties.WholeListWithoutSize | src/toConnection.ts:59-89 | with neither `first` nor `last`, the page is every item, even when `after`/`before` resolve, and neither boolean is set |
| ToConnectionProperties.ForwardPage | src/toConnection.ts:79-83 | with `first`, the page starts past the `after` item (or at 0) and has `min(first, max(0, before - start))` items |
| ToConnectionProperties.BackwardPage | src/toConnection.ts:85-89 | with `last`, the page starts at `max(afterOffset, beforeOffset - last)` and has `min(last, max(0, beforeOffset - afterOffset))` items; an inverted range is empty |
| ToConnectionProperties.BackwardPageIncludesAfterItem | src/toConnection.ts:86 | with `last` and `after`, when `last` reaches back far enough, `startCursor` is the `after` cursor itself |
| ToConnectionProperties.HasNextPageMeaning | src/toConnection.ts:112-116 | `hasNextPage` holds iff `last` is absent, the page is non-empty and it ends before `beforeOffset` |
| ToConnectionProperties.HasPreviousPageMeaning | src/toConnection.ts:117-121 | `hasPreviousPage` holds iff `first` is absent, the page is non-empty and it starts past the item after `after` (or past 0) |
| ToConnectionProperties.ResumeAfter | src/toConnection.ts:64-83 | with distinct cursors, moving `after` to item `i` while keeping `first` and `before` starts the forward page at `i + 1` |
| ToConnectionProperties.NextPageContinues | src/toConnection.ts:79-116 | passing `endCursor` as `after` with the same `first` and `before` yields the items from right after the page up to `before` (or the end), and that page is non-empty iff `hasNextPage` was reported |
| ToConnectionProperties.PreviousPageContinues | src/toConnection.ts:85-121 | for requests without `after`: passing `startCursor` as `before` with the same `last` yields the items right before the page, and that page is non-empty iff `hasPreviousPage` was reported |
| ToConnectionProperties.PagingBackReachesAfterItem | src/toConnection.ts:86-121 | with `after` kept, backward paging does not continue cleanly: over three items, `after` = item 0 and `last = 2` give items 1-2 with no previous page, yet paging back from `startCursor` yields item 0, the `after` item itself |
| ToConnectionProperties.AfterThenFirstOne | src/auto-pagination.test.ts:72-97 | `after` set to item `i`'s cursor with `first = 1` selects item `i + 1` alone, and reports a next page iff another item follows |
| ToConnectionProperties.BeforeThenLastOne | src/auto-pagination.test.ts:127-152 | `before` set to item `i`'s cursor with `last = 1` selects item `i - 1` alone, and reports a previous page iff `i >= 2` |
| ValidateArgs.LimitExceededNamesRequest | src/validateArgs.ts:47-55 | the limit message names the requested size: two sizes get the same message iff they are equal |
| ValidateArgs.Validate | src/validateArgs.ts:15-56 | the arguments pass iff each given size is a number in `[0, maxLimit]`, at most one size is given (and one is given when pagination is required), and each given cursor passes the cursor check; every failure is a pagination error; a bad `first` is reported before a bad `last` |
| ValidateArgs.ValidateIsFirstFailure | src/validateArgs.ts:21-55 | the outcome is that of the first of the eight checks that fails, in source order |
| ValidateArgs.NullIsAbsent | src/validateArgs.ts:16-19 | `null` and `undefined` give the same outcome for every argument |
| ValidateArgs.CursorErrorsPrecedeSizeErrors | src/validateArgs.ts:36-55 | a cursor error is reported before a missing or over-limit size, and `after` before `before` |
| ValidateArgs.LimitIsInclusive | src/validateArgs.ts:47-55 | a size equal to `maxLimit` passes; a larger one fails with the limit message naming both numbers |
| ValidateArgs.BackwardRequestAccepted | src/validateArgs.ts:6-29 | an example of `Validate`'s characterization: `last` alone within the limit, with an acceptable or absent `before`, passes; the check has no direction test |
| ValidateConfig.Validate | src/validateConfig.ts:3-26 | the configuration passes iff `maxLimit` is a non-negative number, `paginationRequired` a boolean and both cursor options functions; each failure is a configuration error without the pagination code |
| ValidateConfig.ValidateIsFirstFailure | src/validateConfig.ts:9-25 | the outcome is that of the first of the four checks that fails, in source order |
| ValidateConfig.IgnoresUninspectedOptions | src/validateConfig.ts:3-8 | `disableBackwardsPagination` and `getTotalCount` never change the outcome |
| ValidateConfig.ZeroLimitAccepted | src/validateConfig.ts:9-12 | a numeric limit passes iff it is non-negative, so 0 is accepted |
| MakeConnection.DefaultToCursor | src/makeConnection.ts:38-42 | the default cursor text is all decimal digits and parses back to the index |
| MakeConnection.DefaultValidateCursor | src/makeConnection.ts:44-45 | a cursor passes the default check iff it is a non-empty string |
| MakeConnection.DefaultGetTotalCount | src/makeConnection.ts:47 | the default count is the number of items |
| MakeConnection.DefaultCursorsDistinct | src/makeConnection.ts:38-42 | with the default `toCursor` and an injective wrapper, all item cursors differ |
| MakeConnection.CursorsPassDefaultCheck | src/makeConnection.ts:44-45 | every cursor the builder hands out passes the default cursor check |
| MakeConnection.DefaultTotalCountIsLength | src/makeConnection.ts:47 | with the default count, `totalCount` is the number of items |
| MakeConnection.WithDefaults | src/makeConnection.ts:55-60 | each option that is `undefined` takes its default (100, true, false and the three default functions); every given option, `null` included, is kept |
| MakeConnection.WithDefaultsIdempotent | src/makeConnection.ts:55-60 | after the defaults are applied no option is left out, so applying them again changes nothing |
| MakeConnection.Make | src/makeConnection.ts:55-69 | making the helper fails iff the defaulted options fail the configuration check, with that check's error; otherwise each of the six options is kept when given and takes its default when left out, and the cursor options are then functions |
| MakeConnection.DefaultConfiguration | src/makeConnection.ts:55-60 | without options the configuration is `maxLimit` 100, `paginationRequired` true, backwards pagination not disabled and the three default functions |
| MakeConnection.NullOptionsRejected | src/makeConnection.ts:55-69 | a `null` option is not defaulted, so `maxLimit: null` and `toCursor: null` fail the configuration check |
| MakeConnection.Wrap | src/makeConnection.ts:71-77 | a given per-resolver `toCursor`/`validateCursor` replaces the configured one and a missing one keeps it; the configuration itself is carried unchanged |
| MakeConnection.OverridesOnlyAffectCursors | src/makeConnection.ts:71-89 | without `after`/`before`, the per-resolver overrides cannot change the argument check |
| MakeConnection.CheckArgs | src/makeConnection.ts:84-89 | a request's arguments pass iff they are acceptable under the configured limits and this resolver's cursor check; every failure is a pagination error |
| MakeConnection.BackwardsFlagIgnored | src/makeConnection.ts:84-89 | the backwards-pagination flag cannot change the argument check |
| MakeConnection.ResolvedData | src/makeConnection.ts:93 | a `null` or `undefined` resolver result is the empty item list |
| MakeConnection.Handle | src/makeConnection.ts:71-97 | a request fails iff the argument check fails, and then the resolver is not consulted; otherwise the resolver runs once and a fresh, unevaluated connection is built over its items with this resolver's `toCursor`, the configured `getTotalCount` and the request's arguments |
| MakeConnection.AfterFirstItemScenario | src/auto-pagination.test.ts:72-97 | with the defaults over three items, `after` = the first item's cursor and `first = 1` pass the checks and yield the second item, with a next page |
| MakeConnection.BeforeThirdItemScenario | src/auto-pagination.test.ts:127-152 | with the defaults over three items, `before` = the third item's cursor and `last = 1` pass the checks and yield the second item, with a previous page |
| MakeConnection.LimitScenario | src/config-options.test.ts:76-109 | with `maxLimit: 2`, `first: 10` fails with the limit message for 10 and 2 |
| MakeConnection.DefaultRequestScenarios | src/input-validation.test.ts:92-134 | with the defaults, an empty `after` or `before` is refused as invalid, and a request without `first`/`last` is refused because pagination is required |
| NumberText.ParseNatToString | src/makeConnection.ts:42 | decimal printing loses nothing: parsing `NatToString(n)` gives `n` |
| NumberText.NatToString | src/makeConnection.ts:42 | `index.toString()` is a non-empty run of decimal digits with no leading zero |
| NumberText.IntToStringInjective | src/validateArgs.ts:47-55 | distinct integers print as distinct strings |
| NumberText.NatToStringInjective | src/makeConnection.ts:42 | distinct indices print as distinct strings |

## Left out

- JavaScript numbers are modelled as integers. Fractional sizes (`first: 1.5` passes the `typeof` test), `NaN` and `Infinity` are not modelled.
- Node's `Buffer` Base64 encoding is the parameter `enc`. Its injectivity and non-emptiness are assumed where used, not derived from RFC 4648.
- `lodash.once` after a throw: the library returns `undefined` on later calls, so a second read of `edges` after a cursor error throws a different error. The model caches the pass's error and returns it again.
- The resolver's `async`/`await`, the GraphQL `context` and `info` arguments, and the server are left out. The resolver is a function from root and arguments to an optional item list.
- ToConnection.Connection.GetPageInfo: the `pageInfo` fields are getters that JavaScript evaluates lazily on each read. The model computes all four when `pageInfo` is read. The edge cursors are memoized, so the values are the same.
- A per-resolver `toCursor`/`validateCursor` override that is not a function (e.g. `null`) is not modelled, because it is never checked and only fails when called. Overrides are `Option`s of functions.
- The `getTotalCount` option is never checked. When it is not callable, `totalCount` fails with `NotCallableError`, standing for the runtime `TypeError`.
- `validateArgs` is given `maxLimit` as an `int` and `paginationRequired` as a `bool`. The configuration check guarantees both before any request.
- `${first}` in the limit message is modelled for integers only (`NumberText.IntToString`). JavaScript's exponent notation for very large numbers is not modelled.
- `disableBackwardsPagination` is declared in `ConnectionOptions` (src/makeConnection.ts:11) and passed to `validateArgs` (src/makeConnection.ts:84-89). No code reads it, so a `last` request is never refused for its direction. `validateConfig` checks only four options, so the flag's type is not checked either. The model follows the code (`MakeConnection.BackwardsFlagIgnored`, `ValidateConfig.IgnoresUninspectedOptions`, `ValidateArgs.BackwardRequestAccepted`).
- Some tests expect behaviour the code does not have, and the model follows the code:
  - src/auto-pagination.test.ts:21-43 and src/connection-helper.test.ts:58-84 expect success without `first`/`last` under the default `paginationRequired = true` (see `MakeConnection.DefaultRequestScenarios`).
  - src/config-options.test.ts:169 expects a raw cursor, but cursors are always Base64-wrapped.
- The limit message is stated as `ValidateArgs.LimitExceeded` applied to the two numbers, together with their decimal texts. The full literal is not spelled out in the proof.
- MakeConnection.Handle: the resolver is a pure function here, so the ordering "arguments checked before the resolver runs" is recorded by the ghost out-parameter `resolverCalls` (0 on failure, 1 on success) rather than by an observable effect.
