/**
 * The connection builder: one pass over the materialized items builds every
 * edge, resolves the `after`/`before` cursors, slices for `first` or `last`,
 * and derives the page info, the nodes and the total count from that pass.
 */
module ToConnection {
  import opened Wrappers
  import opened Types
  import opened ConnectionError

  /** The text every cursor is built from before Base64 encoding. */
  const CursorPrefix := "arrayconnection:"

  function CursorNotFound(arg: string, cursor: string): (e: Error)
    ensures e.PaginationError?
  {
    PaginationError("No record found for the provided \"" + arg + "\" cursor: \"" + cursor + "\".")
  }

  /** An encoding that never maps two strings to the same text. */
  ghost predicate Injective(enc: string -> string) {
    forall x, y :: enc(x) == enc(y) ==> x == y
  }

  /** The cursor of the item `node` at position `index`: the Base64 text of the prefixed `toCursor` result. */
  function EdgeCursor<N>(enc: string -> string, toCursor: ToCursorFn<N>, node: N, args: Args, index: nat): string {
    enc(CursorPrefix + toCursor(node, args, index))
  }

  /**
   * With an injective encoding, a cursor determines the `toCursor` text it
   * was built from: two items share a cursor exactly when `toCursor` gives
   * them the same text.
   */
  lemma EdgeCursorDetermines<N>(enc: string -> string, toCursor: ToCursorFn<N>, x: N, a: Args, i: nat, y: N, b: Args, j: nat)
    requires Injective(enc)
    ensures EdgeCursor(enc, toCursor, x, a, i) == EdgeCursor(enc, toCursor, y, b, j) <==> toCursor(x, a, i) == toCursor(y, b, j)
  {
    var s, t := toCursor(x, a, i), toCursor(y, b, j);
    assert s == (CursorPrefix + s)[|CursorPrefix|..];
    assert t == (CursorPrefix + t)[|CursorPrefix|..];
  }

  /** The cursors of all items, in data order. */
  function Cursors<N>(enc: string -> string, toCursor: ToCursorFn<N>, data: seq<N>, args: Args): (cs: seq<string>)
    ensures |cs| == |data|
  {
    seq(|data|, i requires 0 <= i < |data| => EdgeCursor(enc, toCursor, data[i], args, i))
  }

  ghost predicate Distinct(cs: seq<string>) {
    forall i, j :: 0 <= i < j < |cs| ==> cs[i] != cs[j]
  }

  /**
   * The offset the search loop leaves behind for a supplied cursor: the
   * last index whose cursor equals `c`, or -1 when none does.
   */
  function LastMatch(cs: seq<string>, c: string): (r: int)
    ensures -1 <= r < |cs|
  {
    if cs == [] then -1
    else if cs[|cs| - 1] == c then |cs| - 1
    else LastMatch(cs[..|cs| - 1], c)
  }

  /** `LastMatch` finds the largest index whose cursor is `c`, and -1 exactly when there is none. */
  lemma {:induction false} LastMatchIsLargest(cs: seq<string>, c: string)
    ensures LastMatch(cs, c) == -1 <==> c !in cs
    ensures LastMatch(cs, c) >= 0 ==> cs[LastMatch(cs, c)] == c
    ensures forall j :: LastMatch(cs, c) < j < |cs| ==> cs[j] != c
  {
    if cs != [] && cs[|cs| - 1] != c {
      var init := cs[..|cs| - 1];
      LastMatchIsLargest(init, c);
      assert cs == init + [cs[|cs| - 1]];
    }
  }

  /** The search loop's step: one more item either becomes the last match or leaves it where it was. */
  lemma LastMatchExtend(cs: seq<string>, k: nat, c: string)
    requires k < |cs|
    ensures LastMatch(cs[..k + 1], c) == if cs[k] == c then k else LastMatch(cs[..k], c)
  {
    assert cs[..k + 1][..k] == cs[..k];
  }

  function Min(a: int, b: int): int {
    if a <= b then a else b
  }

  function Max(a: int, b: int): int {
    if a >= b then a else b
  }

  /** How `Array.prototype.slice` reads one position: negative counts from the end, then clamped to [0, n]. */
  function SliceIndex(n: nat, i: int): (k: nat)
    ensures k <= n
    ensures 0 <= i <= n ==> k == i
  {
    if i < 0 then (if n + i < 0 then 0 else n + i) else if i > n then n else i
  }

  /** The index range `slice(start, end)` keeps of a list of length `n`; an inverted range is empty. */
  function SliceRange(n: nat, start: int, end: int): (r: (nat, nat))
    ensures r.0 <= r.1 <= n
    ensures 0 <= start <= end <= n ==> r == (start, end)
    ensures 0 <= end <= start <= n ==> r == (start, start)
  {
    var lo := SliceIndex(n, start);
    var hi := SliceIndex(n, end);
    (lo, if hi < lo then lo else hi)
  }

  function JsSlice<T>(s: seq<T>, start: int, end: int): seq<T> {
    var (lo, hi) := SliceRange(|s|, start, end);
    s[lo..hi]
  }

  /** The offsets the windowing pass records beside the edges. */
  datatype Bounds = Bounds(afterOffset: int, beforeOffset: int, startOffset: int, endOffset: int)

  /**
   * The windowing pass over the item cursors `cs`: resolve `after` and
   * `before` (the `after` failure is reported first), then apply `first`,
   * then `last`. Only a string `after`/`before` and a number `first`/`last`
   * take part, as the `typeof` tests in the source decide.
   */
  function Window(cs: seq<string>, args: Args): (r: Result<Bounds, Error>)
    ensures r.Failure? <==> (args.after.JStr? && args.after.s !in cs) || (args.before.JStr? && args.before.s !in cs)
    ensures args.after.JStr? && args.after.s !in cs ==> r == Failure(CursorNotFound("after", args.after.s))
    ensures r.Failure? && !(args.after.JStr? && args.after.s !in cs) ==> r == Failure(CursorNotFound("before", args.before.s))
    ensures r.Success? ==> 0 <= r.value.afterOffset <= |cs| && 0 <= r.value.beforeOffset <= |cs|
    ensures r.Success? && !args.after.JStr? ==> r.value.afterOffset == 0
    ensures r.Success? && !args.before.JStr? ==> r.value.beforeOffset == |cs|
    ensures r.Success? && args.after.JStr? ==>
      var a := r.value.afterOffset;
      a < |cs| && cs[a] == args.after.s && forall j :: a < j < |cs| ==> cs[j] != args.after.s
    ensures r.Success? && args.before.JStr? ==>
      var b := r.value.beforeOffset;
      b < |cs| && cs[b] == args.before.s && forall j :: b < j < |cs| ==> cs[j] != args.before.s
  {
    LastMatchIsLargest(cs, if args.after.JStr? then args.after.s else "");
    LastMatchIsLargest(cs, if args.before.JStr? then args.before.s else "");
    WindowFrom(|cs|, args,
      if args.after.JStr? then LastMatch(cs, args.after.s) else 0,
      if args.before.JStr? then LastMatch(cs, args.before.s) else |cs|)
  }

  /**
   * The part of the pass after the search loop, from the offsets the loop
   * left behind (-1 for a supplied cursor that matched nothing).
   */
  function WindowFrom(n: nat, args: Args, afterOffset: int, beforeOffset: int): (r: Result<Bounds, Error>)
    requires afterOffset == -1 ==> args.after.JStr?
    requires beforeOffset == -1 ==> args.before.JStr?
    ensures r.Success? ==> r.value.afterOffset == afterOffset && r.value.beforeOffset == beforeOffset
    ensures r.Failure? <==> afterOffset == -1 || beforeOffset == -1
  {
    if afterOffset == -1 then Failure(CursorNotFound("after", args.after.s))
    else if beforeOffset == -1 then Failure(CursorNotFound("before", args.before.s))
    else
      var (start1, end1) :=
        if args.first.JNum? then
          var start := if args.after.JStr? then afterOffset + 1 else afterOffset;
          (start, Min(beforeOffset, start + args.first.n))
        else (0, n);
      var (start2, end2) :=
        if args.last.JNum? then (Max(afterOffset, beforeOffset - args.last.n), beforeOffset)
        else (start1, end1);
      Success(Bounds(afterOffset, beforeOffset, start2, end2))
  }

  /** The positions of the items on the page: the slice the pass takes of all edges. */
  function EdgeRange(n: nat, b: Bounds): (r: (nat, nat))
    ensures r.0 <= r.1 <= n
  {
    SliceRange(n, b.startOffset, b.endOffset)
  }

  datatype PageInfo = PageInfo(hasNextPage: bool, hasPreviousPage: bool, startCursor: Option<string>, endCursor: Option<string>)

  /**
   * `hasNextPage` for a page of `count` edges out of `n` items: never with
   * `last` or on an empty page, else whether the page stops short of
   * `before` (or of the end of the items).
   */
  function HasNextPage(args: Args, b: Bounds, n: nat, count: nat): bool {
    if args.last.JNum? || count == 0 then false
    else b.endOffset < (if args.before.JStr? then b.beforeOffset else n)
  }

  /**
   * `hasPreviousPage` for a page of `count` edges: never with `first` or on
   * an empty page, else whether the page starts past the item after `after`
   * (or past the first item).
   */
  function HasPreviousPage(args: Args, b: Bounds, count: nat): bool {
    if args.first.JNum? || count == 0 then false
    else b.startOffset > (if args.after.JStr? then b.afterOffset + 1 else 0)
  }

  /** The page info read off a successful windowing pass. */
  function PageInfoOf(cs: seq<string>, args: Args, b: Bounds): (p: PageInfo)
    ensures var (lo, hi) := EdgeRange(|cs|, b);
      && (p.startCursor.None? <==> lo == hi)
      && (p.endCursor.None? <==> lo == hi)
      && (lo < hi ==> p.startCursor == Some(cs[lo]) && p.endCursor == Some(cs[hi - 1]))
      && (args.last.JNum? || lo == hi ==> !p.hasNextPage)
      && (args.first.JNum? || lo == hi ==> !p.hasPreviousPage)
  {
    var (lo, hi) := EdgeRange(|cs|, b);
    PageInfo(
      HasNextPage(args, b, |cs|, hi - lo),
      HasPreviousPage(args, b, hi - lo),
      if lo == hi then None else Some(cs[lo]),
      if lo == hi then None else Some(cs[hi - 1]))
  }

  /** An edge: a node, the root it was resolved under, and a cursor computed on first read. */
  class Edge<R, N> {
    const root: R
    const node: N
    const index: nat
    const args: Args
    const toCursor: ToCursorFn<N>
    const enc: string -> string
    var memo: Option<string>
    ghost var evaluations: nat  // how often `toCursor` ran for this edge

    /** The text the `cursor` getter yields. */
    function CursorText(): string {
      EdgeCursor(enc, toCursor, node, args, index)
    }

    ghost predicate Valid()
      reads this
    {
      && evaluations <= 1 && (memo.Some? <==> evaluations == 1)
      && (memo.Some? ==> memo.value == CursorText())
    }

    constructor (index: nat, root: R, node: N, args: Args, toCursor: ToCursorFn<N>, enc: string -> string)
      ensures Valid() && memo == None
      ensures this.index == index && this.root == root && this.node == node
      ensures this.args == args && this.toCursor == toCursor && this.enc == enc
    {
      this.index := index;
      this.root := root;
      this.node := node;
      this.args := args;
      this.toCursor := toCursor;
      this.enc := enc;
      memo := None;
      evaluations := 0;
    }

    /** The `cursor` getter: computes the cursor once and serves every later read from the memo. */
    method Cursor() returns (c: string)
      requires Valid()
      modifies this
      ensures Valid()
      ensures c == CursorText() && memo == Some(c)
      ensures evaluations == old(evaluations) + (if old(memo).None? then 1 else 0)
    {
      if memo.None? {
        c := EdgeCursor(enc, toCursor, node, args, index);
        memo := Some(c);
        evaluations := evaluations + 1;
      } else {
        c := memo.value;
      }
    }
  }

  /** `e` is the edge the pass builds for item `i` of `data`, with a memo that agrees with its cursor. */
  ghost predicate IsEdgeFor<R, N>(e: Edge<R, N>, i: int, root: R, data: seq<N>, args: Args,
                                  toCursor: ToCursorFn<N>, enc: string -> string)
    reads e
  {
    && 0 <= i < |data|
    && e.Valid()
    && e.index == i && e.node == data[i] && e.root == root
    && e.args == args && e.toCursor == toCursor && e.enc == enc
  }

  /** The cached result of the windowing pass: the page's edges and the offsets behind them. */
  datatype Page<R, N> = Page(edges: seq<Edge<R, N>>, bounds: Bounds)

  /** The connection object `toConnection` returns; its getters share one windowing pass. */
  class Connection<R, N> {
    const root: R
    const data: seq<N>
    const args: Args
    const toCursor: ToCursorFn<N>
    const getTotalCount: Callable<TotalCountFn<R, N>>
    const enc: string -> string                // UTF-8 then Base64 (section 4 of RFC 4648)
    ghost const cursors: seq<string>           // the cursor of every item, in data order
    ghost const window: Result<Bounds, Error>  // what the windowing pass yields for these inputs
    var page: Option<Result<Page<R, N>, Error>>  // the once-only windowing pass
    var nodes: Option<seq<N>>                    // the once-only node list
    ghost var windowRuns: nat
    ghost var Repr: set<object>

    /** `e` is the edge this connection builds for item `i`. */
    ghost predicate EdgeFor(e: Edge<R, N>, i: int)
      reads this, Repr
    {
      && e in Repr
      && IsEdgeFor(e, i, root, data, args, toCursor, enc)
    }

    /** `p` is what the windowing pass yields for this connection's items and arguments. */
    ghost predicate PageMatches(p: Result<Page<R, N>, Error>)
      reads this, Repr
    {
      match window
      case Failure(e) => p == Failure(e)
      case Success(b) =>
        && p.Success? && p.value.bounds == b
        && var (lo, hi) := EdgeRange(|data|, b);
        && |p.value.edges| == hi - lo
        && forall k :: 0 <= k < hi - lo ==> EdgeFor(p.value.edges[k], lo + k)
    }

    ghost predicate Valid()
      reads this, Repr
    {
      && this in Repr
      && cursors == Cursors(enc, toCursor, data, args)
      && window == Window(cursors, args)
      && windowRuns <= 1 && (page.Some? <==> windowRuns == 1)
      && (page.Some? ==> PageMatches(page.value))
      && (nodes.Some? ==> page.Some? && page.value.Success? && nodes.value == NodesOf(page.value.value.edges))
    }

    /** Every edge whose cursor was already memoized keeps that memo, and `toCursor` did not run for it again. */
    static twostate predicate MemosKept(edges: seq<Edge<R, N>>)
      reads set k | 0 <= k < |edges| :: edges[k]
    {
      forall k :: 0 <= k < |edges| && old(edges[k].memo).Some? ==>
        edges[k].memo == old(edges[k].memo) && edges[k].evaluations == old(edges[k].evaluations)
    }

    static function NodesOf(edges: seq<Edge<R, N>>): seq<N> {
      seq(|edges|, k requires 0 <= k < |edges| => edges[k].node)
    }

    /** `toConnection(root, data, args, toCursor, getTotalCount)`: nothing is computed yet. */
    constructor (root: R, data: seq<N>, args: Args, toCursor: ToCursorFn<N>,
                 getTotalCount: Callable<TotalCountFn<R, N>>, enc: string -> string)
      ensures Valid() && fresh(Repr)
      ensures this.root == root && this.data == data && this.args == args
      ensures this.toCursor == toCursor && this.getTotalCount == getTotalCount && this.enc == enc
      ensures page == None && nodes == None && windowRuns == 0
    {
      this.root := root;
      this.data := data;
      this.args := args;
      this.toCursor := toCursor;
      this.getTotalCount := getTotalCount;
      this.enc := enc;
      cursors := Cursors(enc, toCursor, data, args);
      window := Window(Cursors(enc, toCursor, data, args), args);
      page := None;
      nodes := None;
      windowRuns := 0;
      Repr := {this};
    }

    /**
     * One step of the search loop: build the edge for item `index`, and read
     * its cursor only when `after` (resp. `before`) is a string, moving that
     * offset to `index` on a match.
     */
    static method VisitItem(index: nat, root: R, data: seq<N>, args: Args, toCursor: ToCursorFn<N>, enc: string -> string,
                            afterOffset: int, beforeOffset: int)
      returns (edge: Edge<R, N>, newAfterOffset: int, newBeforeOffset: int)
      requires index < |data|
      ensures fresh(edge) && IsEdgeFor(edge, index, root, data, args, toCursor, enc)
      ensures newAfterOffset ==
        if args.after.JStr? && EdgeCursor(enc, toCursor, data[index], args, index) == args.after.s then index else afterOffset
      ensures newBeforeOffset ==
        if args.before.JStr? && EdgeCursor(enc, toCursor, data[index], args, index) == args.before.s then index else beforeOffset
    {
      edge := new Edge(index, root, data[index], args, toCursor, enc);
      newAfterOffset, newBeforeOffset := afterOffset, beforeOffset;
      if args.after.JStr? {
        var cursor := edge.Cursor();
        if cursor == args.after.s {
          newAfterOffset := index;
        }
      }
      if args.before.JStr? {
        var cursor := edge.Cursor();
        if cursor == args.before.s {
          newBeforeOffset := index;
        }
      }
    }

    /**
     * The search loop of the windowing pass: one edge per item, and the last
     * index whose cursor equals `after` (resp. `before`). A cursor is read
     * only when that argument is a string.
     */
    static method BuildEdges(root: R, data: seq<N>, args: Args, toCursor: ToCursorFn<N>, enc: string -> string,
                             ghost cs: seq<string>)
      returns (allEdges: seq<Edge<R, N>>, afterOffset: int, beforeOffset: int)
      requires cs == Cursors(enc, toCursor, data, args)
      ensures |allEdges| == |data|
      ensures forall k :: 0 <= k < |data| ==>
        fresh(allEdges[k]) && IsEdgeFor(allEdges[k], k, root, data, args, toCursor, enc)
      ensures afterOffset == if args.after.JStr? then LastMatch(cs, args.after.s) else 0
      ensures beforeOffset == if args.before.JStr? then LastMatch(cs, args.before.s) else |data|
    {
      allEdges := [];
      afterOffset := if args.after.JStr? then -1 else 0;
      beforeOffset := if args.before.JStr? then -1 else |data|;
      var index := 0;
      while index < |data|
        invariant 0 <= index <= |data| && |allEdges| == index
        invariant forall k :: 0 <= k < index ==>
          fresh(allEdges[k]) && IsEdgeFor(allEdges[k], k, root, data, args, toCursor, enc)
        invariant afterOffset == if args.after.JStr? then LastMatch(cs[..index], args.after.s) else 0
        invariant beforeOffset == if args.before.JStr? then LastMatch(cs[..index], args.before.s) else |data|
      {
        var edge;
        edge, afterOffset, beforeOffset := VisitItem(index, root, data, args, toCursor, enc, afterOffset, beforeOffset);
        allEdges := allEdges + [edge];
        if args.after.JStr? {
          LastMatchExtend(cs, index, args.after.s);
        }
        if args.before.JStr? {
          LastMatchExtend(cs, index, args.before.s);
        }
        index := index + 1;
      }
      assert cs[..index] == cs;
    }

    /** The rest of the pass: report an unmatched cursor, else slice for `first`, then for `last`. */
    static method Slice(allEdges: seq<Edge<R, N>>, afterOffset: int, beforeOffset: int, args: Args)
      returns (r: Result<Page<R, N>, Error>)
      requires afterOffset == -1 ==> args.after.JStr?
      requires beforeOffset == -1 ==> args.before.JStr?
      ensures WindowFrom(|allEdges|, args, afterOffset, beforeOffset).Failure? ==>
        r == Failure(WindowFrom(|allEdges|, args, afterOffset, beforeOffset).error)
      ensures WindowFrom(|allEdges|, args, afterOffset, beforeOffset).Success? ==>
        var b := WindowFrom(|allEdges|, args, afterOffset, beforeOffset).value;
        var (lo, hi) := EdgeRange(|allEdges|, b);
        && r.Success? && r.value.bounds == b && |r.value.edges| == hi - lo
        && forall k :: 0 <= k < hi - lo ==> r.value.edges[k] == allEdges[lo + k]
    {
      if afterOffset == -1 {
        return Failure(CursorNotFound("after", args.after.s));
      }
      if beforeOffset == -1 {
        return Failure(CursorNotFound("before", args.before.s));
      }
      var edges := allEdges;
      var startOffset := 0;
      var endOffset := |allEdges|;
      if args.first.JNum? {
        startOffset := if args.after.JStr? then afterOffset + 1 else afterOffset;
        endOffset := Min(beforeOffset, startOffset + args.first.n);
        edges := JsSlice(allEdges, startOffset, endOffset);
      }
      if args.last.JNum? {
        startOffset := Max(afterOffset, beforeOffset - args.last.n);
        endOffset := beforeOffset;
        edges := JsSlice(allEdges, startOffset, endOffset);
      }
      assert allEdges[0..|allEdges|] == allEdges;
      r := Success(Page(edges, Bounds(afterOffset, beforeOffset, startOffset, endOffset)));
    }

    /**
     * The whole windowing pass on fresh edges: the search loop, then the
     * slicing. `cs` and `w` are the cursors and the window it must agree with.
     */
    static method RunPass(root: R, data: seq<N>, args: Args, toCursor: ToCursorFn<N>, enc: string -> string,
                          ghost cs: seq<string>, ghost w: Result<Bounds, Error>)
      returns (r: Result<Page<R, N>, Error>)
      requires cs == Cursors(enc, toCursor, data, args) && w == Window(cs, args)
      ensures w.Failure? ==> r == Failure(w.error)
      ensures w.Success? ==>
        var (lo, hi) := EdgeRange(|data|, w.value);
        && r.Success? && r.value.bounds == w.value && |r.value.edges| == hi - lo
        && forall k :: 0 <= k < hi - lo ==>
          fresh(r.value.edges[k]) && IsEdgeFor(r.value.edges[k], lo + k, root, data, args, toCursor, enc)
    {
      var allEdges, afterOffset, beforeOffset := BuildEdges(root, data, args, toCursor, enc, cs);
      assert w == WindowFrom(|data|, args, afterOffset, beforeOffset);
      r := Slice(allEdges, afterOffset, beforeOffset, args);
    }

    /** `getEdges`: the windowing pass, run on the first call and served from the cache afterwards. */
    method GetEdges() returns (r: Result<Page<R, N>, Error>)
      requires Valid()
      modifies this
      ensures Valid() && fresh(Repr - old(Repr))
      ensures page == Some(r) && nodes == old(nodes)
      ensures windowRuns == old(windowRuns) + (if old(page).None? then 1 else 0)
      ensures old(page).Some? ==> r == old(page).value && Repr == old(Repr)
    {
      if page.Some? {
        return page.value;
      }
      r := RunPass(root, data, args, toCursor, enc, cursors, window);
      Cache(r);
    }

    /** The first run's result becomes the cached pass, and its edges join the footprint. */
    method Cache(r: Result<Page<R, N>, Error>)
      requires Valid() && page.None?
      requires window.Failure? ==> r == Failure(window.error)
      requires window.Success? ==>
        var (lo, hi) := EdgeRange(|data|, window.value);
        && r.Success? && r.value.bounds == window.value && |r.value.edges| == hi - lo
        && forall k :: 0 <= k < hi - lo ==> IsEdgeFor(r.value.edges[k], lo + k, root, data, args, toCursor, enc)
      modifies this
      ensures Valid() && page == Some(r) && nodes == old(nodes) && windowRuns == old(windowRuns) + 1
      ensures Repr == old(Repr) + (if r.Success? then set e | e in r.value.edges else {})
    {
      page := Some(r);
      windowRuns := windowRuns + 1;
      if r.Success? {
        Repr := Repr + set e | e in r.value.edges;
        var (lo, hi) := EdgeRange(|data|, r.value.bounds);
        assert forall k :: 0 <= k < hi - lo ==> r.value.edges[k] in Repr;
      }
      assert PageMatches(r);
    }

    /** The `edges` getter. */
    method Edges() returns (r: Result<seq<Edge<R, N>>, Error>)
      requires Valid()
      modifies this
      ensures Valid() && fresh(Repr - old(Repr))
      ensures windowRuns == old(windowRuns) + (if old(page).None? then 1 else 0)
      ensures old(page).Some? ==> page == old(page)
      ensures nodes == old(nodes)
      ensures window.Failure? ==> r == Failure(window.error)
      ensures window.Success? ==>
        var (lo, hi) := EdgeRange(|data|, window.value);
        && r.Success? && r.value == page.value.value.edges
        && |r.value| == hi - lo
        && forall k :: 0 <= k < hi - lo ==> EdgeFor(r.value[k], lo + k)
    {
      var p := GetEdges();
      r := if p.Success? then Success(p.value.edges) else Failure(p.error);
    }

    /** The `nodes` getter: the page's nodes, in page order, computed once. */
    method Nodes() returns (r: Result<seq<N>, Error>)
      requires Valid()
      modifies this
      ensures Valid() && fresh(Repr - old(Repr))
      ensures windowRuns == old(windowRuns) + (if old(page).None? then 1 else 0)
      ensures old(page).Some? ==> page == old(page)
      ensures old(nodes).Some? ==> r == Success(old(nodes).value)
      ensures r.Success? ==> nodes == Some(r.value)
      ensures r.Failure? ==> nodes == old(nodes)
      ensures window.Failure? ==> r == Failure(window.error)
      ensures window.Success? ==>
        var (lo, hi) := EdgeRange(|data|, window.value);
        r == Success(data[lo..hi])
    {
      if nodes.Some? {
        var (lo, hi) := EdgeRange(|data|, window.value);
        assert nodes.value == data[lo..hi];
        return Success(nodes.value);
      }
      var p := GetEdges();
      if p.Failure? {
        return Failure(p.error);
      }
      var ns := NodesOf(p.value.edges);
      var (lo, hi) := EdgeRange(|data|, window.value);
      assert ns == data[lo..hi];
      nodes := Some(ns);
      r := Success(ns);
    }

    /**
     * `edges.at(0)?.cursor` and `edges.at(-1)?.cursor`: reads the cursors of
     * the page's first and last edge through their memoizing getters.
     */
    method BoundaryCursors() returns (startCursor: Option<string>, endCursor: Option<string>)
      requires Valid() && page.Some? && page.value.Success?
      modifies Repr
      ensures Valid() && unchanged(this) && window.Success?
      ensures MemosKept(page.value.value.edges)
      ensures var (lo, hi) := EdgeRange(|data|, window.value);
        && startCursor == (if lo == hi then None else Some(cursors[lo]))
        && endCursor == (if lo == hi then None else Some(cursors[hi - 1]))
    {
      var edges := page.value.value.edges;
      ghost var (lo, hi) := EdgeRange(|data|, window.value);
      assert |edges| == hi - lo;
      if |edges| == 0 {
        return None, None;
      }
      var first, last := edges[0], edges[|edges| - 1];
      assert EdgeFor(first, lo) && EdgeFor(last, hi - 1);
      var c := first.Cursor();
      startCursor := Some(c);
      c := last.Cursor();
      endCursor := Some(c);
      forall j | 0 <= j < hi - lo
        ensures EdgeFor(edges[j], lo + j)
      {
        if edges[j] != first && edges[j] != last {
          assert old(edges[j].Valid());
        }
      }
    }

    /** The `pageInfo` getter. */
    method GetPageInfo() returns (r: Result<PageInfo, Error>)
      requires Valid()
      modifies Repr
      ensures Valid() && fresh(Repr - old(Repr))
      ensures windowRuns == old(windowRuns) + (if old(page).None? then 1 else 0)
      ensures old(page).Some? ==> page == old(page)
      ensures nodes == old(nodes)
      ensures old(page).Some? && old(page).value.Success? ==> MemosKept(page.value.value.edges)
      ensures window.Failure? ==> r == Failure(window.error)
      ensures window.Success? ==> r == Success(PageInfoOf(cursors, args, window.value))
    {
      var p := GetEdges();
      if p.Failure? {
        return Failure(p.error);
      }
      var count, b := |p.value.edges|, p.value.bounds;
      var startCursor, endCursor := BoundaryCursors();
      ghost var (lo, hi) := EdgeRange(|data|, b);
      assert b == window.value && |cursors| == |data| && count == hi - lo;
      r := Success(PageInfo(HasNextPage(args, b, |data|, count), HasPreviousPage(args, b, count), startCursor, endCursor));
    }

    /** The `totalCount` getter: asks `getTotalCount` on every read and never runs the windowing pass. */
    function TotalCount(): (r: Result<int, Error>)
      ensures r.Failure? <==> getTotalCount.NotCallable?
      ensures r.Failure? ==> r.error == NotCallableError("getTotalCount")
    {
      match getTotalCount
      case Fn(count) => Success(count(root, data, args))
      case NotCallable(_) => Failure(NotCallableError("getTotalCount"))
    }
  }
}
