/**
 * What the windowing pass promises about the page it selects: the slice
 * bounds for forward and backward paging, the meaning of the page-info
 * booleans, and that following `endCursor`/`startCursor` continues the
 * walk through the items. Everything here is about the pure `Window`,
 * `EdgeRange` and `PageInfoOf`, which the `Connection` getters are proved
 * to agree with.
 */
module ToConnectionProperties {
  import opened Wrappers
  import opened Types
  import opened ToConnection

  /** A page size that passed argument validation: absent, or a non-negative number. */
  predicate SizeOk(v: Value) {
    v.JNum? ==> v.n >= 0
  }

  /** The first index a forward page may start at: just past the `after` item, or 0. */
  function ForwardStart(args: Args, b: Bounds): int {
    if args.after.JStr? then b.afterOffset + 1 else 0
  }

  /** With distinct cursors, the cursor of item `i` resolves to `i`. */
  lemma LastMatchDistinct(cs: seq<string>, i: int)
    requires Distinct(cs) && 0 <= i < |cs|
    ensures LastMatch(cs, cs[i]) == i
  {
    LastMatchIsLargest(cs, cs[i]);
    assert cs[i] in cs;
  }

  /** With neither `first` nor `last`, the page is every item, and there is neither a next nor a previous page. */
  lemma WholeListWithoutSize(cs: seq<string>, args: Args)
    requires !args.first.JNum? && !args.last.JNum?
    requires Window(cs, args).Success?
    ensures EdgeRange(|cs|, Window(cs, args).value) == (0, |cs|)
    ensures !PageInfoOf(cs, args, Window(cs, args).value).hasNextPage
    ensures !PageInfoOf(cs, args, Window(cs, args).value).hasPreviousPage
  {
    var b := Window(cs, args).value;
    assert b.startOffset == 0 && b.endOffset == |cs|;
  }

  /**
   * With `first` (and no `last`): the page starts just past the `after`
   * item and holds `first` items, or fewer when `before` or the end of the
   * items comes first.
   */
  lemma ForwardPage(cs: seq<string>, args: Args)
    requires args.first.JNum? && !args.last.JNum? && SizeOk(args.first)
    requires Window(cs, args).Success?
    ensures var b := Window(cs, args).value;
      var (lo, hi) := EdgeRange(|cs|, b);
      && lo == ForwardStart(args, b)
      && hi - lo == Min(args.first.n, Max(0, b.beforeOffset - lo))
      && hi - lo <= args.first.n
  {
    var b := Window(cs, args).value;
    var s := ForwardStart(args, b);
    assert b.startOffset == s && b.endOffset == Min(b.beforeOffset, s + args.first.n);
    assert 0 <= s <= |cs|;
  }

  /**
   * With `last`: the page ends at `before` (or at the end of the items) and
   * holds `last` items, or fewer when the `after` item comes first. The
   * lower bound is the `after` item itself, not the one past it.
   */
  lemma BackwardPage(cs: seq<string>, args: Args)
    requires args.last.JNum? && SizeOk(args.last)
    requires Window(cs, args).Success?
    ensures var b := Window(cs, args).value;
      var (lo, hi) := EdgeRange(|cs|, b);
      && lo == Max(b.afterOffset, b.beforeOffset - args.last.n)
      && hi - lo == Min(args.last.n, Max(0, b.beforeOffset - b.afterOffset))
      && hi - lo <= args.last.n
  {
    var b := Window(cs, args).value;
    assert b.startOffset == Max(b.afterOffset, b.beforeOffset - args.last.n) && b.endOffset == b.beforeOffset;
  }

  /**
   * With `last` and `after`, when `last` reaches back that far, the page
   * starts with the `after` item itself: `startCursor` is the `after`
   * cursor, unlike section 4.4 of the Relay Cursor Connections
   * specification, which removes every edge up to and including it.
   */
  lemma BackwardPageIncludesAfterItem(cs: seq<string>, args: Args)
    requires args.last.JNum? && args.after.JStr?
    requires Window(cs, args).Success?
    requires Window(cs, args).value.afterOffset < Window(cs, args).value.beforeOffset
    requires Window(cs, args).value.beforeOffset - args.last.n <= Window(cs, args).value.afterOffset
    ensures PageInfoOf(cs, args, Window(cs, args).value).startCursor == Some(args.after.s)
  {
    var b := Window(cs, args).value;
    assert b.startOffset == b.afterOffset && b.endOffset == b.beforeOffset;
    assert EdgeRange(|cs|, b) == (b.afterOffset, b.beforeOffset);
  }

  /**
   * `hasNextPage` holds exactly when `last` is absent, the page is not
   * empty, and items remain between the end of the page and `before` (or
   * the end of the items).
   */
  lemma HasNextPageMeaning(cs: seq<string>, args: Args)
    requires SizeOk(args.first) && Window(cs, args).Success?
    ensures var b := Window(cs, args).value;
      var (lo, hi) := EdgeRange(|cs|, b);
      PageInfoOf(cs, args, b).hasNextPage <==> !args.last.JNum? && lo < hi && hi < b.beforeOffset
  {
    var b := Window(cs, args).value;
    var (lo, hi) := EdgeRange(|cs|, b);
    if !args.last.JNum? && lo < hi {
      if args.first.JNum? {
        var s := ForwardStart(args, b);
        assert b.startOffset == s && b.endOffset == Min(b.beforeOffset, s + args.first.n);
        assert hi == b.endOffset;
      } else {
        assert b.endOffset == |cs| == hi;
      }
    }
  }

  /**
   * `hasPreviousPage` holds exactly when `first` is absent, the page is not
   * empty, and items are skipped between the item past `after` (or the
   * first item) and the start of the page.
   */
  lemma HasPreviousPageMeaning(cs: seq<string>, args: Args)
    requires SizeOk(args.last) && Window(cs, args).Success?
    ensures var b := Window(cs, args).value;
      var (lo, hi) := EdgeRange(|cs|, b);
      PageInfoOf(cs, args, b).hasPreviousPage <==> !args.first.JNum? && lo < hi && lo > ForwardStart(args, b)
  {
    var b := Window(cs, args).value;
    var (lo, hi) := EdgeRange(|cs|, b);
    if !args.first.JNum? && lo < hi {
      if args.last.JNum? {
        assert b.startOffset == Max(b.afterOffset, b.beforeOffset - args.last.n);
        assert lo == b.startOffset;
      } else {
        assert b.startOffset == 0 == lo;
      }
    }
  }

  /** With distinct cursors, moving `after` to item `i` (keeping `first` and `before`) starts the forward page at `i + 1`. */
  lemma ResumeAfter(cs: seq<string>, args: Args, i: int)
    requires Distinct(cs) && 0 <= i < |cs|
    requires args.first.JNum? && !args.last.JNum? && Window(cs, args).Success?
    ensures var bo := Window(cs, args).value.beforeOffset;
      Window(cs, args.(after := JStr(cs[i]))) == Success(Bounds(i, bo, i + 1, Min(bo, i + 1 + args.first.n)))
  {
    LastMatchDistinct(cs, i);
    assert cs[i] in cs;
  }

  /**
   * Forward paging continues: passing a page's `endCursor` as `after`, with
   * the same `first` and `before`, yields the page that starts right after
   * it and stops at `before` (or the end of the items), and that page is
   * non-empty exactly when the first page reported `hasNextPage`.
   */
  lemma NextPageContinues(cs: seq<string>, args: Args)
    requires Distinct(cs)
    requires args.first.JNum? && args.first.n >= 1 && !args.last.JNum?
    requires Window(cs, args).Success?
    requires var (lo, hi) := EdgeRange(|cs|, Window(cs, args).value); lo < hi
    ensures var b := Window(cs, args).value;
      var (lo, hi) := EdgeRange(|cs|, b);
      var next := args.(after := JStr(cs[hi - 1]));
      && Window(cs, next).Success?
      && EdgeRange(|cs|, Window(cs, next).value) == (hi, Min(b.beforeOffset, hi + args.first.n))
      && (hi < Min(b.beforeOffset, hi + args.first.n) <==> PageInfoOf(cs, args, b).hasNextPage)
  {
    var b := Window(cs, args).value;
    var (lo, hi) := EdgeRange(|cs|, b);
    ForwardPage(cs, args);
    assert hi <= b.beforeOffset <= |cs|;
    ResumeAfter(cs, args, hi - 1);
    HasNextPageMeaning(cs, args);
  }

  /**
   * Backward paging continues: passing a page's `startCursor` as `before`,
   * with the same `last` and no `after`, yields the page that ends right
   * before it, and that page is non-empty exactly when the first page
   * reported `hasPreviousPage`.
   */
  lemma PreviousPageContinues(cs: seq<string>, args: Args)
    requires Distinct(cs)
    requires args.last.JNum? && args.last.n >= 1 && !args.first.JNum? && !args.after.JStr?
    requires Window(cs, args).Success?
    requires var (lo, hi) := EdgeRange(|cs|, Window(cs, args).value); lo < hi
    ensures var b := Window(cs, args).value;
      var (lo, hi) := EdgeRange(|cs|, b);
      var previous := args.(before := JStr(cs[lo]));
      && Window(cs, previous).Success?
      && EdgeRange(|cs|, Window(cs, previous).value) == (Max(0, lo - args.last.n), lo)
      && (Max(0, lo - args.last.n) < lo <==> PageInfoOf(cs, args, b).hasPreviousPage)
  {
    var b := Window(cs, args).value;
    var (lo, hi) := EdgeRange(|cs|, b);
    var previous := args.(before := JStr(cs[lo]));
    LastMatchDistinct(cs, lo);
    assert cs[lo] in cs;
    var b2 := Window(cs, previous).value;
    assert b2.afterOffset == 0 && b2.beforeOffset == lo;
    assert b2.startOffset == Max(0, lo - args.last.n) && b2.endOffset == lo;
    HasPreviousPageMeaning(cs, args);
  }

  /**
   * Backward paging does not continue cleanly while `after` is kept: over
   * three items with `after` = the first item's cursor and `last = 2`, the
   * page is items 1 and 2 and reports no previous page; yet paging back
   * from its `startCursor`, with the same `after` and `last`, yields the
   * `after` item itself, because the lower bound of the `last` slice is
   * the `after` offset rather than the item past it.
   */
  lemma PagingBackReachesAfterItem(cs: seq<string>)
    requires Distinct(cs) && |cs| == 3
    ensures var args := Args(JUndefined, JNum(2), JStr(cs[0]), JUndefined);
      && Window(cs, args).Success?
      && EdgeRange(3, Window(cs, args).value) == (1, 3)
      && !PageInfoOf(cs, args, Window(cs, args).value).hasPreviousPage
      && var previous := args.(before := JStr(cs[1]));
      && Window(cs, previous).Success?
      && EdgeRange(3, Window(cs, previous).value) == (0, 1)
  {
    LastMatchDistinct(cs, 0);
    LastMatchDistinct(cs, 1);
    assert cs[0] in cs && cs[1] in cs;
  }

  /** `after` set to the cursor of item `i` with `first = 1` selects item `i + 1` alone, if there is one. */
  lemma AfterThenFirstOne(cs: seq<string>, i: int)
    requires Distinct(cs) && 0 <= i < |cs|
    ensures var args := Args(JNum(1), JUndefined, JStr(cs[i]), JUndefined);
      && Window(cs, args).Success?
      && EdgeRange(|cs|, Window(cs, args).value) == (i + 1, Min(|cs|, i + 2))
      && PageInfoOf(cs, args, Window(cs, args).value).hasNextPage == (i + 2 < |cs|)
      && !PageInfoOf(cs, args, Window(cs, args).value).hasPreviousPage
  {
    var args := Args(JNum(1), JUndefined, JStr(cs[i]), JUndefined);
    LastMatchDistinct(cs, i);
    assert cs[i] in cs;
    var b := Window(cs, args).value;
    assert b.startOffset == i + 1 && b.endOffset == Min(|cs|, i + 2);
  }

  /** `before` set to the cursor of item `i` with `last = 1` selects item `i - 1` alone, if there is one. */
  lemma BeforeThenLastOne(cs: seq<string>, i: int)
    requires Distinct(cs) && 0 <= i < |cs|
    ensures var args := Args(JUndefined, JNum(1), JUndefined, JStr(cs[i]));
      && Window(cs, args).Success?
      && EdgeRange(|cs|, Window(cs, args).value) == (Max(0, i - 1), i)
      && !PageInfoOf(cs, args, Window(cs, args).value).hasNextPage
      && PageInfoOf(cs, args, Window(cs, args).value).hasPreviousPage == (i >= 2)
  {
    var args := Args(JUndefined, JNum(1), JUndefined, JStr(cs[i]));
    LastMatchDistinct(cs, i);
    assert cs[i] in cs;
    var b := Window(cs, args).value;
    assert b.startOffset == Max(0, i - 1) && b.endOffset == i;
  }
}
