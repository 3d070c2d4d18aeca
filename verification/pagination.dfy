/** Pagination of the list endpoints: the `OFFSET`/`LIMIT` scope built from the `page` and `limit`
    query parameters, and the summary object returned next to the rows. The summary's row range and
    next-page link are modelled as written and, separately, as evidently intended. */
module Pagination {

  import opened Base
  import opened Numbers
  import opened Request

  function Min(a: int, b: int): int
  {
    if a <= b then a else b
  }

  /** A positive integer query parameter as the helpers read it: `Atoi` with the error discarded,
      and the fallback for anything not positive. */
  function PositiveParam(raw: string, fallback: int): (v: int)
    requires 1 <= fallback <= MaxInt64
    ensures 1 <= v <= MaxInt64
    ensures WellFormedInt(raw) && 1 <= IntValue(raw) <= MaxInt64 ==> v == IntValue(raw)
    ensures WellFormedInt(raw) && IntValue(raw) > MaxInt64 ==> v == MaxInt64
    ensures WellFormedInt(raw) && IntValue(raw) <= 0 ==> v == fallback
    ensures Atoi(raw).SyntaxError? ==> v == fallback
  {
    var n := Atoi(raw).IgnoringError();
    if n <= 0 then fallback else n
  }

  /** `page`, default "1". */
  function PageParam(q: QueryParams): (page: int)
    ensures 1 <= page <= MaxInt64
  {
    PositiveParam(DefaultQuery(q, "page", "1"), 1)
  }

  /** `limit`, default "10". */
  function LimitParam(q: QueryParams): (limit: int)
    ensures 1 <= limit <= MaxInt64
  {
    PositiveParam(DefaultQuery(q, "limit", "10"), 10)
  }

  /** The scope `Paginate` adds to a query. */
  datatype Window = Window(offset: int, limit: int)

  /** `Paginate`: skip the pages before `page`. The offset is computed in Go's `int` and wraps for
      absurdly large pages. */
  function Paginate(q: QueryParams): (w: Window)
    ensures w.limit == LimitParam(q) && w.limit >= 1
    ensures (PageParam(q) - 1) * w.limit <= MaxInt64 ==> w.offset == (PageParam(q) - 1) * w.limit >= 0
    ensures MinInt64 <= w.offset <= MaxInt64
  {
    var page := PageParam(q);
    var limit := LimitParam(q);
    var offset := (page - 1) * limit;
    MulNonNegative(page - 1, limit);
    Wrap64InRange(offset);
    Window(Wrap64(offset), limit)
  }

  /** The rows `OFFSET offset LIMIT limit` returns from the full ordered result. */
  function PageRows<T>(rows: seq<T>, offset: nat, limit: nat): (r: seq<T>)
    ensures |r| == if offset >= |rows| then 0 else Min(limit, |rows| - offset)
    ensures forall i :: 0 <= i < |r| ==> r[i] == rows[offset + i]
  {
    if offset >= |rows| then [] else rows[offset .. offset + Min(limit, |rows| - offset)]
  }

  /** ⌈n / d⌉ on integers (the source divides floats and rounds up). */
  function CeilDiv(n: nat, d: nat): (r: nat)
    requires d >= 1
    ensures r * d >= n
    ensures r == 0 || (r - 1) * d < n
  {
    var r := (n + d - 1) / d;
    var m := (n + d - 1) % d;
    assert n + d - 1 == r * d + m;
    assert (r - 1) * d == r * d - d;
    r
  }

  /** The link to one page of the same path. */
  function PageLink(path: string, page: int, limit: int): (link: string)
    ensures link != ""
  {
    path + "?page=" + IntToDecimal(page) + "&limit=" + IntToDecimal(limit)
  }

  datatype Pagination<T> = Pagination(
    page: int, limit: int, totalPages: int, totalRows: int,
    firstPage: string, previousPage: string, nextPage: string, lastPage: string,
    fromRow: int, toRow: int, rows: seq<T>)

  /** The parsed parameters every summary is built from: positive int64 page and limit, and a row
      count that fits an int64. */
  predicate ValidParams(page: int, limit: int, totalRows: int)
  {
    1 <= page <= MaxInt64 && 1 <= limit <= MaxInt64 && 0 <= totalRows <= MaxInt64
  }

  /** The body of `GeneratePaginatedQuery` once page and limit are parsed, as written: the next-page
      link is offered while `page` is below the number of ROWS, and beyond page one the row range is
      shifted one page forward. */
  function Summary<T>(path: string, page: int, limit: int, totalRows: int, rows: seq<T>): (r: Pagination<T>)
    requires ValidParams(page, limit, totalRows)
    ensures r.page == page && r.limit == limit && r.totalRows == totalRows && r.rows == rows
    ensures r.totalPages == CeilDiv(totalRows, limit)
    ensures r.firstPage == PageLink(path, 1, limit) && r.lastPage == PageLink(path, r.totalPages, limit)
    ensures r.previousPage != "" <==> page > 1
    ensures page > 1 ==> r.previousPage == PageLink(path, page - 1, limit)
    ensures r.nextPage != "" <==> page < totalRows
    ensures page < totalRows ==> r.nextPage == PageLink(path, page + 1, limit)
    ensures (r.fromRow, r.toRow) == RowRange(page, limit, totalRows)
  {
    var totalPages := CeilDiv(totalRows, limit);
    var previous := if page > 1 then PageLink(path, page - 1, limit) else "";
    var next := if page < totalRows then PageLink(path, page + 1, limit) else "";
    var (from, to) := RowRange(page, limit, totalRows);
    Pagination(page, limit, totalPages, totalRows, PageLink(path, 1, limit), previous, next,
               PageLink(path, totalPages, limit), from, to, rows)
  }

  /** The summary's row range as written: page one is right, every later page is numbered as if it
      were the page after it. */
  function RowRange(page: int, limit: int, totalRows: int): (range: (int, int))
    requires ValidParams(page, limit, totalRows)
    ensures page == 1 ==> range == (1, Min(limit, totalRows))
    ensures page > 1 && page <= CeilDiv(totalRows, limit) ==> range == (Wrap64(page * limit + 1), Wrap64((page + 1) * limit))
    ensures page > 1 && page > CeilDiv(totalRows, limit) ==> range == (0, 0)
  {
    if page == 1 then (1, if limit > totalRows then totalRows else limit)
    else if page <= CeilDiv(totalRows, limit) then (Wrap64(page * limit + 1), Wrap64((page + 1) * limit))
    else (0, 0)
  }

  /** `GeneratePaginatedQuery`, as written. */
  function GeneratePaginatedQuery<T>(q: QueryParams, path: string, totalRows: int, rows: seq<T>): (r: Pagination<T>)
    requires 0 <= totalRows <= MaxInt64
    ensures r.page == PageParam(q) && r.limit == LimitParam(q) && r.totalRows == totalRows
    ensures r.previousPage != "" <==> r.page > 1
    ensures r.nextPage != "" <==> r.page < totalRows
  {
    Summary(path, PageParam(q), LimitParam(q), totalRows, rows)
  }

  /** The summary as evidently intended: a next page is offered while one exists, and the row range
      is the 1-based numbers of the rows `Paginate` selected for this page. */
  function SummaryFixed<T>(path: string, page: int, limit: int, totalRows: int, rows: seq<T>): (r: Pagination<T>)
    requires ValidParams(page, limit, totalRows)
    ensures r.page == page && r.limit == limit && r.totalRows == totalRows && r.rows == rows
    ensures r.totalPages == CeilDiv(totalRows, limit)
    ensures r.previousPage != "" <==> page > 1
    ensures r.nextPage != "" <==> page < r.totalPages
    ensures (r.fromRow, r.toRow) == RowRangeFixed(page, limit, totalRows)
  {
    var totalPages := CeilDiv(totalRows, limit);
    var previous := if page > 1 then PageLink(path, page - 1, limit) else "";
    var next := if page < totalPages then PageLink(path, page + 1, limit) else "";
    var (from, to) := RowRangeFixed(page, limit, totalRows);
    Pagination(page, limit, totalPages, totalRows, PageLink(path, 1, limit), previous, next,
               PageLink(path, totalPages, limit), from, to, rows)
  }

  /** The row range as intended: the 1-based numbers of the first and last row of the page, or 0..0
      past the last page. */
  function RowRangeFixed(page: int, limit: int, totalRows: int): (range: (int, int))
    requires ValidParams(page, limit, totalRows)
  {
    if page <= CeilDiv(totalRows, limit) then ((page - 1) * limit + 1, Min(page * limit, totalRows)) else (0, 0)
  }

  /** `GeneratePaginatedQuery` with the corrected summary. */
  function GeneratePaginatedQueryFixed<T>(q: QueryParams, path: string, totalRows: int, rows: seq<T>): (r: Pagination<T>)
    requires 0 <= totalRows <= MaxInt64
    ensures r.page == PageParam(q) && r.limit == LimitParam(q) && r.totalRows == totalRows
    ensures r.nextPage != "" <==> r.page < r.totalPages
  {
    SummaryFixed(path, PageParam(q), LimitParam(q), totalRows, rows)
  }

  // ---------------------------------------------------------------------------------------------
  // Properties

  lemma MulNonNegative(a: int, b: int)
    requires a >= 0 && b >= 0
    ensures a * b >= 0
  {
  }

  lemma MulMonotone(a: int, b: int, c: int)
    requires a <= b && c >= 0
    ensures a * c <= b * c
  {
    assert b * c - a * c == (b - a) * c;
    MulNonNegative(b - a, c);
  }

  /** A page is non-empty exactly when it is one of the first ⌈rows/limit⌉ pages. */
  lemma PageNonEmptyIffInRange<T>(all: seq<T>, page: int, limit: int)
    requires page >= 1 && limit >= 1
    ensures |PageRows(all, (page - 1) * limit, limit)| > 0 <==> page <= CeilDiv(|all|, limit)
  {
    var totalPages := CeilDiv(|all|, limit);
    MulNonNegative(page - 1, limit);
    if page <= totalPages {
      MulMonotone(page - 1, totalPages - 1, limit);
    } else {
      MulMonotone(totalPages, page - 1, limit);
    }
  }

  /** On a non-empty page, the last row number is the first plus the page's size, less one. */
  lemma LastRowOfPage(n: nat, page: int, limit: int)
    requires page >= 1 && limit >= 1 && (page - 1) * limit < n
    ensures Min(page * limit, n) == (page - 1) * limit + Min(limit, n - (page - 1) * limit)
  {
    assert page * limit == (page - 1) * limit + limit;
  }

  /** The corrected row range numbers exactly the rows of the page the scope selects (1-based), and
      is 0..0 for a page past the end. */
  lemma {:induction false} FixedRowRangeMatchesWindow<T>(page: int, limit: int, all: seq<T>)
    requires ValidParams(page, limit, |all|)
    ensures var (from, to) := RowRangeFixed(page, limit, |all|);
      var window := PageRows(all, (page - 1) * limit, limit);
      && (|window| > 0 ==>
            && from == (page - 1) * limit + 1 && to == from + |window| - 1
            && forall j :: 0 <= j < |window| ==> window[j] == all[from - 1 + j])
      && (|window| == 0 ==> from == 0 && to == 0)
  {
    var off := (page - 1) * limit;
    var window := PageRows(all, off, limit);
    PageNonEmptyIffInRange(all, page, limit);
    MulNonNegative(page - 1, limit);
    if |window| > 0 {
      NonEmptyPageRange(page, limit, |all|, |window|);
    }
  }

  /** On a non-empty page the corrected range runs from the row after the offset to the page's last row. */
  lemma NonEmptyPageRange(page: int, limit: int, n: int, size: int)
    requires ValidParams(page, limit, n) && page <= CeilDiv(n, limit)
    requires (page - 1) * limit < n && size == Min(limit, n - (page - 1) * limit)
    ensures RowRangeFixed(page, limit, n) == ((page - 1) * limit + 1, (page - 1) * limit + size)
  {
    LastRowOfPage(n, page, limit);
  }

  /** The corrected summary offers a next page exactly when that page would not be empty. */
  lemma {:induction false} FixedNextPageMatchesWindow<T>(path: string, page: int, limit: int, all: seq<T>)
    requires ValidParams(page, limit, |all|)
    ensures var r := SummaryFixed(path, page, limit, |all|, all);
      r.nextPage != "" <==> |PageRows(all, page * limit, limit)| > 0
  {
    PageNonEmptyIffInRange(all, page + 1, limit);
    assert (page + 1 - 1) * limit == page * limit;
  }

  /** As written, page 2 of 25 rows at 10 per page claims rows 21–30, while the scope returned rows
      11–20; the corrected summary says 11–20. */
  lemma RowRangeShiftedOnePage(all: seq<int>)
    requires |all| == 25
    ensures PageRows(all, (2 - 1) * 10, 10) == all[10..20]
    ensures Summary("", 2, 10, 25, all).fromRow == 21 && Summary("", 2, 10, 25, all).toRow == 30
    ensures SummaryFixed("", 2, 10, 25, all).fromRow == 11 && SummaryFixed("", 2, 10, 25, all).toRow == 20
  {
    Wrap64InRange(21);
    Wrap64InRange(30);
  }

  /** As written, page 2 of 15 rows at 10 per page links to a page 3 that holds no rows; the corrected
      summary offers no next page. */
  lemma NextPageBeyondLast(all: seq<int>)
    requires |all| == 15
    ensures Summary("", 2, 10, 15, all).nextPage != ""
    ensures |PageRows(all, 2 * 10, 10)| == 0
    ensures SummaryFixed("", 2, 10, 15, all).nextPage == ""
  {
  }

  /** `Paginate` and the summary read the same page and limit, and the offset skips exactly the
      earlier pages. */
  lemma ScopeAgreesWithSummary<T>(q: QueryParams, path: string, totalRows: int, rows: seq<T>)
    requires 0 <= totalRows <= MaxInt64
    requires (PageParam(q) - 1) * LimitParam(q) <= MaxInt64
    ensures var r := GeneratePaginatedQueryFixed(q, path, totalRows, rows);
      Paginate(q) == Window((r.page - 1) * r.limit, r.limit)
  {
  }
}
