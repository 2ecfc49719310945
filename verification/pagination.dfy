/** `src/components/common/DataTablePagination.tsx`: the page count, the
    "from-to of N" label, the enablement of the two arrow buttons and the
    rows-per-page change, which the component reports to its owner as two
    callbacks. Pages are numbered from 0. */
module Pagination {
  import opened JsArray

  /** `Math.ceil(totalRows / rowsPerPage)`: the least page count whose pages
      hold every row. */
  function TotalPages(totalRows: nat, rowsPerPage: nat): (r: nat)
    requires rowsPerPage > 0
    ensures r * rowsPerPage >= totalRows
    ensures r > 0 ==> (r - 1) * rowsPerPage < totalRows
    ensures r == 0 <==> totalRows == 0
  {
    (totalRows + rowsPerPage - 1) / rowsPerPage
  }

  /** `displayRange`: the 1-based numbers of the first and last row shown. */
  datatype Range = Range(from: nat, to: nat)

  /** `displayRange`: `from` is 0 for an empty table and the 1-based number
      of the page's first row otherwise; `to` is the page's last row,
      capped at the row count. */
  function DisplayRange(page: nat, rowsPerPage: nat, totalRows: nat): (r: Range)
    ensures r.to <= totalRows && r.to <= (page + 1) * rowsPerPage
    ensures totalRows == 0 ==> r == Range(0, 0)
    ensures totalRows > 0 ==> r.from == page * rowsPerPage + 1
    ensures r.to == totalRows || r.to == (page + 1) * rowsPerPage
  {
    Range(
      if totalRows == 0 then 0 else page * rowsPerPage + 1,
      if totalRows <= (page + 1) * rowsPerPage then totalRows else (page + 1) * rowsPerPage)
  }

  /** A page is valid when it lies in `[0, totalPages)`. */
  predicate ValidPage(page: nat, rowsPerPage: nat, totalRows: nat)
    requires rowsPerPage > 0
  {
    page < TotalPages(totalRows, rowsPerPage)
  }

  /** On a valid page the label names a non-empty range of at most
      `rowsPerPage` rows, all of them within the table. */
  lemma ValidPageRange(page: nat, rowsPerPage: nat, totalRows: nat)
    requires rowsPerPage > 0 && ValidPage(page, rowsPerPage, totalRows)
    ensures var r := DisplayRange(page, rowsPerPage, totalRows);
      1 <= r.from <= r.to <= totalRows && r.to - r.from + 1 <= rowsPerPage
  {
    var n := TotalPages(totalRows, rowsPerPage);
    assert page * rowsPerPage <= (n - 1) * rowsPerPage by {
      MultiplyMonotone(page, n - 1, rowsPerPage);
    }
  }

  lemma MultiplyMonotone(a: nat, b: nat, k: nat)
    requires a <= b
    ensures a * k <= b * k
  {
  }

  /** Consecutive valid pages tile the table: each starts right after the
      previous one ends, and the last one ends at the last row. */
  lemma PagesTile(page: nat, rowsPerPage: nat, totalRows: nat)
    requires rowsPerPage > 0 && ValidPage(page, rowsPerPage, totalRows)
    ensures ValidPage(page + 1, rowsPerPage, totalRows) ==>
      DisplayRange(page + 1, rowsPerPage, totalRows).from == DisplayRange(page, rowsPerPage, totalRows).to + 1
    ensures !ValidPage(page + 1, rowsPerPage, totalRows) ==>
      DisplayRange(page, rowsPerPage, totalRows).to == totalRows
  {
    var n := TotalPages(totalRows, rowsPerPage);
    if page + 1 < n {
      MultiplyMonotone(page + 2, n, rowsPerPage);
      assert (page + 1) * rowsPerPage < totalRows by {
        MultiplyMonotone(page + 1, n - 1, rowsPerPage);
      }
    } else {
      assert page == n - 1;
    }
  }

  /** The previous-page button is disabled exactly on the first page. */
  predicate PrevDisabled(page: nat) {
    page == 0
  }

  /** The next-page button is disabled from the last page on (and always
      for an empty table). */
  predicate NextDisabled(page: nat, rowsPerPage: nat, totalRows: nat)
    requires rowsPerPage > 0
  {
    page >= TotalPages(totalRows, rowsPerPage) - 1
  }

  /** Clicking the previous-page button: `onPageChange(page - 1)`, or
      nothing while it is disabled. */
  function PrevClick(page: nat): (r: Option<nat>)
    ensures r.None? <==> PrevDisabled(page)
    ensures r.Some? ==> r.value + 1 == page
  {
    if page == 0 then None else Some(page - 1)
  }

  /** Clicking the next-page button: `onPageChange(page + 1)`, or nothing
      while it is disabled. */
  function NextClick(page: nat, rowsPerPage: nat, totalRows: nat): (r: Option<nat>)
    requires rowsPerPage > 0
    ensures r.None? <==> NextDisabled(page, rowsPerPage, totalRows)
    ensures r.Some? ==> r.value == page + 1
  {
    if page >= TotalPages(totalRows, rowsPerPage) - 1 then None else Some(page + 1)
  }

  /** The arrows never leave the valid pages: from a valid page, whichever
      button is enabled leads to a valid page. */
  lemma NavigationKeepsPageValid(page: nat, rowsPerPage: nat, totalRows: nat)
    requires rowsPerPage > 0 && ValidPage(page, rowsPerPage, totalRows)
    ensures PrevClick(page).Some? ==> ValidPage(PrevClick(page).value, rowsPerPage, totalRows)
    ensures NextClick(page, rowsPerPage, totalRows).Some? ==>
      ValidPage(NextClick(page, rowsPerPage, totalRows).value, rowsPerPage, totalRows)
  {
  }

  /** An empty table has no valid page, and both buttons are disabled on
      page 0. */
  lemma EmptyTableDisablesBoth(rowsPerPage: nat)
    requires rowsPerPage > 0
    ensures !ValidPage(0, rowsPerPage, 0)
    ensures PrevDisabled(0) && NextDisabled(0, rowsPerPage, 0)
    ensures DisplayRange(0, rowsPerPage, 0) == Range(0, 0)
  {
  }

  /** The callbacks the component invokes, in order. */
  datatype PagingEvent = RowsPerPageChanged(rowsPerPage: nat) | PageChanged(page: nat)

  /** The state the owner keeps for the component. */
  datatype PagingState = PagingState(page: nat, rowsPerPage: nat)

  /** The owner applies one callback to its state. */
  function Apply(s: PagingState, e: PagingEvent): (r: PagingState)
    ensures e.PageChanged? ==> r == s.(page := e.page)
    ensures e.RowsPerPageChanged? ==> r == s.(rowsPerPage := e.rowsPerPage)
  {
    match e
    case RowsPerPageChanged(n) => s.(rowsPerPage := n)
    case PageChanged(p) => s.(page := p)
  }

  /** The owner applies a run of callbacks, in order. */
  function ApplyAll(s: PagingState, es: seq<PagingEvent>): PagingState
    decreases |es|
  {
    if es == [] then s else ApplyAll(Apply(s, es[0]), es[1..])
  }

  /** `handleRowsPerPageChange`: reports the new size, then page 0. */
  function HandleRowsPerPageChange(newRowsPerPage: nat): (r: seq<PagingEvent>)
    ensures |r| == 2 && r[|r| - 1] == PageChanged(0)
    ensures RowsPerPageChanged(newRowsPerPage) in r
  {
    [RowsPerPageChanged(newRowsPerPage), PageChanged(0)]
  }

  /** Changing the page size always lands on the first page, which is valid
      whenever the table has rows. */
  lemma RowsPerPageChangeResetsPage(s: PagingState, newRowsPerPage: nat, totalRows: nat)
    ensures ApplyAll(s, HandleRowsPerPageChange(newRowsPerPage)) == PagingState(0, newRowsPerPage)
    ensures newRowsPerPage > 0 && totalRows > 0 ==> ValidPage(0, newRowsPerPage, totalRows)
  {
    var es := HandleRowsPerPageChange(newRowsPerPage);
    var s1 := Apply(s, es[0]);
    assert es[1..] == [PageChanged(0)] && es[1..][1..] == [];
    calc {
      ApplyAll(s, es);
      ApplyAll(s1, es[1..]);
      ApplyAll(Apply(s1, PageChanged(0)), []);
      PagingState(0, newRowsPerPage);
    }
  }
}
