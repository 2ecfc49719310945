# Trade-search dashboard: the state controllers and list logic

The dashboard is a React/MUI front end for searching trades. A search page holds a table over mock trade rows. A data grid offers column selection, a three-state sort, per-column text filters and drag-resizable columns. A results modal lists search hits with selection, sort and filters. A pagination bar and a row-detail view complete it. Most of the program is visual composition. This project models the deterministic part underneath, module by module:

- `JsText`, `JsArray` (js_text.dfy, js_array.dfy): the JavaScript built-ins this logic relies on.
  - Strings: `toLowerCase`, `includes`, `trim`, `padStart`, `String(n)` and the code-unit `<`.
  - Arrays: `filter`, `find`, `indexOf`, `splice`, the includes/filter-or-append toggle, and a stable `sort`. The sort exists both as a function and as an in-place method on an `array`.
- `Types` (types.dfy): cells, the sort specification, filter and width records, the column descriptor and the trade row, from `src/types/index.ts`.
- `ColumnConfig` (column_config.dfy): the grid's 22-column registry.
- `DataUtils` (data_utils.dfy): the header-width rule and the grid's mock-row generator. Each row's random draws are an input.
- `ColumnVisibility` (column_visibility.dfy): the rendered-columns filter that the grid and both search pages share.
- `DataGrid` (data_grid.dfy): the grid's pure pieces, plus the component as the class `Grid`. Its fields are the component's state, and it has one method per handler.
- `SearchResultsModal` (search_results_modal.dfy): the modal's pure pieces, plus the class `ResultsModal`.
- `Pagination` (pagination.dfy): page count, "from-to of N", arrow enablement, and the rows-per-page callbacks.
- `SearchPage` and `SearchPageClean` (search_page.dfy, search_page_clean.dfy): the mounted search page and its `indexOf`/`splice` variant.
- `SearchForm` (search_form.dfy): the tabbed search form and its Reset.
- `RowDetailView` (row_detail_view.dfy): the labelled listing of a row's properties.

The two search pages contain the same column registry and the same generator text (`src/components/SearchPage.tsx:8-89` and `src/components/SearchPage.clean.tsx:7-84`). The model keeps one copy of each, in `SearchPage`. The grid's sort-cycle updater (`src/components/data-grid/DataGrid.tsx:86-99`, over `key`) and the modal's (`src/components/search/SearchResultsModal.tsx:70-82`, over `column`) are behaviourally identical copies that differ only in the record field's name. The model keeps one function, `DataGrid.NextSort`.

JavaScript semantics that are written out:

- The sort and filter guards test truthiness. An empty sort key counts as no sort. In the resize guard, an empty column id, a start x of 0 and a start width of 0 each count as no drag.
- `trim` strips the ECMAScript white-space and line-terminator characters.
- `Array.prototype.sort` is modelled by a stable insertion sort. ECMAScript requires the sort to be stable but does not fix the algorithm. Under a consistent comparator every stable sort gives the same output, so this choice decides nothing there.
- Integers are unbounded. No value in this logic comes near 2^53.

## Model

| member | source | states |
|---|---|---|
| JsText.ToLower | src/components/data-grid/DataGrid.tsx:216-217 | `toLowerCase` keeps the length, maps each character on its own, and leaves no capital A-Z. |
| JsText.ToLowerIdempotent | src/components/data-grid/DataGrid.tsx:216-217 | Lower-casing twice is the same as lower-casing once. |
| JsText.Includes | src/components/data-grid/DataGrid.tsx:219 | `includes` holds exactly when the needle occurs at some position. |
| JsText.Trim | src/components/data-grid/DataGrid.tsx:123 | `trim` gives a contiguous piece of its input that neither starts nor ends with white space. It is empty exactly when the input is all white space. |
| JsText.TrimBounds | src/components/data-grid/DataGrid.tsx:123 | `trim` removes only white space: everything before and after the piece it keeps is white space. |
| JsText.TrimUnchanged | src/components/data-grid/DataGrid.tsx:123 | A value that neither starts nor ends with white space is its own trim. |
| JsText.TrimLeadingWhitespace | src/components/data-grid/RowDetailView.tsx:29 | Leading white space in front of an already trimmed value is all that `trim` removes. |
| JsText.TrimIdempotent | src/components/data-grid/DataGrid.tsx:130 | Trimming an already trimmed value changes nothing. |
| JsText.PadStart | src/utils/dataUtils.ts:11 | `padStart` reaches the width unless the text is already longer. The text is kept as the suffix and only fill characters precede it. |
| JsText.PadStartKeepsValue | src/utils/dataUtils.ts:11 | Zero-padding a digit string keeps it a digit string with the same numeric value. |
| JsText.NatToString | src/utils/dataUtils.ts:20 | The decimal form of a natural number: all digits, with no leading zero except for 0 itself. |
| JsText.DecimalValueOfNatToString | src/utils/dataUtils.ts:11 | Reading back the decimal form gives the number (a round trip). |
| JsText.NatToStringInjective | src/utils/dataUtils.ts:20 | Different numbers have different decimal forms. |
| JsText.PaddedDecimalInjective | src/utils/dataUtils.ts:11 | Different numbers have different zero-padded forms. |
| JsText.LexCompare | src/components/data-grid/DataGrid.tsx:237-241 | The string comparison is 0 exactly on equal strings, and negative exactly when the first sorts before the second. |
| JsText.LexLessTransitive | src/components/search/SearchResultsModal.tsx:139-141 | Code-unit `<` on strings is transitive. |
| JsText.LexLessTotal | src/components/search/SearchResultsModal.tsx:139-141 | Of two different strings, one is `<` the other. |
| JsArray.Filter | src/components/data-grid/DataGrid.tsx:206 | `filter` keeps only passing elements and never lengthens. |
| JsArray.FilterContents | src/components/data-grid/DataGrid.tsx:206 | Each element survives `filter` exactly when it passes, as many times as it occurs in the input. |
| JsArray.FilterIsSubsequence | src/components/data-grid/DataGrid.tsx:206 | `filter` keeps the input order. |
| JsArray.Find | src/components/data-grid/DataGrid.tsx:110 | `find` returns nothing exactly when no element passes. Otherwise it returns the first passing element. |
| JsArray.Toggle | src/components/data-grid/DataGrid.tsx:67-75 | The includes/filter-or-append toggle flips the membership of the toggled id and no other. Every other element keeps its number of copies. A present id loses every copy, with the order kept. An absent id is appended at the end. |
| JsArray.ToggleTwiceMembership | src/components/data-grid/DataGrid.tsx:67-75 | Toggling the same id twice restores every id's membership. |
| JsArray.ToggleTwiceAbsent | src/components/data-grid/DataGrid.tsx:67-75 | Toggling an absent id twice gives back the very same list. |
| JsArray.ToggleKeepsNoDuplicates | src/components/data-grid/DataGrid.tsx:67-75 | A duplicate-free list stays duplicate-free under the toggle. |
| JsArray.IndexOf | src/components/SearchPage.clean.tsx:121 | `indexOf` is -1 exactly when the id is absent. Otherwise it is the position of the first occurrence. |
| JsArray.RemoveAt | src/components/SearchPage.clean.tsx:127 | `splice(i, 1)` removes exactly the element at `i`. The others keep their relative order. |
| JsArray.RemoveSingleOccurrence | src/components/SearchPage.clean.tsx:127 | For an element that occurs once, filtering it out and splicing out its position give the same list. |
| JsArray.SortByPermutes | src/components/data-grid/DataGrid.tsx:226 | The sort returns a rearrangement of its input. |
| JsArray.SortBySorted | src/components/data-grid/DataGrid.tsx:226 | Under a consistent comparator the output is ordered. |
| JsArray.SortByStable | src/components/data-grid/DataGrid.tsx:226 | Elements that compare equal keep their input order. |
| JsArray.SortInPlace | src/components/data-grid/DataGrid.tsx:226 | The in-place sort on an array leaves exactly the sorted sequence in the array. |
| Types.StringOf | src/components/data-grid/DataGrid.tsx:216 | `String(value)` of a cell: a string is itself, a number is its decimal form, and `undefined` is "undefined". |
| Types.Ids | src/components/data-grid/DataGrid.tsx:27 | `columns.map(c => c.id)` lists the ids in registry order. |
| Types.TradeRow.Get | src/types/index.ts:29-53 | `row[key]`: numeric columns hold numbers, string columns hold strings, and any other key reads as undefined. |
| Types.TradeRow.Entries | src/utils/dataUtils.ts:19-43 | `Object.entries(row)` lists the properties in the generator's literal order. |
| ColumnConfig.RegistryMatchesRow | src/components/data-grid/columnConfig.ts:4-27 | Every registry column except `roe` and `cqr` is a modelled row property, and none is the internal `id`. |
| ColumnConfig.AllColumnIdsDistinct | src/components/data-grid/columnConfig.ts:4-27 | No column id occurs twice in the registry. |
| DataUtils.CalculateColumnWidth | src/utils/dataUtils.ts:48-56 | The width is at least 120. It is 12 per character plus 80 from four characters on, and 120 below that. |
| DataUtils.CalculateColumnWidthMonotone | src/utils/dataUtils.ts:52-55 | A longer label never gets a narrower column. |
| DataUtils.CalculateColumnWidthLengthOnly | src/utils/dataUtils.ts:52-55 | The width depends only on the label's length. |
| DataUtils.MockRow | src/utils/dataUtils.ts:10-43 | Whatever the draws, row `i` is well formed. |
| DataUtils.GenerateMockData | src/utils/dataUtils.ts:4-45 | Exactly `count` rows. Row `i` has id `row-i`, tradeId `TR-` plus `i+1` zero-padded to 6, a charge equal to the sum of the five components, and fields in their offset ranges. |
| DataUtils.EstimatedChargeBounds | src/utils/dataUtils.ts:13-17 | The charge total lies between the sums of the components' bounds. |
| DataUtils.TradeIdEncodesIndex | src/utils/dataUtils.ts:11 | The digits after `TR-` spell `i + 1`. The id is exactly nine characters while `i + 1` has at most six digits. |
| DataUtils.MockIdsDistinct | src/utils/dataUtils.ts:20-21 | Two rows of one generated list never share an `id` or a `tradeId`. |
| ColumnVisibility.VisibleConfigs | src/components/data-grid/DataGrid.tsx:260 | The rendered columns are exactly the registry entries whose id is visible, in registry order. |
| ColumnVisibility.VisibleConfigsDependOnSetOnly | src/components/SearchPage.tsx:149 | The rendered columns depend only on which ids are visible, not on their order or toggle history. |
| ColumnVisibility.SelectAllShowsRegistry | src/components/data-grid/DataGrid.tsx:77-79 | With all ids visible, the whole registry is rendered. |
| ColumnVisibility.ClearAllShowsNothing | src/components/data-grid/DataGrid.tsx:81-83 | With no id visible, nothing is rendered. |
| DataGrid.NextSort | src/components/data-grid/DataGrid.tsx:86-102 | A header click on another column sorts it ascending. On the sorted column the cycle runs asc, desc, unsorted. A key is set exactly when a direction is. |
| DataGrid.SortCycleHasPeriodThree | src/components/data-grid/DataGrid.tsx:86-102 | Three clicks on one column return to the start, passing through all three states. |
| DataGrid.FilterFor | src/components/data-grid/DataGrid.tsx:250-252 | A column's filter is found exactly when some entry is keyed by that column. |
| DataGrid.RemoveFilter | src/components/data-grid/DataGrid.tsx:135-137 | Clearing one filter removes that column's entry, leaves every other column's entry as it was, and keeps one entry per column. |
| DataGrid.ApplyFilter | src/components/data-grid/DataGrid.tsx:122-133 | A whitespace-only value removes the column's filter. Any other value makes the trimmed value the column's filter. Other columns are untouched, and one entry per column is kept. |
| DataGrid.Filtered | src/components/data-grid/DataGrid.tsx:203-222 | The rows passing every filter (the cell is present and case-insensitively contains the value), in input order with their multiplicities. No filters returns the input. |
| DataGrid.CompareCells | src/components/data-grid/DataGrid.tsx:226-243 | Numbers compare by value. Anything else compares by lower-cased string form. Descending reverses the order. |
| DataGrid.DescSwapsAsc | src/components/data-grid/DataGrid.tsx:232 | Descending is ascending with the operands swapped. |
| DataGrid.RowComparatorConsistent | src/components/data-grid/DataGrid.tsx:226-243 | For any key and direction, the comparator is a consistent order on trade rows. |
| DataGrid.ProcessedIsFilteredPermutation | src/components/data-grid/DataGrid.tsx:201-247 | The processed rows are a rearrangement of exactly the rows passing every filter. |
| DataGrid.ProcessedWithoutSort | src/components/data-grid/DataGrid.tsx:225 | Without key and direction the rows keep their input order. With no filters either, the input comes back unchanged. |
| DataGrid.ProcessedWithSort | src/components/data-grid/DataGrid.tsx:225-244 | With a sort the rows are ordered by the comparator, and equal rows keep their input order. |
| DataGrid.FilterOnMissingColumnRejectsAll | src/components/data-grid/DataGrid.tsx:212-214 | A filter on a property the row lacks rejects every row. |
| DataGrid.InitialWidths | src/components/data-grid/DataGrid.tsx:43-48 | One width per column, in order, each carrying its column's id and the header-width rule's value for its label (at least 120). |
| DataGrid.WidthOf | src/components/data-grid/DataGrid.tsx:195-198 | The width of the column's first entry, or 150 when it has none. |
| DataGrid.SetWidth | src/components/data-grid/DataGrid.tsx:153-155 | Only the column's entries get the new width. Ids and order are kept. |
| DataGrid.WidthOfAfterSetWidth | src/components/data-grid/DataGrid.tsx:153-155 | After a width update the column reads back the new width, and every other column reads back its old one. |
| DataGrid.ClampedWidth | src/components/data-grid/DataGrid.tsx:167-168 | The dragged width is the start width plus the drag distance, raised to 100 when smaller. |
| DataGrid.ResizeReadsBack | src/components/data-grid/DataGrid.tsx:164-175 | A drag reads back through `getColumnWidth` as the clamped width, and other columns are unchanged. |
| DataGrid.Grid.constructor | src/components/data-grid/DataGrid.tsx:26-48 | All columns visible, unsorted, no filters, closed popover, widths from the labels, no drag. |
| DataGrid.Grid.HandleColumnToggle | src/components/data-grid/DataGrid.tsx:67-75 | The visible list becomes its toggle. |
| DataGrid.Grid.SelectAllColumns | src/components/data-grid/DataGrid.tsx:77-79 | All ids in registry order, so every column is rendered. |
| DataGrid.Grid.ClearAllColumns | src/components/data-grid/DataGrid.tsx:81-83 | The visible list becomes empty and nothing is rendered. |
| DataGrid.Grid.HandleSort | src/components/data-grid/DataGrid.tsx:86-102 | One step of the sort cycle. The grid invariant is kept. |
| DataGrid.Grid.HandleFilterClick | src/components/data-grid/DataGrid.tsx:105-116 | Opens the popover on the column, prefilled with its current filter value or empty. |
| DataGrid.Grid.HandleFilterClose | src/components/data-grid/DataGrid.tsx:118-120 | Closes the popover. |
| DataGrid.Grid.HandleFilterApply | src/components/data-grid/DataGrid.tsx:122-133 | The filter list is updated for the current column, with one entry per column kept. |
| DataGrid.Grid.HandleFilterClear | src/components/data-grid/DataGrid.tsx:135-137 | The column's filter is removed. The invariant is kept. |
| DataGrid.Grid.HandleClearAllFilters | src/components/data-grid/DataGrid.tsx:139-141 | No filters remain. |
| DataGrid.Grid.HandleResizeStart | src/components/data-grid/DataGrid.tsx:144-151 | Records the drag: column, pointer x and width. |
| DataGrid.Grid.HandleResizeMove | src/components/data-grid/DataGrid.tsx:164-179 | A live drag sets the column's width to the clamped width. Otherwise nothing changes. Every width stays at least 100. |
| DataGrid.Grid.HandleResizeEnd | src/components/data-grid/DataGrid.tsx:181-184 | Ends the drag. |
| DataGrid.Grid.GetColumnWidth | src/components/data-grid/DataGrid.tsx:195-198 | The width stored in the column's first entry, or 150 for a column without one. Never under 100 in a valid grid. |
| DataGrid.Grid.GetColumnFilter | src/components/data-grid/DataGrid.tsx:250-252 | The column's filter entry, and nothing exactly when the column has no entry. In a valid grid it is the only one for that column. |
| DataGrid.Grid.VisibleColumnConfigs | src/components/data-grid/DataGrid.tsx:260 | The registry entries whose id is visible, in registry order. |
| DataGrid.Grid.GetProcessedData | src/components/data-grid/DataGrid.tsx:201-247 | Filtering into a copy and sorting the copy in place gives the processed rows. |
| DataGrid.AtMostOneSortedColumn | src/components/data-grid/DataGrid.tsx:255-257 | At most one column shows the sorted marker. |
| SearchResultsModal.TradeResult.Get | src/components/search/SearchResultsModal.tsx:28-37 | The six required properties read as strings. `selected` and `proposedAction` read as their value when present and as undefined when absent. Other keys read as undefined. |
| SearchResultsModal.TradeIds | src/components/search/SearchResultsModal.tsx:153 | The trade ids of the results, in order. |
| SearchResultsModal.InitialSelection | src/components/search/SearchResultsModal.tsx:149-155 | The initial selection contains exactly the ids of rows marked selected, in input order. |
| SearchResultsModal.InitialSelectionCounts | src/components/search/SearchResultsModal.tsx:149-155 | Each id appears in the initial selection once per selected row carrying it, so repeated ids are kept. |
| SearchResultsModal.SetOrDelete | src/components/search/SearchResultsModal.tsx:100-110 | The spread-and-delete or spread-and-set update: the key is present exactly when the value is non-empty, and then holds that value. Every other key is untouched. |
| SearchResultsModal.ApplyModalFilter | src/components/search/SearchResultsModal.tsx:99-111 | A whitespace-only value deletes the column's key. Any other value sets it to the trimmed value. Every other key is untouched. |
| SearchResultsModal.ModalFiltered | src/components/search/SearchResultsModal.tsx:120-128 | The rows whose cell for every filter key is present and case-insensitively contains the value, in input order. Each passing row keeps its multiplicity and every failing row is dropped. No filters returns the input. |
| SearchResultsModal.ModalCompare | src/components/search/SearchResultsModal.tsx:131-144 | Equal values compare 0, and the result is -1, 0 or 1. Strings order by code units, reversed for descending. An undefined value makes the result -1 both ways. |
| SearchResultsModal.ModalComparatorConsistent | src/components/search/SearchResultsModal.tsx:131-144 | On a column every result holds as a string, the comparator is a consistent order. |
| SearchResultsModal.MissingProposedActionIsUnordered | src/components/search/SearchResultsModal.tsx:133-142 | A row without `proposedAction` compares -1 against a row with one in both directions. The comparator is then inconsistent. |
| SearchResultsModal.ModalProcessedRows | src/components/search/SearchResultsModal.tsx:116-147 | The processed results are a rearrangement of exactly the passing rows. Without a sort they keep the input order. |
| SearchResultsModal.ModalProcessedSorted | src/components/search/SearchResultsModal.tsx:131-144 | Sorted on a column every row carries, the results come out in order. |
| SearchResultsModal.ResultsModal.constructor | src/components/search/SearchResultsModal.tsx:49-56 | Unsorted, no filters, closed popover, and the selection set by the selection effect. |
| SearchResultsModal.ResultsModal.ResultsChanged | src/components/search/SearchResultsModal.tsx:150-155 | New results reset the selection to their marked rows. |
| SearchResultsModal.ResultsModal.HandleRowSelect | src/components/search/SearchResultsModal.tsx:59-67 | The selection becomes its toggle. |
| SearchResultsModal.ResultsModal.HandleSort | src/components/search/SearchResultsModal.tsx:70-85 | One step of the shared sort cycle. |
| SearchResultsModal.ResultsModal.HandleFilterClick | src/components/search/SearchResultsModal.tsx:88-91 | Opens the popover on the column. |
| SearchResultsModal.ResultsModal.HandleFilterClose | src/components/search/SearchResultsModal.tsx:94-96 | Closes the popover. |
| SearchResultsModal.ResultsModal.HandleFilterApply | src/components/search/SearchResultsModal.tsx:99-113 | The filter map is updated for the current column, and the popover is always closed. |
| SearchResultsModal.ResultsModal.ProcessedResults | src/components/search/SearchResultsModal.tsx:116-147 | Filtering and sorting a copy gives the processed results. The `results` field is not modified. |
| Pagination.TotalPages | src/components/common/DataTablePagination.tsx:27 | The least page count whose pages hold every row. It is 0 exactly for an empty table. |
| Pagination.DisplayRange | src/components/common/DataTablePagination.tsx:36-39 | `from` is 0 for an empty table and `page*rowsPerPage + 1` otherwise. `to` is the smaller of the row count and the page's end. |
| Pagination.ValidPageRange | src/components/common/DataTablePagination.tsx:36-39 | On a valid page the label names a non-empty range of at most `rowsPerPage` rows inside the table. |
| Pagination.PagesTile | src/components/common/DataTablePagination.tsx:36-39 | Consecutive valid pages adjoin, and the last ends at the last row. |
| Pagination.PrevClick | src/components/common/DataTablePagination.tsx:78-85 | The previous button is inert exactly on page 0. Otherwise it reports the page before. |
| Pagination.NextClick | src/components/common/DataTablePagination.tsx:87-93 | The next button is inert exactly from the last page on. Otherwise it reports the page after. |
| Pagination.NavigationKeepsPageValid | src/components/common/DataTablePagination.tsx:78-93 | From a valid page, an enabled arrow leads to a valid page. |
| Pagination.EmptyTableDisablesBoth | src/components/common/DataTablePagination.tsx:27-39 | An empty table shows 0-0, has no valid page, and both arrows are disabled. |
| Pagination.Apply | src/components/common/DataTablePagination.tsx:12-13 | The owner's handling of one callback changes only the page or only the page size. |
| Pagination.HandleRowsPerPageChange | src/components/common/DataTablePagination.tsx:29-34 | Reports the new size, then page 0 last. |
| Pagination.RowsPerPageChangeResetsPage | src/components/common/DataTablePagination.tsx:29-34 | After a page-size change the owner is on page 0 with the new size. That page is valid when the table has rows. |
| SearchPage.PageColumnIdsDistinct | src/components/SearchPage.tsx:69-89 | No column id occurs twice in the page's registry. |
| SearchPage.PageIdsNoDuplicates | src/components/SearchPage.tsx:99-101 | The initial visible list has no duplicates. |
| SearchPage.TwoDigits | src/components/SearchPage.tsx:35-36 | `String(n).padStart(2, '0')` for n below 100 is exactly two digits that read back as n. |
| SearchPage.CurveIdShape | src/components/SearchPage.tsx:20 | The curve id is `C-` and four digits that read back as the drawn number. |
| SearchPage.StartTimeShape | src/components/SearchPage.tsx:35-37 | The start time is the date, a space, the two hour characters, a colon and the two minute characters, 16 in all. |
| SearchPage.PageMockRow | src/components/SearchPage.tsx:15-61 | Whatever the draws, row `index` is well formed. |
| SearchPage.GeneratePageMockData | src/components/SearchPage.tsx:8-63 | Exactly `count` rows with id `index+1`, `netTotal = newTrades - removedTrades`, curve id `C-` plus four digits from 1000 to 9999, and start time `2025-07-18 HH:MM` with two-digit hours below 24 and minutes below 60. The same text is at SearchPage.clean.tsx:30-84. |
| SearchPage.PageMockIdsConsecutive | src/components/SearchPage.tsx:15-16 | The ids run 1..count in order, and the net total lies between -9 and 19. |
| SearchPage.Page.constructor | src/components/SearchPage.tsx:93-102 | First tab, empty fields, every registry column visible, selector closed. |
| SearchPage.Page.HandleTabChange | src/components/SearchPage.tsx:106-108 | The tab becomes the chosen one. |
| SearchPage.Page.SetSourceSystem | src/components/SearchPage.tsx:333 | The field takes the typed text. |
| SearchPage.Page.SetTradeId | src/components/SearchPage.tsx:347 | The field takes the typed text. |
| SearchPage.Page.SetCounterparty | src/components/SearchPage.tsx:417 | The field takes the typed text. |
| SearchPage.Page.HandleColumnSelectorClick | src/components/SearchPage.tsx:121-123 | Opens the column selector. |
| SearchPage.Page.HandleColumnSelectorClose | src/components/SearchPage.tsx:125-127 | Closes the column selector. |
| SearchPage.Page.HandleColumnToggle | src/components/SearchPage.tsx:129-137 | The visible list becomes its toggle and stays duplicate-free. |
| SearchPage.Page.SelectAllColumns | src/components/SearchPage.tsx:139-141 | All ids in registry order, so every column is rendered. |
| SearchPage.Page.ClearAllColumns | src/components/SearchPage.tsx:143-145 | The visible list becomes empty and nothing is rendered. |
| SearchPage.Page.VisibleColumnConfigs | src/components/SearchPage.tsx:149 | The registry entries whose id is visible, in registry order whatever the toggle history. |
| SearchPageClean.SpliceToggle | src/components/SearchPage.clean.tsx:120-131 | An absent id is appended at the end. A present id loses exactly its first occurrence, and the rest keep their order. The multiset gains or loses exactly that id. |
| SearchPageClean.SpliceToggleAgreesWithToggle | src/components/SearchPage.clean.tsx:120-131 | On a duplicate-free list the splice toggle equals the filter-or-append toggle. |
| SearchPageClean.SpliceToggleRemovesOnlyFirst | src/components/SearchPage.clean.tsx:127 | On any list holding an id at least twice, the splice toggle removes exactly one copy, so the id stays listed. The filter toggle removes all copies. |
| SearchPageClean.SpliceToggleDuplicateFree | src/components/SearchPage.clean.tsx:120-131 | On a duplicate-free list the splice toggle keeps it duplicate-free, and toggling twice restores every id's membership. |
| SearchPageClean.CleanPage.constructor | src/components/SearchPage.clean.tsx:89-98 | First tab, empty fields, every registry column visible, selector closed. |
| SearchPageClean.CleanPage.HandleColumnToggle | src/components/SearchPage.clean.tsx:120-131 | The copy-then-push-or-splice update stores the splice toggle of the old list, which equals its filter toggle. The list stays duplicate-free. |
| SearchPageClean.CleanPage.HandleSelectAll | src/components/SearchPage.clean.tsx:133-135 | All ids in registry order, so every column is rendered. |
| SearchPageClean.CleanPage.HandleClearAll | src/components/SearchPage.clean.tsx:137-139 | The visible list becomes empty and nothing is rendered. |
| SearchPageClean.CleanPage.VisibleColumnConfigs | src/components/SearchPage.clean.tsx:142 | The registry entries whose id is visible, in registry order. |
| SearchForm.PanelFields | src/components/search/SearchPage.tsx:90-124 | The trade-id panel edits source system and trade id. The counterparty panel edits counterparty, source system and WCIS id. |
| SearchForm.PanelsCoverFields | src/components/search/SearchPage.tsx:90-124 | Together the panels edit every field, and they share only the source system. |
| SearchForm.Form.constructor | src/components/search/SearchPage.tsx:13-17 | The trade-id tab is active and every field is empty. |
| SearchForm.Form.SelectTab | src/components/search/SearchPage.tsx:47 | A tab click activates that tab, and only its panel is shown. |
| SearchForm.Form.HandleClear | src/components/search/SearchPage.tsx:24-33 | Reset empties exactly the active panel's fields. It leaves the other fields and the active tab unchanged. |
| SearchForm.Form.SetField | src/components/search/SearchPage.tsx:95-96 | A field's change handler sets that field and no other. |
| SearchForm.ExactlyOnePanelShown | src/components/search/SearchPage.tsx:90 | Exactly one of the two panels is shown in any state. |
| RowDetailView.SpaceBeforeCapitals | src/components/data-grid/RowDetailView.tsx:29 | The result is one character longer per capital in the key. Every capital in it is preceded by a space. It adds nothing but spaces and loses no character. A key without capitals is unchanged. |
| RowDetailView.Label | src/components/data-grid/RowDetailView.tsx:29 | The label neither starts nor ends with white space, and every capital after its first character follows a space. |
| RowDetailView.SpacingAppend | src/components/data-grid/RowDetailView.tsx:29 | The spacing replacement works character by character, so it distributes over concatenation. |
| RowDetailView.CamelCaseLabel | src/components/data-grid/RowDetailView.tsx:29 | A camel-case key of two words, such as `tradeDate`, is labelled with a space between the words (`trade Date`). |
| RowDetailView.CamelCaseSpacing | src/components/data-grid/RowDetailView.tsx:29 | Before trimming, such a key gets exactly one space, in front of its capital. |
| RowDetailView.LeadingCapitalLabel | src/components/data-grid/RowDetailView.tsx:29 | A one-word key starting with a capital, such as `Trade`, gets a space inserted before it, which `trim` removes, so its label is the key itself. |
| RowDetailView.RemoveSpaces | src/components/data-grid/RowDetailView.tsx:29 | Deleting the spaces leaves no space. |
| RowDetailView.SpacedKeySpaces | src/components/data-grid/RowDetailView.tsx:29 | The spacing step adds only spaces, so deleting spaces before or after it gives the same result. |
| RowDetailView.TrimRemovesOnlySpaces | src/components/data-grid/RowDetailView.tsx:29 | When the only white space is the plain space, trimming removes nothing but spaces. |
| RowDetailView.SpacesVanish | src/components/data-grid/RowDetailView.tsx:29 | A run of spaces before or after a string adds nothing once spaces are deleted. |
| RowDetailView.LabelRoundTrip | src/components/data-grid/RowDetailView.tsx:29 | For a key without white space, deleting the spaces from its label gives back the key. |
| RowDetailView.LabelWithoutCapitals | src/components/data-grid/RowDetailView.tsx:29 | A key without capitals or surrounding white space is its own label. |
| RowDetailView.Display | src/components/data-grid/RowDetailView.tsx:32 | The value's string form, or a dash when the value is null, undefined or has an empty string form. Never empty. |
| RowDetailView.DetailItems | src/components/data-grid/RowDetailView.tsx:24-26 | No item is keyed `id`. Every other entry is listed. Without an `id` entry every entry is listed in order. |
| RowDetailView.Render | src/components/data-grid/RowDetailView.tsx:13-26 | The placeholder exactly when there is no row. Otherwise the items of the row's entries. |
| RowDetailView.OnlyFirstKeyIsId | src/utils/dataUtils.ts:20 | Of a trade row's keys, only the first is `id`. |
| RowDetailView.DetailItemsAfterLeadingId | src/components/data-grid/RowDetailView.tsx:24-36 | When `id` is the first key and no other, every other entry is listed once, in entry order. |
| RowDetailView.TradeRowDetail | src/components/data-grid/RowDetailView.tsx:24-36 | A trade row shows every entry except the leading `id`, in the order of the row's keys. |

## Left out

- `roe` and `cqr`: these floating-point row fields are not part of the modelled rows, in `src/types/index.ts`, `src/utils/dataUtils.ts` and `src/components/SearchPage.tsx`. In the model, reading them gives `undefined`. As a result the ROE and CQR columns sort as a no-op and any filter on them rejects every row, while the source sorts and filters them by their numeric values.
- Strings are sequences of code points, not UTF-16 code units. This affects `<`, `length` and `padStart` only outside the Basic Multilingual Plane, and every value here is ASCII.
- Money fields are whole numbers in the model. The generators floor them, so nothing is lost.
- Dates are not computed. The grid generator's `new Date(...).toISOString()` dates arrive as already formatted strings in the draw.
- Random draws: every `Math.random()` result is an input of the generators, constrained to its floored range.
- `localeCompare`: the model orders strings by code units, not by locale collation. Only the sign of its result is used.
- `toLowerCase`: the model maps only A-Z. Other Unicode case mappings are not modelled.
- Drag-resize plumbing is not modelled: the `window` globals (including `window.columnWidths`), the document listeners and the `preventDefault` calls. The drag session is an optional value held by the grid. Pointer positions are integers.
- `Pagination.TotalPages`: requires a positive page size. With a size of 0 the component would compute `Infinity` or `NaN` page counts.
- The search handlers (`handleSearch`, `handleTradeIdSearch`, `handleCounterpartySearch`) only log to the console.
- The modal's `open`, `onClose`, `searchType` and `searchValue` props only affect rendering.
- The modal is not mounted by any file shown here. It is modelled as a component in its own right.
- `SearchResultsModal.ModalCompare`: for booleans and mixed types its ensures states only the 0-on-equal and the range. The sign in those cases follows JavaScript `>`, which is modelled only for the value pairs a result can hold.
- Sort order under an inconsistent comparator is engine-defined. The model's stable insertion sort is one possible outcome. This affects the modal's `proposedAction` column when some rows lack it.
- `Object.entries` order is modelled as the generator's literal order. The grid's rows are built only by that generator.
- Out of scope: presentation and framework code. This covers styling, animations (`framer-motion`, `useClickAnimation` timers), `FilterPopover`'s local input state, column-selector and header components, sidebars, dialogs, and the re-export files.
- The component's text-field values in `src/components/search/SearchPage.tsx` are edited by child panels (`TradeIdSearch`, `CounterpartySearch`). These are not part of this model; only their change callbacks are.
