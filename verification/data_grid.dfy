/** The data grid's controller (`src/components/data-grid/DataGrid.tsx`):
    the pure pieces it is built from (the three-state sort cycle, the
    per-column filter list, the row filter and the row comparator) and the
    component itself as a class whose fields are its state. */
module DataGrid {
  import opened JsText
  import opened JsArray
  import opened Types
  import opened ColumnVisibility
  import DataUtils

  // ---------------------------------------------------------------------
  // The sort cycle
  // ---------------------------------------------------------------------

  /** A sort specification has a key exactly when it has a direction. */
  predicate SortWellFormed(s: SortConfig) {
    s.key.None? <==> s.direction.None?
  }

  /** The header-click updater: clicking the sorted column advances
      asc → desc → unsorted → asc; clicking any other column sorts it
      ascending. The search-results modal uses the same updater. */
  function NextSort(prev: SortConfig, column: string): (r: SortConfig)
    ensures SortWellFormed(r)
    ensures r == Unsorted || r.key == Some(column)
    ensures prev.key != Some(column) ==> r == SortConfig(Some(column), Some(Asc))
    ensures r == Unsorted <==> prev == SortConfig(Some(column), Some(Desc))
  {
    if prev.key == Some(column) then
      match prev.direction
      case Some(Asc) => SortConfig(Some(column), Some(Desc))
      case Some(Desc) => Unsorted
      case None => SortConfig(Some(column), Some(Asc))
    else
      SortConfig(Some(column), Some(Asc))
  }

  /** Three clicks on one column bring back the starting state, passing
      through ascending, descending and unsorted. */
  lemma SortCycleHasPeriodThree(s: SortConfig, column: string)
    requires s == Unsorted || (s.key == Some(column) && s.direction.Some?)
    ensures NextSort(NextSort(NextSort(s, column), column), column) == s
    ensures {s, NextSort(s, column), NextSort(NextSort(s, column), column)} ==
            {Unsorted, SortConfig(Some(column), Some(Asc)), SortConfig(Some(column), Some(Desc))}
  {
  }

  /** `sortConfig.key && sortConfig.direction`: both set, and the key is not
      the empty string (which JavaScript treats as false). */
  predicate SortActive(s: SortConfig) {
    s.key.Some? && s.key.value != "" && s.direction.Some?
  }

  // ---------------------------------------------------------------------
  // The filter list
  // ---------------------------------------------------------------------

  /** `filter => filter.id !== column`. */
  function NotOnColumn(column: string): ColumnFilter -> bool {
    (f: ColumnFilter) => f.id != column
  }

  /** `filter => filter.id === column`. */
  function OnColumn(column: string): ColumnFilter -> bool {
    (f: ColumnFilter) => f.id == column
  }

  /** No column has two entries. */
  predicate UniqueIds(fs: seq<ColumnFilter>) {
    forall i, j :: 0 <= i < j < |fs| ==> fs[i].id != fs[j].id
  }

  /** `filters.find(filter => filter.id === column)`. */
  function FilterFor(fs: seq<ColumnFilter>, column: string): (r: Option<ColumnFilter>)
    ensures r.Some? ==> r.value in fs && r.value.id == column
    ensures r.None? <==> forall i :: 0 <= i < |fs| ==> fs[i].id != column
  {
    Find(fs, OnColumn(column))
  }

  /** `filters.filter(filter => filter.id !== column)`: drops the column's
      entry and keeps the others in order. */
  function RemoveFilter(fs: seq<ColumnFilter>, column: string): (r: seq<ColumnFilter>)
    ensures FilterFor(r, column).None?
    ensures forall other :: other != column ==> FilterFor(r, other) == FilterFor(fs, other)
    ensures IsSubsequence(r, fs)
    ensures UniqueIds(fs) ==> UniqueIds(r)
  {
    var r := Filter(fs, NotOnColumn(column));
    FilterIsSubsequence(fs, NotOnColumn(column));
    FilterContents(fs, NotOnColumn(column));
    FindAfterFilterOut(fs, OnColumn(column), NotOnColumn(column));
    forall other | other != column
      ensures FilterFor(r, other) == FilterFor(fs, other)
    {
      FindAfterFilter(fs, OnColumn(other), NotOnColumn(column));
    }
    SubsequenceKeepsUniqueIds(r, fs);
    r
  }

  lemma {:induction false} SubsequenceKeepsUniqueIds(r: seq<ColumnFilter>, s: seq<ColumnFilter>)
    requires IsSubsequence(r, s)
    ensures UniqueIds(s) ==> UniqueIds(r)
    decreases |s|
  {
    if r != [] && s != [] && UniqueIds(s) {
      if r[0] == s[0] && IsSubsequence(r[1..], s[1..]) {
        SubsequenceKeepsUniqueIds(r[1..], s[1..]);
        SubsequenceMembers(r[1..], s[1..]);
        forall j | 0 < j < |r| ensures r[0].id != r[j].id {
          assert r[j] == r[1..][j - 1];
          assert r[j] in r[1..];
          var k :| 0 <= k < |s| - 1 && s[1..][k] == r[j];
          assert s[k + 1] == r[j];
        }
      } else {
        SubsequenceKeepsUniqueIds(r, s[1..]);
      }
    }
  }

  lemma {:induction false} SubsequenceMembers<T(!new)>(r: seq<T>, s: seq<T>)
    requires IsSubsequence(r, s)
    ensures forall x :: x in r ==> x in s
    decreases |s|
  {
    if r != [] && s != [] {
      if r[0] == s[0] && IsSubsequence(r[1..], s[1..]) {
        SubsequenceMembers(r[1..], s[1..]);
        assert r == [r[0]] + r[1..] && s == [s[0]] + s[1..];
      } else {
        SubsequenceMembers(r, s[1..]);
      }
    }
  }

  /** `handleFilterApply`'s update: a value that trims to nothing removes the
      column's entry; any other value replaces it with the trimmed value,
      appended last. Other columns keep their entries. */
  function ApplyFilter(fs: seq<ColumnFilter>, column: string, value: string): (r: seq<ColumnFilter>)
    ensures AllWhitespace(value) ==> FilterFor(r, column).None?
    ensures !AllWhitespace(value) ==> FilterFor(r, column) == Some(ColumnFilter(column, Trim(value)))
    ensures forall other :: other != column ==> FilterFor(r, other) == FilterFor(fs, other)
    ensures UniqueIds(fs) ==> UniqueIds(r)
  {
    var kept := RemoveFilter(fs, column);
    var trimmed := Trim(value);
    if trimmed == [] then kept
    else
      var added := ColumnFilter(column, trimmed);
      FindAppend(kept, added, OnColumn(column));
      forall other | other != column
        ensures FilterFor(kept + [added], other) == FilterFor(fs, other)
      {
        FindAppend(kept, added, OnColumn(other));
      }
      kept + [added]
  }

  // ---------------------------------------------------------------------
  // Filtering and sorting rows
  // ---------------------------------------------------------------------

  /** `filters.every(...)`: every filter's cell is present and contains the
      filter's value, ignoring case. */
  predicate Passes(row: TradeRow, fs: seq<ColumnFilter>) {
    forall i :: 0 <= i < |fs| ==> CellContains(row.Get(fs[i].id), fs[i].value)
  }

  function PassesAll(fs: seq<ColumnFilter>): TradeRow -> bool {
    (row: TradeRow) => Passes(row, fs)
  }

  /** The filter step of `getProcessedData`: the rows passing every filter,
      in input order, each as often as in the input. */
  function Filtered(rows: seq<TradeRow>, fs: seq<ColumnFilter>): (r: seq<TradeRow>)
    ensures forall x :: x in r <==> x in rows && Passes(x, fs)
    ensures forall x :: multiset(r)[x] == if Passes(x, fs) then multiset(rows)[x] else 0
    ensures IsSubsequence(r, rows)
    ensures fs == [] ==> r == rows
  {
    if |fs| > 0 then
      FilterContents(rows, PassesAll(fs));
      FilterIsSubsequence(rows, PassesAll(fs));
      Filter(rows, PassesAll(fs))
    else
      SubsequenceReflexive(rows);
      rows
  }

  lemma {:induction false} SubsequenceReflexive<T(!new)>(s: seq<T>)
    ensures IsSubsequence(s, s)
    decreases |s|
  {
    if s != [] {
      SubsequenceReflexive(s[1..]);
    }
  }

  /** Both cells hold numbers. */
  predicate BothNumbers(a: Cell, b: Cell) {
    a.Some? && a.value.Num? && b.Some? && b.value.Num?
  }

  /** The sort comparator on two cells: numbers by difference, anything else
      by the lower-cased string forms; descending swaps the operands. */
  function CompareCells(a: Cell, b: Cell, dir: Direction): (r: int)
    ensures BothNumbers(a, b) ==>
      (r == 0 <==> a.value.n == b.value.n) &&
      (r < 0 <==> if dir == Asc then a.value.n < b.value.n else b.value.n < a.value.n)
    ensures !BothNumbers(a, b) ==>
      (r == 0 <==> ToLower(StringOf(a)) == ToLower(StringOf(b))) &&
      (r < 0 <==> if dir == Asc then LexLess(ToLower(StringOf(a)), ToLower(StringOf(b)))
                  else LexLess(ToLower(StringOf(b)), ToLower(StringOf(a))))
  {
    if BothNumbers(a, b) then
      if dir == Asc then a.value.n - b.value.n else b.value.n - a.value.n
    else
      var sa := ToLower(StringOf(a));
      var sb := ToLower(StringOf(b));
      if dir == Asc then LexCompare(sa, sb) else LexCompare(sb, sa)
  }

  /** Descending order is ascending order with the operands swapped. */
  lemma DescSwapsAsc(a: Cell, b: Cell)
    ensures CompareCells(a, b, Desc) == CompareCells(b, a, Asc)
  {
  }

  /** The comparator `filteredData.sort` receives for a key and direction. */
  function RowComparator(key: string, dir: Direction): (TradeRow, TradeRow) -> int {
    (a: TradeRow, b: TradeRow) => CompareCells(a.Get(key), b.Get(key), dir)
  }

  /** Every column of a trade row holds one type, so the comparator orders
      any rows consistently, for every key and direction. */
  lemma RowComparatorConsistent(key: string, dir: Direction, dom: seq<TradeRow>)
    ensures TotalPreorderOn(RowComparator(key, dir), dom)
  {
    var cmp := RowComparator(key, dir);
    forall a, b | a in dom && b in dom
      ensures cmp(a, b) < 0 <==> cmp(b, a) > 0
    {
      assert BothNumbers(a.Get(key), b.Get(key)) <==> BothNumbers(b.Get(key), a.Get(key));
    }
    forall a, b, c | a in dom && b in dom && c in dom && cmp(a, b) <= 0 && cmp(b, c) <= 0
      ensures cmp(a, c) <= 0
    {
      if !BothNumbers(a.Get(key), c.Get(key)) {
        var sa, sb, sc := ToLower(StringOf(a.Get(key))), ToLower(StringOf(b.Get(key))), ToLower(StringOf(c.Get(key)));
        assert !BothNumbers(a.Get(key), b.Get(key)) && !BothNumbers(b.Get(key), c.Get(key));
        if sa != sb && sb != sc {
          if dir == Asc {
            LexLessTransitive(sa, sb, sc);
          } else {
            LexLessTransitive(sc, sb, sa);
          }
        }
      }
    }
  }

  /** `getProcessedData()`: the filtered rows, sorted when both a key and a
      direction are set. */
  function Processed(rows: seq<TradeRow>, fs: seq<ColumnFilter>, sc: SortConfig): seq<TradeRow> {
    var f := Filtered(rows, fs);
    if SortActive(sc) then SortBy(f, RowComparator(sc.key.value, sc.direction.value)) else f
  }

  /** The processed rows are a rearrangement of exactly the rows passing
      every filter. */
  lemma ProcessedIsFilteredPermutation(rows: seq<TradeRow>, fs: seq<ColumnFilter>, sc: SortConfig)
    ensures multiset(Processed(rows, fs, sc)) == multiset(Filtered(rows, fs))
    ensures forall x :: x in Processed(rows, fs, sc) <==> x in rows && Passes(x, fs)
  {
    if SortActive(sc) {
      SortByPermutes(Filtered(rows, fs), RowComparator(sc.key.value, sc.direction.value));
      assert forall x :: x in Processed(rows, fs, sc) <==> x in multiset(Filtered(rows, fs));
    }
  }

  /** Without a sort the rows keep their input order; with neither filters
      nor a sort the input comes back unchanged. */
  lemma ProcessedWithoutSort(rows: seq<TradeRow>, fs: seq<ColumnFilter>, sc: SortConfig)
    requires !SortActive(sc)
    ensures IsSubsequence(Processed(rows, fs, sc), rows)
    ensures fs == [] ==> Processed(rows, fs, sc) == rows
  {
  }

  /** With a sort the rows come out ordered by the comparator, and rows
      that compare equal keep their input order (the sort is stable). */
  lemma ProcessedWithSort(rows: seq<TradeRow>, fs: seq<ColumnFilter>, sc: SortConfig, x0: TradeRow)
    requires SortActive(sc)
    ensures Sorted(Processed(rows, fs, sc), RowComparator(sc.key.value, sc.direction.value))
    ensures var cmp := RowComparator(sc.key.value, sc.direction.value);
            Filter(Processed(rows, fs, sc), TiesWith(cmp, x0)) == Filter(Filtered(rows, fs), TiesWith(cmp, x0))
  {
    var f := Filtered(rows, fs);
    var cmp := RowComparator(sc.key.value, sc.direction.value);
    var dom := f + [x0];
    RowComparatorConsistent(sc.key.value, sc.direction.value, dom);
    SortBySortedIn(f, cmp, dom);
    SortByStable(f, cmp, dom, x0);
  }

  /** A filter on a property the row does not have rejects every row. */
  lemma FilterOnMissingColumnRejectsAll(rows: seq<TradeRow>, fs: seq<ColumnFilter>, sc: SortConfig, i: nat)
    requires i < |fs| && fs[i].id !in NumericKeys && fs[i].id !in StringKeys
    ensures Processed(rows, fs, sc) == []
  {
    ProcessedIsFilteredPermutation(rows, fs, sc);
  }

  // ---------------------------------------------------------------------
  // Column widths
  // ---------------------------------------------------------------------

  /** The initial widths: one entry per column, sized from its label. */
  function InitialWidths(columns: seq<Column>): (r: seq<ColumnWidth>)
    ensures |r| == |columns|
    ensures forall i :: 0 <= i < |r| ==> r[i].id == columns[i].id && r[i].width >= 120
    ensures forall i :: 0 <= i < |r| ==>
      r[i].width == DataUtils.CalculateColumnWidth(columns[i].labelText)
  {
    seq(|columns|, i requires 0 <= i < |columns| =>
      ColumnWidth(columns[i].id, DataUtils.CalculateColumnWidth(columns[i].labelText)))
  }

  /** `width => width.id === column`. */
  function WidthOn(column: string): ColumnWidth -> bool {
    (w: ColumnWidth) => w.id == column
  }

  /** `getColumnWidth`: the first stored width for the column, else 150. */
  function WidthOf(ws: seq<ColumnWidth>, column: string): (r: int)
    ensures (forall i :: 0 <= i < |ws| ==> ws[i].id != column) ==> r == 150
    ensures (exists i :: 0 <= i < |ws| && ws[i].id == column) ==>
      exists i :: 0 <= i < |ws| && ws[i].id == column && ws[i].width == r &&
        forall j :: 0 <= j < i ==> ws[j].id != column
  {
    match Find(ws, WidthOn(column))
    case Some(w) => w.width
    case None => 150
  }

  /** `prevWidths.map(col => col.id === id ? { ...col, width } : col)`. */
  function SetWidth(ws: seq<ColumnWidth>, column: string, width: int): (r: seq<ColumnWidth>)
    ensures |r| == |ws|
    ensures forall i :: 0 <= i < |r| ==>
      r[i].id == ws[i].id && r[i].width == if ws[i].id == column then width else ws[i].width
    decreases |ws|
  {
    if ws == [] then []
    else [if ws[0].id == column then ColumnWidth(column, width) else ws[0]] + SetWidth(ws[1..], column, width)
  }

  /** After a resize the column reads back the new width (when it has an
      entry at all) and every other column reads back what it had. */
  lemma {:induction false} WidthOfAfterSetWidth(ws: seq<ColumnWidth>, column: string, width: int, other: string)
    ensures WidthOf(SetWidth(ws, column, width), other) ==
      if other == column && exists i :: 0 <= i < |ws| && ws[i].id == column then width
      else WidthOf(ws, other)
    decreases |ws|
  {
    if ws != [] {
      WidthOfAfterSetWidth(ws[1..], column, width, other);
      var r := SetWidth(ws, column, width);
      assert r[1..] == SetWidth(ws[1..], column, width);
      if ws[0].id != other {
        assert forall i :: 0 < i < |ws| ==> (ws[i].id == column <==> ws[1..][i - 1].id == column);
        assert (exists i :: 0 <= i < |ws| && ws[i].id == column) ==
               (ws[0].id == column || exists i :: 0 <= i < |ws| - 1 && ws[1..][i].id == column);
      }
    }
  }

  /** The drag-resize clamp: `Math.max(100, startWidth + (clientX - startX))`. */
  function ClampedWidth(startWidth: int, startX: int, clientX: int): (r: int)
    ensures r >= 100
    ensures r >= startWidth + (clientX - startX)
    ensures r == 100 || r == startWidth + (clientX - startX)
  {
    var diff := clientX - startX;
    if 100 >= startWidth + diff then 100 else startWidth + diff
  }

  /** A drag in progress: the column id, the pointer's x at mouse-down and
      the column's width then. */
  datatype ResizeSession = ResizeSession(columnId: string, startX: int, startWidth: int)

  /** `!resizingColumnId || !startX || !startWidth` fails: a session is set
      and none of its three parts is falsy (empty, or zero). */
  predicate SessionActive(s: Option<ResizeSession>) {
    s.Some? && s.value.columnId != "" && s.value.startX != 0 && s.value.startWidth != 0
  }

  // ---------------------------------------------------------------------
  // The component
  // ---------------------------------------------------------------------

  /** The `DataGrid` component: its props (`data`, `columns`) and its state
      hooks, with one method per handler. */
  class Grid {
    const data: seq<TradeRow>
    const columns: seq<Column>
    var visibleColumns: seq<string>
    var sortConfig: SortConfig
    var filters: seq<ColumnFilter>
    var filterPopoverOpen: bool
    var currentFilterColumn: string
    var filterValue: string
    var columnWidths: seq<ColumnWidth>
    var resizing: Option<ResizeSession>

    /** What every handler preserves: one filter entry per column, every
        stored width at least 100, and a sort key exactly when a direction. */
    ghost predicate Valid()
      reads this
    {
      && UniqueIds(filters)
      && (forall i :: 0 <= i < |columnWidths| ==> columnWidths[i].width >= 100)
      && SortWellFormed(sortConfig)
    }

    constructor (data: seq<TradeRow>, columns: seq<Column>)
      ensures this.data == data && this.columns == columns
      ensures visibleColumns == Ids(columns)
      ensures sortConfig == Unsorted && filters == []
      ensures !filterPopoverOpen && currentFilterColumn == "" && filterValue == ""
      ensures columnWidths == InitialWidths(columns)
      ensures resizing == None
      ensures Valid()
    {
      this.data := data;
      this.columns := columns;
      visibleColumns := Ids(columns);
      sortConfig := Unsorted;
      filters := [];
      filterPopoverOpen := false;
      currentFilterColumn := "";
      filterValue := "";
      columnWidths := InitialWidths(columns);
      resizing := None;
    }

    /** `handleColumnToggle`: removes a visible column, appends a hidden one. */
    method HandleColumnToggle(columnId: string)
      modifies this`visibleColumns
      ensures visibleColumns == Toggle(old(visibleColumns), columnId)
    {
      visibleColumns := Toggle(visibleColumns, columnId);
    }

    /** `selectAllColumns`: every column id, in registry order. */
    method SelectAllColumns()
      modifies this`visibleColumns
      ensures visibleColumns == Ids(columns)
      ensures VisibleColumnConfigs() == columns
    {
      visibleColumns := Ids(columns);
      SelectAllShowsRegistry(columns);
    }

    /** `clearAllColumns`: no column visible. */
    method ClearAllColumns()
      modifies this`visibleColumns
      ensures visibleColumns == [] && VisibleColumnConfigs() == []
    {
      visibleColumns := [];
      ClearAllShowsNothing(columns);
    }

    /** `handleSort`: one step of the sort cycle. */
    method HandleSort(columnId: string)
      requires Valid()
      modifies this`sortConfig
      ensures sortConfig == NextSort(old(sortConfig), columnId)
      ensures Valid()
    {
      sortConfig := NextSort(sortConfig, columnId);
    }

    /** `handleFilterClick`: opens the popover on the column, prefilled with
        the column's current filter value or the empty string. */
    method HandleFilterClick(columnId: string)
      modifies this`filterPopoverOpen, this`currentFilterColumn, this`filterValue
      ensures filterPopoverOpen && currentFilterColumn == columnId
      ensures filterValue == match FilterFor(filters, columnId)
                             case Some(f) => f.value
                             case None => ""
    {
      filterPopoverOpen := true;
      currentFilterColumn := columnId;
      var existing := FilterFor(filters, columnId);
      if existing.Some? {
        filterValue := existing.value.value;
      } else {
        filterValue := "";
      }
    }

    /** `handleFilterClose`. */
    method HandleFilterClose()
      modifies this`filterPopoverOpen
      ensures !filterPopoverOpen
    {
      filterPopoverOpen := false;
    }

    /** `handleFilterApply`: upserts or removes the current column's filter. */
    method HandleFilterApply(value: string)
      requires Valid()
      modifies this`filters
      ensures filters == ApplyFilter(old(filters), currentFilterColumn, value)
      ensures Valid()
    {
      filters := ApplyFilter(filters, currentFilterColumn, value);
    }

    /** `handleFilterClear`: removes one column's filter. */
    method HandleFilterClear(columnId: string)
      requires Valid()
      modifies this`filters
      ensures filters == RemoveFilter(old(filters), columnId)
      ensures Valid()
    {
      filters := RemoveFilter(filters, columnId);
    }

    /** `handleClearAllFilters`. */
    method HandleClearAllFilters()
      requires Valid()
      modifies this`filters
      ensures filters == [] && Valid()
    {
      filters := [];
    }

    /** `handleResizeStart`: records the column, pointer position and width. */
    method HandleResizeStart(columnId: string, clientX: int, currentWidth: int)
      modifies this`resizing
      ensures resizing == Some(ResizeSession(columnId, clientX, currentWidth))
    {
      resizing := Some(ResizeSession(columnId, clientX, currentWidth));
    }

    /** `handleResizeMove`: with a live session, sets the column's width to
        the clamped drag width; otherwise does nothing. */
    method HandleResizeMove(clientX: int)
      requires Valid()
      modifies this`columnWidths
      ensures SessionActive(resizing) ==>
        columnWidths == SetWidth(old(columnWidths), resizing.value.columnId,
                                 ClampedWidth(resizing.value.startWidth, resizing.value.startX, clientX))
      ensures !SessionActive(resizing) ==> columnWidths == old(columnWidths)
      ensures Valid()
    {
      if SessionActive(resizing) {
        var s := resizing.value;
        columnWidths := SetWidth(columnWidths, s.columnId, ClampedWidth(s.startWidth, s.startX, clientX));
      }
    }

    /** `handleResizeEnd`: ends the session. */
    method HandleResizeEnd()
      modifies this`resizing
      ensures resizing == None
    {
      resizing := None;
    }

    /** `getColumnWidth`: never under 100 in a valid grid. */
    function GetColumnWidth(columnId: string): (r: int)
      reads this
      ensures Valid() ==> r >= 100
      ensures (forall i :: 0 <= i < |columnWidths| ==> columnWidths[i].id != columnId) ==> r == 150
      ensures (exists i :: 0 <= i < |columnWidths| && columnWidths[i].id == columnId) ==>
        exists i :: 0 <= i < |columnWidths| && columnWidths[i].id == columnId &&
          columnWidths[i].width == r && forall j :: 0 <= j < i ==> columnWidths[j].id != columnId
    {
      WidthOf(columnWidths, columnId)
    }

    /** `isSortedColumn`: this column is the key and a direction is set. */
    predicate IsSortedColumn(columnId: string)
      reads this
    {
      sortConfig.key == Some(columnId) && sortConfig.direction.Some?
    }

    /** `getColumnFilter`. */
    function GetColumnFilter(columnId: string): (r: Option<ColumnFilter>)
      reads this
      ensures r.Some? ==> r.value in filters && r.value.id == columnId
      ensures r.None? <==> forall f :: f in filters ==> f.id != columnId
      ensures Valid() && r.Some? ==> forall f :: f in filters && f.id == columnId ==> f == r.value
    {
      FilterFor(filters, columnId)
    }

    /** `visibleColumnConfigs`. */
    function VisibleColumnConfigs(): (r: seq<Column>)
      reads this
      ensures forall c :: c in r <==> c in columns && c.id in visibleColumns
      ensures IsSubsequence(r, columns)
    {
      VisibleConfigs(columns, visibleColumns)
    }

    /** `getProcessedData`: filters into a fresh list, then sorts that list
        in place when a key and a direction are set. */
    method GetProcessedData() returns (r: seq<TradeRow>)
      ensures r == Processed(data, filters, sortConfig)
    {
      var filtered := data;
      if |filters| > 0 {
        filtered := Filter(filtered, PassesAll(filters));
      }
      if SortActive(sortConfig) {
        var a := new TradeRow[|filtered|](i requires 0 <= i < |filtered| => filtered[i]);
        assert a[..] == filtered;
        SortInPlace(a, RowComparator(sortConfig.key.value, sortConfig.direction.value));
        r := a[..];
      } else {
        r := filtered;
      }
    }
  }

  /** At most one column shows the sorted marker. */
  lemma AtMostOneSortedColumn(g: Grid, c1: string, c2: string)
    requires g.IsSortedColumn(c1) && g.IsSortedColumn(c2)
    ensures c1 == c2
  {
  }

  /** A resize reads back through `getColumnWidth` as the clamped width,
      and leaves every other column's width alone. */
  lemma ResizeReadsBack(ws: seq<ColumnWidth>, s: ResizeSession, clientX: int, other: string)
    requires exists i :: 0 <= i < |ws| && ws[i].id == s.columnId
    ensures WidthOf(SetWidth(ws, s.columnId, ClampedWidth(s.startWidth, s.startX, clientX)), s.columnId)
            == ClampedWidth(s.startWidth, s.startX, clientX)
    ensures other != s.columnId ==>
      WidthOf(SetWidth(ws, s.columnId, ClampedWidth(s.startWidth, s.startX, clientX)), other) == WidthOf(ws, other)
  {
    var w := ClampedWidth(s.startWidth, s.startX, clientX);
    WidthOfAfterSetWidth(ws, s.columnId, w, s.columnId);
    WidthOfAfterSetWidth(ws, s.columnId, w, other);
  }
}
