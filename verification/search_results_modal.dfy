/** The search-results modal's controller
    (`src/components/search/SearchResultsModal.tsx`): row selection, the
    sort cycle, the per-column filter map and the filter/sort pipeline with
    its case-sensitive comparator. */
module SearchResultsModal {
  import opened JsText
  import opened JsArray
  import opened Types
  import opened DataGrid

  /** `TradeResult`: `selected` and `proposedAction` may be absent. */
  datatype TradeResult = TradeResult(
    selected: Option<bool>, proposedAction: Option<string>,
    underlyingTradeID: string, underlyingBook: string, status: string,
    productType: string, externalSystem: string, description: string)
  {
    /** `(row as any)[key]`. */
    function Get(key: string): (r: Cell)
      ensures key in RequiredKeys ==> r.Some? && r.value.Str?
      ensures key !in RequiredKeys && key != "selected" && key != "proposedAction" ==> r.None?
      ensures r.Some? ==> !r.value.Null? && !r.value.Num?
      ensures key == "selected" ==>
        (r.None? <==> selected.None?) && (selected.Some? ==> r == Some(Bool(selected.value)))
      ensures key == "proposedAction" ==>
        (r.None? <==> proposedAction.None?) && (proposedAction.Some? ==> r == Some(Str(proposedAction.value)))
    {
      if key == "selected" then (if selected.Some? then Some(Bool(selected.value)) else None)
      else if key == "proposedAction" then (if proposedAction.Some? then Some(Str(proposedAction.value)) else None)
      else if key == "underlyingTradeID" then Some(Str(underlyingTradeID))
      else if key == "underlyingBook" then Some(Str(underlyingBook))
      else if key == "status" then Some(Str(status))
      else if key == "productType" then Some(Str(productType))
      else if key == "externalSystem" then Some(Str(externalSystem))
      else if key == "description" then Some(Str(description))
      else None
    }
  }

  /** The properties every result carries. */
  const RequiredKeys: set<string> :=
    {"underlyingTradeID", "underlyingBook", "status", "productType", "externalSystem", "description"}

  // ---------------------------------------------------------------------
  // Initial selection
  // ---------------------------------------------------------------------

  /** `results.map(row => row.underlyingTradeID)`. */
  function TradeIds(rs: seq<TradeResult>): (r: seq<string>)
    ensures |r| == |rs| && forall i :: 0 <= i < |rs| ==> r[i] == rs[i].underlyingTradeID
  {
    seq(|rs|, i requires 0 <= i < |rs| => rs[i].underlyingTradeID)
  }

  /** The selection effect: `results.filter(row => row.selected)
      .map(row => row.underlyingTradeID)` — the ids of exactly the rows
      marked selected, in input order. */
  function InitialSelection(rs: seq<TradeResult>): (r: seq<string>)
    ensures forall id :: id in r <==>
      exists i :: 0 <= i < |rs| && rs[i].selected == Some(true) && rs[i].underlyingTradeID == id
    ensures IsSubsequence(r, TradeIds(rs))
    decreases |rs|
  {
    if rs == [] then []
    else
      var rest := InitialSelection(rs[1..]);
      assert TradeIds(rs)[1..] == TradeIds(rs[1..]);
      assert forall i :: 0 < i < |rs| ==> rs[i] == rs[1..][i - 1];
      if rs[0].selected == Some(true) then [rs[0].underlyingTradeID] + rest
      else rest
  }

  /** Each id occurs in the initial selection once per selected row that
      carries it: repeated ids are all kept. */
  lemma {:induction false} InitialSelectionCounts(rs: seq<TradeResult>, id: string)
    ensures multiset(InitialSelection(rs))[id] == |Filter(rs, SelectedWith(id))|
    decreases |rs|
  {
    if rs != [] {
      InitialSelectionCounts(rs[1..], id);
      var p := SelectedWith(id);
      assert |Filter(rs, p)| == (if p(rs[0]) then 1 else 0) + |Filter(rs[1..], p)|;
    }
  }

  /** The rows marked selected whose trade id is `id`. */
  function SelectedWith(id: string): TradeResult -> bool {
    (row: TradeResult) => row.selected == Some(true) && row.underlyingTradeID == id
  }

  // ---------------------------------------------------------------------
  // The filter map
  // ---------------------------------------------------------------------

  /** `delete copy[column]` for the empty string, `{...fs, [column]: v}`
      otherwise. */
  function SetOrDelete(fs: map<string, string>, column: string, v: string): (r: map<string, string>)
    ensures column in r <==> v != []
    ensures column in r ==> r[column] == v
    ensures forall k :: k != column ==> (k in r <==> k in fs) && (k in r ==> r[k] == fs[k])
  {
    if v == [] then fs - {column} else fs[column := v]
  }

  /** `handleFilterApply`'s update of the filter object: a value that trims
      to nothing deletes the column's key, any other value sets it to the
      trimmed value; every other key keeps its value. */
  function ApplyModalFilter(fs: map<string, string>, column: string, value: string): (r: map<string, string>)
    ensures column in r <==> !AllWhitespace(value)
    ensures column in r ==> r[column] == Trim(value)
    ensures forall k :: k != column ==> (k in r <==> k in fs) && (k in r ==> r[k] == fs[k])
  {
    SetOrDelete(fs, column, Trim(value))
  }

  /** `Object.entries(filters).every(...)`: for every key, the row's cell is
      present and contains the filter text, ignoring case. */
  predicate RowPasses(row: TradeResult, fs: map<string, string>) {
    forall key | key in fs :: CellContains(row.Get(key), fs[key])
  }

  function RowPassesAll(fs: map<string, string>): TradeResult -> bool {
    (row: TradeResult) => RowPasses(row, fs)
  }

  /** The filter step of `processedResults`: the passing rows, in order. */
  function ModalFiltered(rs: seq<TradeResult>, fs: map<string, string>): (r: seq<TradeResult>)
    ensures forall x :: x in r <==> x in rs && RowPasses(x, fs)
    ensures forall x :: multiset(r)[x] == if RowPasses(x, fs) then multiset(rs)[x] else 0
    ensures IsSubsequence(r, rs)
    ensures fs == map[] ==> r == rs
  {
    if |fs| > 0 then
      FilterContents(rs, RowPassesAll(fs));
      FilterIsSubsequence(rs, RowPassesAll(fs));
      Filter(rs, RowPassesAll(fs))
    else
      SubsequenceReflexive(rs);
      rs
  }

  // ---------------------------------------------------------------------
  // The comparator
  // ---------------------------------------------------------------------

  /** JavaScript's `a > b` on the cell pairs a result column produces: two
      strings compare by code units, two booleans as 1 and 0, and a
      comparison with `undefined` is false. */
  predicate JsGreater(a: Cell, b: Cell) {
    if a.Some? && b.Some? then
      match (a.value, b.value)
      case (Str(x), Str(y)) => LexLess(y, x)
      case (Bool(x), Bool(y)) => x && !y
      case (Num(x), Num(y)) => x > y
      case _ => false
    else false
  }

  /** The modal's comparator: equal cells compare 0; ascending answers 1
      when `a > b` and -1 otherwise; descending answers 1 when `a < b` and
      -1 otherwise. */
  function ModalCompare(a: Cell, b: Cell, dir: Direction): (r: int)
    ensures r == 0 <==> a == b
    ensures -1 <= r <= 1
    ensures a != b && a.Some? && a.value.Str? && b.Some? && b.value.Str? ==>
      (r < 0 <==> if dir == Asc then LexLess(a.value.s, b.value.s) else LexLess(b.value.s, a.value.s))
    ensures a != b && (a.None? || b.None?) ==> r == -1
  {
    if a == b then 0
    else
      assert a.Some? && a.value.Str? && b.Some? && b.value.Str? ==>
        (LexLess(a.value.s, b.value.s) <==> !LexLess(b.value.s, a.value.s)) by {
        if a.Some? && a.value.Str? && b.Some? && b.value.Str? {
          LexLessTotal(a.value.s, b.value.s);
          if LexLess(a.value.s, b.value.s) { LexLessAsymmetric(a.value.s, b.value.s); }
        }
      }
      if dir == Asc then (if JsGreater(a, b) then 1 else -1)
      else (if JsGreater(b, a) then 1 else -1)
  }

  function ModalComparator(column: string, dir: Direction): (TradeResult, TradeResult) -> int {
    (a: TradeResult, b: TradeResult) => ModalCompare(a.Get(column), b.Get(column), dir)
  }

  /** On a column every row holds as a string, the comparator is a
      consistent order, so the sort's outcome is determined. */
  lemma ModalComparatorConsistent(column: string, dir: Direction, dom: seq<TradeResult>)
    requires column in RequiredKeys
    ensures TotalPreorderOn(ModalComparator(column, dir), dom)
  {
    var cmp := ModalComparator(column, dir);
    forall a, b | a in dom && b in dom
      ensures cmp(a, b) < 0 <==> cmp(b, a) > 0
    {
      var x, y := a.Get(column).value.s, b.Get(column).value.s;
      if x != y {
        LexLessTotal(x, y);
        if LexLess(x, y) { LexLessAsymmetric(x, y); } else { LexLessAsymmetric(y, x); }
      }
    }
    forall a, b, c | a in dom && b in dom && c in dom && cmp(a, b) <= 0 && cmp(b, c) <= 0
      ensures cmp(a, c) <= 0
    {
      var x, y, z := a.Get(column).value.s, b.Get(column).value.s, c.Get(column).value.s;
      if x != y && y != z {
        if dir == Asc { LexLessTransitive(x, y, z); } else { LexLessTransitive(z, y, x); }
      }
      if x != z {
        LexLessTotal(x, z);
        if LexLess(x, z) { LexLessAsymmetric(x, z); } else { LexLessAsymmetric(z, x); }
      }
    }
  }

  /** A row without `proposedAction` sorts before and after a row with one:
      on that column the comparator answers -1 both ways, so the two rows'
      order is up to the engine's sort algorithm. */
  lemma MissingProposedActionIsUnordered(a: TradeResult, b: TradeResult, dir: Direction)
    requires a.proposedAction.Some? && b.proposedAction.None?
    ensures ModalComparator("proposedAction", dir)(a, b) == -1
    ensures ModalComparator("proposedAction", dir)(b, a) == -1
    ensures !TotalPreorderOn(ModalComparator("proposedAction", dir), [a, b])
  {
    var cmp := ModalComparator("proposedAction", dir);
    assert a in [a, b] && b in [a, b];
    assert cmp(a, b) < 0 && !(cmp(b, a) > 0);
  }

  /** `processedResults`: the filtered rows, sorted when a column and a
      direction are set. */
  function ModalProcessed(rs: seq<TradeResult>, fs: map<string, string>, sc: SortConfig): seq<TradeResult> {
    var f := ModalFiltered(rs, fs);
    if SortActive(sc) then SortBy(f, ModalComparator(sc.key.value, sc.direction.value)) else f
  }

  /** The processed rows are a rearrangement of exactly the passing rows;
      without a sort they keep the input order. */
  lemma ModalProcessedRows(rs: seq<TradeResult>, fs: map<string, string>, sc: SortConfig)
    ensures multiset(ModalProcessed(rs, fs, sc)) == multiset(ModalFiltered(rs, fs))
    ensures forall x :: x in ModalProcessed(rs, fs, sc) <==> x in rs && RowPasses(x, fs)
    ensures !SortActive(sc) ==> IsSubsequence(ModalProcessed(rs, fs, sc), rs)
    ensures !SortActive(sc) && fs == map[] ==> ModalProcessed(rs, fs, sc) == rs
  {
    if SortActive(sc) {
      SortByPermutes(ModalFiltered(rs, fs), ModalComparator(sc.key.value, sc.direction.value));
      assert forall x :: x in ModalProcessed(rs, fs, sc) <==> x in multiset(ModalFiltered(rs, fs));
    }
  }

  /** Sorted on a column every row carries, the rows come out in order. */
  lemma ModalProcessedSorted(rs: seq<TradeResult>, fs: map<string, string>, sc: SortConfig)
    requires SortActive(sc) && sc.key.value in RequiredKeys
    ensures Sorted(ModalProcessed(rs, fs, sc), ModalComparator(sc.key.value, sc.direction.value))
  {
    var f := ModalFiltered(rs, fs);
    ModalComparatorConsistent(sc.key.value, sc.direction.value, f);
    SortBySorted(f, ModalComparator(sc.key.value, sc.direction.value));
  }

  // ---------------------------------------------------------------------
  // The component
  // ---------------------------------------------------------------------

  /** The `SearchResultsModal` component: the `results` prop and its state
      hooks. `filterAnchorOpen` stands for a non-null popover anchor. */
  class ResultsModal {
    var results: seq<TradeResult>
    var selectedRowIds: seq<string>
    var sortConfig: SortConfig
    var filters: map<string, string>
    var filterAnchorOpen: bool
    var filterColumn: string

    /** Mounting: the initial state, then the selection effect. */
    constructor (results: seq<TradeResult>)
      ensures this.results == results
      ensures selectedRowIds == InitialSelection(results)
      ensures sortConfig == Unsorted && filters == map[]
      ensures !filterAnchorOpen && filterColumn == ""
    {
      this.results := results;
      selectedRowIds := InitialSelection(results);
      sortConfig := Unsorted;
      filters := map[];
      filterAnchorOpen := false;
      filterColumn := "";
    }

    /** A new `results` prop: the selection effect runs again. */
    method ResultsChanged(newResults: seq<TradeResult>)
      modifies this`results, this`selectedRowIds
      ensures results == newResults && selectedRowIds == InitialSelection(newResults)
    {
      results := newResults;
      selectedRowIds := InitialSelection(newResults);
    }

    /** `handleRowSelect`: deselects a selected id, appends an unselected one. */
    method HandleRowSelect(id: string)
      modifies this`selectedRowIds
      ensures selectedRowIds == Toggle(old(selectedRowIds), id)
    {
      selectedRowIds := Toggle(selectedRowIds, id);
    }

    /** `handleSort`: one step of the shared sort cycle. */
    method HandleSort(column: string)
      modifies this`sortConfig
      ensures sortConfig == NextSort(old(sortConfig), column)
    {
      sortConfig := NextSort(sortConfig, column);
    }

    /** `handleFilterClick`: anchors the popover on the column. */
    method HandleFilterClick(column: string)
      modifies this`filterAnchorOpen, this`filterColumn
      ensures filterAnchorOpen && filterColumn == column
    {
      filterAnchorOpen := true;
      filterColumn := column;
    }

    /** `handleFilterClose`. */
    method HandleFilterClose()
      modifies this`filterAnchorOpen
      ensures !filterAnchorOpen
    {
      filterAnchorOpen := false;
    }

    /** `handleFilterApply`: updates the filter map and always closes the
        popover. The popover's Clear button applies the empty string. */
    method HandleFilterApply(value: string)
      modifies this`filters, this`filterAnchorOpen
      ensures filters == ApplyModalFilter(old(filters), old(filterColumn), value)
      ensures !filterAnchorOpen
    {
      filters := ApplyModalFilter(filters, filterColumn, value);
      filterAnchorOpen := false;
    }

    /** `processedResults`: copies `results`, filters the copy and sorts it
        in place; `results` itself is left as it was (the method modifies
        nothing). */
    method ProcessedResults() returns (r: seq<TradeResult>)
      ensures r == ModalProcessed(results, filters, sortConfig)
    {
      var filtered := results;
      if |filters| > 0 {
        filtered := Filter(filtered, RowPassesAll(filters));
      }
      if SortActive(sortConfig) {
        var a := new TradeResult[|filtered|](i requires 0 <= i < |filtered| => filtered[i]);
        assert a[..] == filtered;
        SortInPlace(a, ModalComparator(sortConfig.key.value, sortConfig.direction.value));
        r := a[..];
      } else {
        r := filtered;
      }
    }
  }
}
