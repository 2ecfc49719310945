/** The search page the application mounts (`src/components/SearchPage.tsx`):
    its 19-column registry, its own mock-row generator (random draws are
    inputs) and the page state with the filter-and-append column toggle. */
module SearchPage {
  import opened JsText
  import opened JsArray
  import opened Types
  import opened ColumnVisibility
  import opened DataUtils

  /** `allColumns`: the 19 columns of the page's table, in display order. */
  const PageColumns: seq<Column> := [
    Column("id", "ID", Some(Left)),
    Column("assetClass", "Asset Class", Some(Left)),
    Column("counterparty", "Counterparty", Some(Left)),
    Column("pricingDescription", "Pricing Description", Some(Left)),
    Column("status", "Status", Some(Left)),
    Column("newTrades", "New Trades", Some(Center)),
    Column("removedTrades", "Removed Trades", Some(Center)),
    Column("netTotal", "Net/Total", Some(Center)),
    Column("cva", "CVA", Some(Right)),
    Column("dva", "DVA", Some(Right)),
    Column("fva", "FVA", Some(Right)),
    Column("fca", "FCA", Some(Right)),
    Column("fba", "FBA", Some(Right)),
    Column("roe", "ROE", Some(Right)),
    Column("estimatedCharge", "Estimated Charge", Some(Right)),
    Column("payRec", "Pay/Rec", Some(Left)),
    Column("curveId", "Curve ID", Some(Left)),
    Column("cqr", "Cqr", Some(Right)),
    Column("startTime", "Start Time", Some(Left))
  ]

  /** No column id appears twice. */
  lemma PageColumnIdsDistinct()
    ensures forall i, j :: 0 <= i < j < |PageColumns| ==> PageColumns[i].id != PageColumns[j].id
  {
  }

  /** So the initial visible list has no duplicates. */
  lemma PageIdsNoDuplicates()
    ensures NoDuplicates(Ids(PageColumns))
  {
    PageColumnIdsDistinct();
    DistinctNoDuplicates(Ids(PageColumns));
  }

  // ---------------------------------------------------------------------
  // The page's generateMockData
  // ---------------------------------------------------------------------

  const PayRecs: seq<string> := ["Pay", "Rec"]

  /** The random outcomes one row consumes, each a floored draw; `curve` is
      the draw behind `Math.floor(1000 + Math.random() * 9000)`, less 1000. */
  datatype PageDraw = PageDraw(
    assetClass: int, counterparty: int, curve: int, cva: int, dva: int,
    estimatedCharge: int, fba: int, fca: int, fva: int, newTrades: int,
    removedTrades: int, payRec: int, pricing: int, hours: int, minutes: int,
    status: int)

  predicate ValidPageDraw(d: PageDraw) {
    && 0 <= d.assetClass < |AssetClasses| && 0 <= d.counterparty < |Counterparties|
    && 0 <= d.curve < 9000 && 0 <= d.cva < 5000 && 0 <= d.dva < 3000
    && 0 <= d.estimatedCharge < 10000 && 0 <= d.fba < 500 && 0 <= d.fca < 1000
    && 0 <= d.fva < 1500 && 0 <= d.newTrades < 20 && 0 <= d.removedTrades < 10
    && 0 <= d.payRec < |PayRecs| && 0 <= d.pricing < |PricingDescriptions|
    && 0 <= d.hours < 24 && 0 <= d.minutes < 60 && 0 <= d.status < |Statuses|
  }

  /** One row of the page's table, without the two floating-point fields
      `cqr` and `roe`. */
  datatype PageRow = PageRow(
    id: int, assetClass: string, counterparty: string, curveId: string,
    cva: int, dva: int, estimatedCharge: int, fba: int, fca: int, fva: int,
    netTotal: int, newTrades: int, payRec: string, pricingDescription: string,
    removedTrades: int, startTime: string, status: string)

  /** `String(n).padStart(2, '0')`. */
  function TwoDigits(n: nat): (r: string)
    requires n < 100
    ensures |r| == 2 && AllDigits(r) && DecimalValue(r) == n
  {
    DigitCountBounds(n, 2);
    PadStartKeepsValue(NatToString(n), 2);
    DecimalValueOfNatToString(n);
    PadStart(NatToString(n), 2, '0')
  }

  /** Row `index` of the page's generator, built from its draws. */
  function PageMockRow(index: nat, d: PageDraw): (row: PageRow)
    requires ValidPageDraw(d)
    ensures WellFormedPageRow(index, row)
  {
    var curve := 1000 + d.curve;
    CurveIdShape(curve);
    StartTimeShape(TwoDigits(d.hours), TwoDigits(d.minutes));
    PageRow(
      id := index + 1,
      assetClass := AssetClasses[d.assetClass],
      counterparty := Counterparties[d.counterparty],
      curveId := "C-" + NatToString(curve),
      cva := d.cva, dva := d.dva, estimatedCharge := d.estimatedCharge,
      fba := d.fba, fca := d.fca, fva := d.fva,
      netTotal := d.newTrades - d.removedTrades,
      newTrades := d.newTrades,
      payRec := PayRecs[d.payRec],
      pricingDescription := PricingDescriptions[d.pricing],
      removedTrades := d.removedTrades,
      startTime := "2025-07-18 " + TwoDigits(d.hours) + ":" + TwoDigits(d.minutes),
      status := Statuses[d.status])
  }

  /** `C-` and four digits that read back as the curve number. */
  lemma CurveIdShape(curve: nat)
    requires 1000 <= curve < 10000
    ensures var c := "C-" + NatToString(curve);
      |c| == 6 && c[..2] == "C-" && AllDigits(c[2..]) && DecimalValue(c[2..]) == curve
  {
    var c := "C-" + NatToString(curve);
    DigitCountBounds(curve, 4);
    DecimalValueOfNatToString(curve);
    assert c[2..] == NatToString(curve);
  }

  /** The start time's layout: the date, a space, two hour digits, a colon
      and two minute digits. */
  lemma StartTimeShape(hh: string, mm: string)
    requires |hh| == 2 && |mm| == 2
    ensures var t := "2025-07-18 " + hh + ":" + mm;
      && |t| == 16 && t[..11] == "2025-07-18 " && t[13] == ':'
      && t[11..13] == hh && t[14..] == mm
  {
    var date := "2025-07-18 ";
    var t := date + hh + ":" + mm;
    assert t == date + (hh + (":" + mm));
    assert t[..11] == date;
    assert t[11..] == hh + (":" + mm);
    assert t[11..][..2] == hh;
    assert t[14..] == t[11..][3..];
  }

  /** What row `index` satisfies whatever the draws were: its id, the net
      total, the curve id and the start-time layout, and the ranges. */
  predicate WellFormedPageRow(index: nat, row: PageRow) {
    && row.id == index + 1
    && row.netTotal == row.newTrades - row.removedTrades
    && 0 <= row.newTrades < 20 && 0 <= row.removedTrades < 10
    && 0 <= row.cva < 5000 && 0 <= row.dva < 3000 && 0 <= row.estimatedCharge < 10000
    && 0 <= row.fba < 500 && 0 <= row.fca < 1000 && 0 <= row.fva < 1500
    && |row.curveId| == 6 && row.curveId[..2] == "C-" && AllDigits(row.curveId[2..])
    && 1000 <= DecimalValue(row.curveId[2..]) <= 9999
    && |row.startTime| == 16 && row.startTime[..11] == "2025-07-18 " && row.startTime[13] == ':'
    && AllDigits(row.startTime[11..13]) && DecimalValue(row.startTime[11..13]) < 24
    && AllDigits(row.startTime[14..]) && DecimalValue(row.startTime[14..]) < 60
    && row.payRec in PayRecs && row.assetClass in AssetClasses
    && row.counterparty in Counterparties && row.pricingDescription in PricingDescriptions
    && row.status in Statuses
  }

  /** `generateMockData(count)`: `count` rows whose ids run 1..count in order. */
  function GeneratePageMockData(count: nat, draws: seq<PageDraw>): (rows: seq<PageRow>)
    requires |draws| == count && forall i :: 0 <= i < count ==> ValidPageDraw(draws[i])
    ensures |rows| == count
    ensures forall i :: 0 <= i < count ==> WellFormedPageRow(i, rows[i])
  {
    seq(count, i requires 0 <= i < count => PageMockRow(i, draws[i]))
  }

  /** The ids are consecutive, and the net total stays within the draws'
      bounds. */
  lemma PageMockIdsConsecutive(rows: seq<PageRow>)
    requires forall i :: 0 <= i < |rows| ==> WellFormedPageRow(i, rows[i])
    ensures forall i :: 0 <= i < |rows| ==> rows[i].id == i + 1
    ensures forall i :: 0 <= i && i + 1 < |rows| ==> rows[i + 1].id == rows[i].id + 1
    ensures forall i :: 0 <= i < |rows| ==> -9 <= rows[i].netTotal <= 19
  {
  }

  // ---------------------------------------------------------------------
  // The page state
  // ---------------------------------------------------------------------

  /** The `SearchPage` component's state; `selectorOpen` stands for a
      non-null column-selector anchor. */
  class Page {
    var tabValue: int
    var sourceSystem: string
    var tradeId: string
    var counterparty: string
    var visibleColumns: seq<string>
    var selectorOpen: bool

    /** The ids stay duplicate-free. */
    ghost predicate Valid()
      reads this
    {
      NoDuplicates(visibleColumns)
    }

    /** The initial state: first tab, empty fields, every column visible. */
    constructor ()
      ensures Valid()
      ensures tabValue == 0 && sourceSystem == "" && tradeId == "" && counterparty == ""
      ensures visibleColumns == Ids(PageColumns) && !selectorOpen
    {
      tabValue := 0;
      sourceSystem := "";
      tradeId := "";
      counterparty := "";
      visibleColumns := Ids(PageColumns);
      selectorOpen := false;
      PageIdsNoDuplicates();
    }

    /** `handleTabChange`. */
    method HandleTabChange(newValue: int)
      modifies this`tabValue
      ensures tabValue == newValue
    {
      tabValue := newValue;
    }

    /** The three text fields' change handlers. */
    method SetSourceSystem(value: string)
      modifies this`sourceSystem
      ensures sourceSystem == value
    {
      sourceSystem := value;
    }

    method SetTradeId(value: string)
      modifies this`tradeId
      ensures tradeId == value
    {
      tradeId := value;
    }

    method SetCounterparty(value: string)
      modifies this`counterparty
      ensures counterparty == value
    {
      counterparty := value;
    }

    /** `handleColumnSelectorClick` and `handleColumnSelectorClose`. */
    method HandleColumnSelectorClick()
      modifies this`selectorOpen
      ensures selectorOpen
    {
      selectorOpen := true;
    }

    method HandleColumnSelectorClose()
      modifies this`selectorOpen
      ensures !selectorOpen
    {
      selectorOpen := false;
    }

    /** `handleColumnToggle`: removes a visible id, appends a hidden one. */
    method HandleColumnToggle(columnId: string)
      requires Valid()
      modifies this`visibleColumns
      ensures Valid()
      ensures visibleColumns == Toggle(old(visibleColumns), columnId)
    {
      ToggleKeepsNoDuplicates(visibleColumns, columnId);
      visibleColumns := Toggle(visibleColumns, columnId);
    }

    /** `selectAllColumns`: every registry id, in registry order, so the
        whole registry is rendered. */
    method SelectAllColumns()
      modifies this`visibleColumns
      ensures Valid()
      ensures visibleColumns == Ids(PageColumns)
      ensures VisibleColumnConfigs() == PageColumns
    {
      visibleColumns := Ids(PageColumns);
      EverythingVisible();
    }

    /** With every registry id visible the whole registry is rendered. */
    lemma EverythingVisible()
      requires visibleColumns == Ids(PageColumns)
      ensures Valid()
      ensures VisibleColumnConfigs() == PageColumns
    {
      PageIdsNoDuplicates();
      SelectAllShowsRegistry(PageColumns);
    }

    /** `clearAllColumns`. */
    method ClearAllColumns()
      modifies this`visibleColumns
      ensures Valid()
      ensures visibleColumns == [] && VisibleColumnConfigs() == []
    {
      visibleColumns := [];
      NothingVisible();
    }

    /** With no id visible nothing is rendered. */
    lemma NothingVisible()
      requires visibleColumns == []
      ensures VisibleColumnConfigs() == []
    {
      ClearAllShowsNothing(PageColumns);
    }

    /** `visibleColumnConfigs`: the registry entries whose id is visible, in
        registry order whatever the toggle history. */
    function VisibleColumnConfigs(): (r: seq<Column>)
      reads this
      ensures forall c :: c in r <==> c in PageColumns && c.id in visibleColumns
      ensures IsSubsequence(r, PageColumns)
    {
      VisibleConfigs(PageColumns, visibleColumns)
    }
  }
}
