/** `src/utils/dataUtils.ts`: the header-width rule and the grid's mock trade
    generator. The generator's `Math.random()` draws are inputs here (one
    `TradeDraw` per row); dates arrive as already formatted strings. */
module DataUtils {
  import opened JsText
  import opened Types

  // ---------------------------------------------------------------------
  // calculateColumnWidth
  // ---------------------------------------------------------------------

  /** `calculateColumnWidth(text)`: twelve pixels per character plus eighty
      for the sort and filter icons, but never under 120. */
  function CalculateColumnWidth(text: string): (r: int)
    ensures r >= 120
    ensures |text| >= 4 ==> r == 12 * |text| + 80
    ensures |text| < 4 ==> r == 120
  {
    var baseWidth := |text| * 12 + 80;
    if 120 >= baseWidth then 120 else baseWidth
  }

  /** A longer label never gets a narrower column. */
  lemma CalculateColumnWidthMonotone(a: string, b: string)
    requires |a| <= |b|
    ensures CalculateColumnWidth(a) <= CalculateColumnWidth(b)
  {
  }

  /** The width depends on nothing but the label's length. */
  lemma CalculateColumnWidthLengthOnly(a: string, b: string)
    requires |a| == |b|
    ensures CalculateColumnWidth(a) == CalculateColumnWidth(b)
  {
  }

  // ---------------------------------------------------------------------
  // generateMockData
  // ---------------------------------------------------------------------

  const AssetClasses: seq<string> :=
    ["Equity", "Fixed Income", "Currency", "Commodity", "Credit", "Rates"]
  const Counterparties: seq<string> :=
    ["ACME Corp", "Global Bank", "Finance Co", "Trading LLC", "Hedge Fund X",
     "Investment Bank Y", "Credit Union Z", "Mutual Fund A", "Pension Fund B", "Insurance Co C"]
  const PricingDescriptions: seq<string> :=
    ["Standard", "Premium", "Enhanced", "Basic", "Complex", "Legacy", "Special"]
  const Statuses: seq<string> :=
    ["Pending", "Completed", "Processing", "Failed", "On Hold", "Reviewing", "Approved"]

  /** The random outcomes one row consumes: each `int` is a
      `Math.floor(Math.random() * k)` result and each `bool` a
      `Math.random() > t` test; the two dates are the formatted strings. */
  datatype TradeDraw = TradeDraw(
    notional: int, cva: int, dva: int, fva: int, fca: int, fba: int,
    counterparty: int, tradeDate: string, effectiveDate: string,
    swap: bool, instrument: int, usd: bool, eur: bool, status: int,
    trader: int, book: int, assetClass: int, pricing: int,
    systemA: bool, systemB: bool)

  /** Each floored draw lies in `[0, k)` for its multiplier `k`. */
  predicate ValidDraw(d: TradeDraw) {
    && 0 <= d.notional < 10000000 && 0 <= d.cva < 50000 && 0 <= d.dva < 30000
    && 0 <= d.fva < 20000 && 0 <= d.fca < 15000 && 0 <= d.fba < 10000
    && 0 <= d.counterparty < |Counterparties| && 0 <= d.instrument < 10000
    && 0 <= d.status < |Statuses| && 0 <= d.trader < 26 && 0 <= d.book < 100
    && 0 <= d.assetClass < |AssetClasses| && 0 <= d.pricing < |PricingDescriptions|
  }

  /** Row `i` of the generator, built from its draws. */
  function MockRow(i: nat, d: TradeDraw): (row: TradeRow)
    requires ValidDraw(d)
    ensures WellFormedMockRow(i, row)
  {
    var cva := d.cva + 1000;
    var dva := d.dva + 500;
    var fva := d.fva + 300;
    var fca := d.fca + 200;
    var fba := d.fba + 100;
    TradeRow(
      id := "row-" + NatToString(i),
      tradeId := "TR-" + PadStart(NatToString(i + 1), 6, '0'),
      counterparty := Counterparties[d.counterparty],
      tradeDate := d.tradeDate,
      effectiveDate := d.effectiveDate,
      instrumentType := if d.swap then "Swap" else "Option",
      instrumentId := "INST-" + NatToString(d.instrument),
      notional := d.notional + 100000,
      currency := if d.usd then "USD" else if d.eur then "EUR" else "GBP",
      status := Statuses[d.status],
      trader := "Trader " + [('A' as int + d.trader) as char],
      book := "Book-" + NatToString(d.book),
      assetClass := AssetClasses[d.assetClass],
      cva := cva, dva := dva, fva := fva, fca := fca, fba := fba,
      estimatedCharge := cva + dva + fva + fca + fba,
      pricingDescription := PricingDescriptions[d.pricing],
      sourceSystem := if d.systemA then "System A" else if d.systemB then "System B" else "System C")
  }

  /** What every generated row `i` satisfies whatever the draws were. */
  predicate WellFormedMockRow(i: nat, row: TradeRow) {
    && row.id == "row-" + NatToString(i)
    && row.tradeId == "TR-" + PadStart(NatToString(i + 1), 6, '0')
    && row.estimatedCharge == row.cva + row.dva + row.fva + row.fca + row.fba
    && 100000 <= row.notional <= 10099999
    && 1000 <= row.cva <= 50999 && 500 <= row.dva <= 30499 && 300 <= row.fva <= 20299
    && 200 <= row.fca <= 15199 && 100 <= row.fba <= 10099
    && row.counterparty in Counterparties && row.status in Statuses
    && row.assetClass in AssetClasses && row.pricingDescription in PricingDescriptions
    && row.instrumentType in {"Swap", "Option"} && row.currency in {"USD", "EUR", "GBP"}
    && row.sourceSystem in {"System A", "System B", "System C"}
    && |row.trader| == 8 && row.trader[..7] == "Trader " && IsUpper(row.trader[7])
  }

  /** `generateMockData(count)`: exactly `count` rows, row `i` well formed. */
  function GenerateMockData(count: nat, draws: seq<TradeDraw>): (rows: seq<TradeRow>)
    requires |draws| == count && forall i :: 0 <= i < count ==> ValidDraw(draws[i])
    ensures |rows| == count
    ensures forall i :: 0 <= i < count ==> WellFormedMockRow(i, rows[i])
  {
    seq(count, i requires 0 <= i < count => MockRow(i, draws[i]))
  }

  /** The charge total always lies between the sums of the field bounds. */
  lemma EstimatedChargeBounds(i: nat, row: TradeRow)
    requires WellFormedMockRow(i, row)
    ensures 2100 <= row.estimatedCharge <= 127095
  {
  }

  /** The digits after `TR-` spell `i + 1`, and the id is exactly nine
      characters long while `i + 1` has at most six digits. */
  lemma TradeIdEncodesIndex(i: nat, row: TradeRow)
    requires WellFormedMockRow(i, row)
    ensures |row.tradeId| >= 9 && row.tradeId[..3] == "TR-"
    ensures AllDigits(row.tradeId[3..]) && DecimalValue(row.tradeId[3..]) == i + 1
    ensures i + 1 < 1000000 ==> |row.tradeId| == 9
  {
    var digits := NatToString(i + 1);
    PadStartKeepsValue(digits, 6);
    DecimalValueOfNatToString(i + 1);
    assert row.tradeId[3..] == PadStart(digits, 6, '0');
    if i + 1 < 1000000 {
      DigitCountBounds(i + 1, 6);
    }
  }

  /** Distinct rows of one generated list never share an `id` or a `tradeId`. */
  lemma MockIdsDistinct(rows: seq<TradeRow>, i: nat, j: nat)
    requires i < j < |rows|
    requires WellFormedMockRow(i, rows[i]) && WellFormedMockRow(j, rows[j])
    ensures rows[i].id != rows[j].id
    ensures rows[i].tradeId != rows[j].tradeId
  {
    if rows[i].id == rows[j].id {
      assert NatToString(i) == rows[i].id[4..] == rows[j].id[4..] == NatToString(j);
      NatToStringInjective(i, j);
    }
    if rows[i].tradeId == rows[j].tradeId {
      assert PadStart(NatToString(i + 1), 6, '0') == rows[i].tradeId[3..];
      assert PadStart(NatToString(j + 1), 6, '0') == rows[j].tradeId[3..];
      PaddedDecimalInjective(i + 1, j + 1, 6);
    }
  }
}
