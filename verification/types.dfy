/** The value types shared by the grid, the modal and the generators
    (`src/types/index.ts`): cells, the sort specification, the per-column
    filter and width records, the column descriptor and the trade row. */
module Types {
  import opened JsText
  import opened JsArray

  /** A JavaScript value as it can sit in a row property: a string, an
      integer-valued number, a boolean or `null`. */
  datatype Value = Str(s: string) | Num(n: int) | Bool(b: bool) | Null

  /** A property read `row[key]`: `None` is `undefined` (no such property). */
  type Cell = Option<Value>

  /** `String(v)` for the values a cell can hold. */
  function StringOf(c: Cell): (r: string)
    ensures c.Some? && c.value.Str? ==> r == c.value.s
    ensures c.Some? && c.value.Num? ==> r == IntToString(c.value.n)
    ensures c.None? ==> r == "undefined"
  {
    match c
    case None => "undefined"
    case Some(Str(s)) => s
    case Some(Num(n)) => IntToString(n)
    case Some(Bool(b)) => if b then "true" else "false"
    case Some(Null) => "null"
  }

  /** The shared cell test of both filter pipelines: the cell is neither
      `null` nor `undefined`, and its lower-cased string form contains the
      lower-cased needle. */
  predicate CellContains(c: Cell, needle: string) {
    c.Some? && !c.value.Null? && Includes(ToLower(StringOf(c)), ToLower(needle))
  }

  datatype Direction = Asc | Desc

  /** `SortConfig`: a column key and a direction, each possibly `null`. */
  datatype SortConfig = SortConfig(key: Option<string>, direction: Option<Direction>)

  const Unsorted := SortConfig(None, None)

  /** `ColumnFilter`: the filter text applied to one column. */
  datatype ColumnFilter = ColumnFilter(id: string, value: string)

  /** `ColumnWidth`: the pixel width of one column. */
  datatype ColumnWidth = ColumnWidth(id: string, width: int)

  datatype Align = Left | Center | Right

  /** `Column`: a registry entry; `align` is optional. The `label` property is
      `labelText` here, `label` being a Dafny keyword. */
  datatype Column = Column(id: string, labelText: string, align: Option<Align>)

  /** `columns.map(column => column.id)`. */
  function Ids(cols: seq<Column>): (r: seq<string>)
    ensures |r| == |cols|
    ensures forall i :: 0 <= i < |r| ==> r[i] == cols[i].id
  {
    seq(|cols|, i requires 0 <= i < |cols| => cols[i].id)
  }

  /** The keys of `TradeRow` whose values are numbers. */
  const NumericKeys: set<string> :=
    {"notional", "cva", "dva", "fva", "fca", "fba", "estimatedCharge"}

  /** The keys of `TradeRow` whose values are strings. */
  const StringKeys: set<string> :=
    {"id", "tradeId", "counterparty", "tradeDate", "effectiveDate", "instrumentType",
     "instrumentId", "currency", "status", "trader", "book", "assetClass",
     "pricingDescription", "sourceSystem"}

  /** The keys of `TradeRow` in the order the generator writes them. */
  const RowKeys: seq<string> :=
    ["id", "tradeId", "counterparty", "tradeDate", "effectiveDate", "instrumentType",
     "instrumentId", "notional", "currency", "status", "trader", "book", "assetClass",
     "cva", "dva", "fva", "fca", "fba", "estimatedCharge", "pricingDescription",
     "sourceSystem"]

  /** `TradeRow`, without the two floating-point fields `roe` and `cqr`. The
      money fields hold whole numbers, as every generator in the program
      produces them with `Math.floor`. */
  datatype TradeRow = TradeRow(
    id: string, tradeId: string, counterparty: string, tradeDate: string,
    effectiveDate: string, instrumentType: string, instrumentId: string,
    notional: int, currency: string, status: string, trader: string,
    book: string, assetClass: string, cva: int, dva: int, fva: int,
    fca: int, fba: int, estimatedCharge: int, pricingDescription: string,
    sourceSystem: string)
  {
    /** `row[key]` through the string index signature: every column has one
        fixed type across all rows, and other keys read as `undefined`. */
    function Get(key: string): (r: Cell)
      ensures key in NumericKeys <==> r.Some? && r.value.Num?
      ensures key in StringKeys <==> r.Some? && r.value.Str?
      ensures r.None? <==> key !in NumericKeys && key !in StringKeys
      ensures r.Some? ==> !r.value.Null? && !r.value.Bool?
    {
      if key == "id" then Some(Str(id))
      else if key == "tradeId" then Some(Str(tradeId))
      else if key == "counterparty" then Some(Str(counterparty))
      else if key == "tradeDate" then Some(Str(tradeDate))
      else if key == "effectiveDate" then Some(Str(effectiveDate))
      else if key == "instrumentType" then Some(Str(instrumentType))
      else if key == "instrumentId" then Some(Str(instrumentId))
      else if key == "notional" then Some(Num(notional))
      else if key == "currency" then Some(Str(currency))
      else if key == "status" then Some(Str(status))
      else if key == "trader" then Some(Str(trader))
      else if key == "book" then Some(Str(book))
      else if key == "assetClass" then Some(Str(assetClass))
      else if key == "cva" then Some(Num(cva))
      else if key == "dva" then Some(Num(dva))
      else if key == "fva" then Some(Num(fva))
      else if key == "fca" then Some(Num(fca))
      else if key == "fba" then Some(Num(fba))
      else if key == "estimatedCharge" then Some(Num(estimatedCharge))
      else if key == "pricingDescription" then Some(Str(pricingDescription))
      else if key == "sourceSystem" then Some(Str(sourceSystem))
      else None
    }

    /** `Object.entries(row)`: the properties in the order the generator's
        object literal creates them. */
    function Entries(): (r: seq<(string, Cell)>)
      ensures |r| == |RowKeys|
      ensures forall i :: 0 <= i < |r| ==> r[i] == (RowKeys[i], Get(RowKeys[i]))
    {
      seq(|RowKeys|, i requires 0 <= i < |RowKeys| => (RowKeys[i], Get(RowKeys[i])))
    }
  }
}
