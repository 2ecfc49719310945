/** The data grid's column registry (`allColumns` of
    `src/components/data-grid/columnConfig.ts`). */
module ColumnConfig {
  import opened JsArray
  import opened Types

  /** The 22 columns the grid offers, in display order. */
  const AllColumns: seq<Column> := [
    Column("tradeId", "Trade ID", Some(Left)),
    Column("counterparty", "Counterparty", Some(Left)),
    Column("tradeDate", "Trade Date", Some(Center)),
    Column("effectiveDate", "Effective Date", Some(Center)),
    Column("instrumentType", "Instrument Type", Some(Left)),
    Column("instrumentId", "Instrument ID", Some(Left)),
    Column("notional", "Notional", Some(Right)),
    Column("currency", "Currency", Some(Center)),
    Column("status", "Status", Some(Center)),
    Column("trader", "Trader", Some(Left)),
    Column("book", "Book", Some(Left)),
    Column("assetClass", "Asset Class", Some(Left)),
    Column("cva", "CVA", Some(Right)),
    Column("dva", "DVA", Some(Right)),
    Column("fva", "FVA", Some(Right)),
    Column("fca", "FCA", Some(Right)),
    Column("fba", "FBA", Some(Right)),
    Column("estimatedCharge", "Estimated Charge", Some(Right)),
    Column("roe", "ROE", Some(Right)),
    Column("cqr", "CQR", Some(Right)),
    Column("pricingDescription", "Pricing Description", Some(Left)),
    Column("sourceSystem", "Source System", Some(Left))
  ]

  /** Every registry column but `roe` and `cqr` names a property of the
      modelled trade row, and the row's internal `id` has no column. */
  lemma RegistryMatchesRow()
    ensures forall i :: 0 <= i < |AllColumns| ==>
      (AllColumns[i].id in NumericKeys + StringKeys <==> AllColumns[i].id !in {"roe", "cqr"})
    ensures forall i :: 0 <= i < |AllColumns| ==> AllColumns[i].id != "id"
  {
  }

  /** No column id appears twice in the registry. */
  lemma AllColumnIdsDistinct()
    ensures forall i, j :: 0 <= i < j < |AllColumns| ==> AllColumns[i].id != AllColumns[j].id
  {
  }
}
