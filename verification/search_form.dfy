/** The tabbed search form (`src/components/search/SearchPage.tsx`): which
    tab is active, the four form fields, the tab clicks and the Reset
    button, which clears only the active tab's fields. */
module SearchForm {

  datatype Tab = TradeIdTab | CounterpartyTab

  /** The form fields the page keeps. */
  datatype Field = SourceSystem | TradeId | Counterparty | WcisId

  /** The fields a tab's panel edits: the trade-id panel edits the source
      system and the trade id; the counterparty panel edits the
      counterparty, the source system and the WCIS id. */
  function PanelFields(tab: Tab): (r: set<Field>)
    ensures SourceSystem in r
    ensures TradeId in r <==> tab == TradeIdTab
    ensures Counterparty in r <==> tab == CounterpartyTab
    ensures WcisId in r <==> tab == CounterpartyTab
  {
    match tab
    case TradeIdTab => {SourceSystem, TradeId}
    case CounterpartyTab => {Counterparty, SourceSystem, WcisId}
  }

  /** Together the two panels edit every field, and they share only the
      source system. */
  lemma PanelsCoverFields(f: Field)
    ensures f in PanelFields(TradeIdTab) || f in PanelFields(CounterpartyTab)
    ensures f in PanelFields(TradeIdTab) && f in PanelFields(CounterpartyTab) <==> f == SourceSystem
  {
  }

  /** The `SearchPage` component's five state hooks. */
  class Form {
    var activeTab: Tab
    var sourceSystem: string
    var tradeId: string
    var counterparty: string
    var wcisId: string

    /** The initial state: the trade-id tab, every field empty. */
    constructor ()
      ensures activeTab == TradeIdTab
      ensures forall f :: Value(f) == ""
    {
      activeTab := TradeIdTab;
      sourceSystem := "";
      tradeId := "";
      counterparty := "";
      wcisId := "";
    }

    /** The current text of a field. */
    function Value(f: Field): string
      reads this
    {
      match f
      case SourceSystem => sourceSystem
      case TradeId => tradeId
      case Counterparty => counterparty
      case WcisId => wcisId
    }

    /** The trade-id panel is rendered exactly while its tab is active. */
    predicate TradeIdPanelShown()
      reads this
    {
      activeTab == TradeIdTab
    }

    /** The counterparty panel is rendered exactly while its tab is active. */
    predicate CounterpartyPanelShown()
      reads this
    {
      activeTab == CounterpartyTab
    }

    /** A tab click: `setActiveTab(tab)`; the fields keep their text. */
    method SelectTab(tab: Tab)
      modifies this`activeTab
      ensures activeTab == tab
      ensures tab == TradeIdTab ==> TradeIdPanelShown() && !CounterpartyPanelShown()
      ensures tab == CounterpartyTab ==> CounterpartyPanelShown() && !TradeIdPanelShown()
    {
      activeTab := tab;
    }

    /** `handleClear`: empties the fields of the active tab's panel, leaves
        the other fields and the active tab as they were. */
    method HandleClear()
      modifies this`sourceSystem, this`tradeId, this`counterparty, this`wcisId
      ensures activeTab == old(activeTab)
      ensures forall f :: f in PanelFields(activeTab) ==> Value(f) == ""
      ensures forall f :: f !in PanelFields(activeTab) ==> Value(f) == old(Value(f))
    {
      if activeTab == TradeIdTab {
        tradeId := "";
        sourceSystem := "";
      } else {
        counterparty := "";
        sourceSystem := "";
        wcisId := "";
      }
    }

    /** A field's change handler (`setSourceSystem`, `setTradeId`,
        `setCounterparty`, `setWCISId`): that field only. */
    method SetField(f: Field, value: string)
      modifies this`sourceSystem, this`tradeId, this`counterparty, this`wcisId
      ensures Value(f) == value
      ensures forall g :: g != f ==> Value(g) == old(Value(g))
    {
      match f
      case SourceSystem => sourceSystem := value;
      case TradeId => tradeId := value;
      case Counterparty => counterparty := value;
      case WcisId => wcisId := value;
    }
  }

  /** Exactly one of the two panels is rendered, whatever the state. */
  lemma ExactlyOnePanelShown(form: Form)
    ensures form.TradeIdPanelShown() != form.CounterpartyPanelShown()
  {
  }
}
