/** The alternative search page (`src/components/SearchPage.clean.tsx`). Its
    column registry and mock-row generator are the same text as the mounted
    page's, and are shared with it here; what differs is the column toggle,
    which copies the list and edits the copy at the `indexOf` position. */
module SearchPageClean {
  import opened JsArray
  import opened Types
  import opened ColumnVisibility
  import SearchPage

  /** The toggle's new list: `[...s]` followed by `push(x)` when `indexOf`
      finds nothing, or by `splice(indexOf(x), 1)`, which removes the first
      occurrence only and keeps the rest in order. */
  function SpliceToggle(s: seq<string>, x: string): (r: seq<string>)
    ensures x !in s ==> r == s + [x]
    ensures x in s ==> exists i :: 0 <= i < |s| && s[i] == x && x !in s[..i] && r == s[..i] + s[i + 1..]
    ensures multiset(r) == if x in s then multiset(s) - multiset{x} else multiset(s) + multiset{x}
  {
    var i := IndexOf(s, x);
    if i == -1 then s + [x]
    else
      assert s[..i] + s[i + 1..] == RemoveAt(s, i);
      RemoveAt(s, i)
  }

  /** On a duplicate-free list the splice toggle and the filter toggle of
      the mounted page produce the same list. */
  lemma SpliceToggleAgreesWithToggle(s: seq<string>, x: string)
    requires NoDuplicates(s)
    ensures SpliceToggle(s, x) == Toggle(s, x)
  {
    if x in s {
      var i := IndexOf(s, x);
      assert s == s[..i] + [x] + s[i + 1..];
      assert x !in s[i + 1..] by {
        assert multiset(s)[x] == multiset(s[..i])[x] + 1 + multiset(s[i + 1..])[x];
      }
      RemoveSingleOccurrence(s, i);
    }
  }

  /** On a list with a repeated id the two toggles differ: the splice
      removes only the first copy, so the id stays listed, while the filter
      removes every copy. */
  lemma SpliceToggleRemovesOnlyFirst(s: seq<string>, x: string)
    requires multiset(s)[x] >= 2
    ensures multiset(SpliceToggle(s, x))[x] == multiset(s)[x] - 1
    ensures x in SpliceToggle(s, x) && x !in Toggle(s, x)
  {
    assert x in s;
    assert x in multiset(SpliceToggle(s, x));
  }

  /** On a duplicate-free list the splice toggle keeps it duplicate-free and
      toggling twice restores every id's membership. */
  lemma SpliceToggleDuplicateFree(s: seq<string>, x: string, y: string)
    requires NoDuplicates(s)
    ensures NoDuplicates(SpliceToggle(s, x))
    ensures y in SpliceToggle(SpliceToggle(s, x), x) <==> y in s
  {
    SpliceToggleAgreesWithToggle(s, x);
    ToggleKeepsNoDuplicates(s, x);
    SpliceToggleAgreesWithToggle(SpliceToggle(s, x), x);
    ToggleTwiceMembership(s, x, y);
  }

  /** The `SearchPage` component of this file: the same page state as the
      mounted page; only the toggle is written differently. */
  class CleanPage {
    var tabValue: int
    var sourceSystem: string
    var tradeId: string
    var counterparty: string
    var visibleColumns: seq<string>
    var selectorOpen: bool

    /** The ids stay duplicate-free. */
    ghost predicate Valid()
      reads this
    {
      NoDuplicates(visibleColumns)
    }

    constructor ()
      ensures Valid()
      ensures tabValue == 0 && sourceSystem == "" && tradeId == "" && counterparty == ""
      ensures visibleColumns == Ids(SearchPage.PageColumns) && !selectorOpen
    {
      tabValue := 0;
      sourceSystem := "";
      tradeId := "";
      counterparty := "";
      visibleColumns := Ids(SearchPage.PageColumns);
      selectorOpen := false;
      SearchPage.PageIdsNoDuplicates();
    }

    /** `handleColumnToggle`: finds the id, copies the list, then pushes the
        id onto the copy or splices its first occurrence out of it, and
        stores the copy. */
    method HandleColumnToggle(columnId: string)
      requires Valid()
      modifies this`visibleColumns
      ensures Valid()
      ensures visibleColumns == SpliceToggle(old(visibleColumns), columnId)
      ensures visibleColumns == Toggle(old(visibleColumns), columnId)
    {
      var currentIndex := IndexOf(visibleColumns, columnId);
      var newVisibleColumns := visibleColumns;
      if currentIndex == -1 {
        newVisibleColumns := newVisibleColumns + [columnId];
      } else {
        newVisibleColumns := RemoveAt(newVisibleColumns, currentIndex);
      }
      SpliceToggleAgreesWithToggle(visibleColumns, columnId);
      SpliceToggleDuplicateFree(visibleColumns, columnId, columnId);
      visibleColumns := newVisibleColumns;
    }

    /** `handleSelectAll`: every registry id, in registry order. */
    method HandleSelectAll()
      modifies this`visibleColumns
      ensures Valid()
      ensures visibleColumns == Ids(SearchPage.PageColumns)
      ensures VisibleColumnConfigs() == SearchPage.PageColumns
    {
      visibleColumns := Ids(SearchPage.PageColumns);
      EverythingVisible();
    }

    /** With every registry id visible the whole registry is rendered. */
    lemma EverythingVisible()
      requires visibleColumns == Ids(SearchPage.PageColumns)
      ensures Valid()
      ensures VisibleColumnConfigs() == SearchPage.PageColumns
    {
      SearchPage.PageIdsNoDuplicates();
      SelectAllShowsRegistry(SearchPage.PageColumns);
    }

    /** `handleClearAll`. */
    method HandleClearAll()
      modifies this`visibleColumns
      ensures Valid()
      ensures visibleColumns == [] && VisibleColumnConfigs() == []
    {
      visibleColumns := [];
      NothingVisible();
    }

    /** With no id visible nothing is rendered. */
    lemma NothingVisible()
      requires visibleColumns == []
      ensures VisibleColumnConfigs() == []
    {
      ClearAllShowsNothing(SearchPage.PageColumns);
    }

    /** `visibleColumnConfigs`: the registry entries whose id is visible, in
        registry order. */
    function VisibleColumnConfigs(): (r: seq<Column>)
      reads this
      ensures forall c :: c in r <==> c in SearchPage.PageColumns && c.id in visibleColumns
      ensures IsSubsequence(r, SearchPage.PageColumns)
    {
      VisibleConfigs(SearchPage.PageColumns, visibleColumns)
    }
  }
}
