/** The column-visibility idiom the grid and both search pages share: the
    visible ids are a list that a toggle edits, select-all refills from the
    registry and clear-all empties; the rendered columns are always
    `registry.filter(col => visible.includes(col.id))`. */
module ColumnVisibility {
  import opened JsArray
  import opened Types

  /** `col => visible.includes(col.id)`. */
  function IsVisibleIn(visible: seq<string>): Column -> bool {
    (col: Column) => col.id in visible
  }

  /** The rendered columns: the registry entries whose id is visible, in
      registry order, whatever order the ids were toggled in. */
  function VisibleConfigs(registry: seq<Column>, visible: seq<string>): (r: seq<Column>)
    ensures forall c :: c in r <==> c in registry && c.id in visible
    ensures IsSubsequence(r, registry)
  {
    FilterContents(registry, IsVisibleIn(visible));
    FilterIsSubsequence(registry, IsVisibleIn(visible));
    Filter(registry, IsVisibleIn(visible))
  }

  /** Only the set of visible ids matters, not their order or repetition. */
  lemma VisibleConfigsDependOnSetOnly(registry: seq<Column>, v1: seq<string>, v2: seq<string>)
    requires forall id :: id in v1 <==> id in v2
    ensures VisibleConfigs(registry, v1) == VisibleConfigs(registry, v2)
  {
    FilterCongruent(registry, IsVisibleIn(v1), IsVisibleIn(v2));
  }

  /** With every registry id visible the whole registry is rendered. */
  lemma SelectAllShowsRegistry(registry: seq<Column>)
    ensures VisibleConfigs(registry, Ids(registry)) == registry
  {
    var v := Ids(registry);
    assert forall i :: 0 <= i < |registry| ==> registry[i].id == v[i];
    FilterContents(registry, IsVisibleIn(v));
  }

  /** With no id visible nothing is rendered. */
  lemma ClearAllShowsNothing(registry: seq<Column>)
    ensures VisibleConfigs(registry, []) == []
  {
  }
}
