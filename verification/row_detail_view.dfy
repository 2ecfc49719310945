/** The row detail view (`src/components/data-grid/RowDetailView.tsx`): one
    labelled item per property of the row except `id`, in entry order; the
    label spells the camel-case key as words, and an empty value shows a
    dash. */
module RowDetailView {
  import opened JsText
  import opened JsArray
  import opened Types

  // ---------------------------------------------------------------------
  // The label transform
  // ---------------------------------------------------------------------

  /** `key.replace(/([A-Z])/g, ' $1')`: a space before every capital A-Z.
      The result is one character longer per capital, every capital in it
      follows a space, and no character of the key is lost. */
  function SpaceBeforeCapitals(key: string): (r: string)
    ensures |r| == |key| + |Filter(key, IsUpper)|
    ensures forall i :: 0 <= i < |r| && IsUpper(r[i]) ==> 0 < i && r[i - 1] == ' '
    ensures forall c :: c in r ==> c == ' ' || c in key
    ensures forall c :: c in key ==> c in r
    ensures (forall i :: 0 <= i < |key| ==> !IsUpper(key[i])) ==> r == key
    decreases |key|
  {
    if key == [] then []
    else
      var rest := SpaceBeforeCapitals(key[1..]);
      var h := if IsUpper(key[0]) then [' ', key[0]] else [key[0]];
      assert forall c :: c in key <==> c == key[0] || c in key[1..];
      assert forall i :: |h| <= i < |h| + |rest| ==> (h + rest)[i] == rest[i - |h|];
      h + rest
  }

  /** The label of a property: its key as words, trimmed. It has no white
      space at either end, and every capital after its first character
      follows a space. */
  function Label(key: string): (r: string)
    ensures r == [] || (!IsWhitespace(r[0]) && !IsWhitespace(r[|r| - 1]))
    ensures forall i :: 0 < i < |r| && IsUpper(r[i]) ==> r[i - 1] == ' '
  {
    var x := SpaceBeforeCapitals(key);
    TrimKeepsSpacing(x);
    Trim(x)
  }

  /** Trimming keeps "every capital follows a space" for the capitals that
      are not first. */
  lemma TrimKeepsSpacing(x: string)
    requires forall i :: 0 <= i < |x| && IsUpper(x[i]) ==> 0 < i && x[i - 1] == ' '
    ensures forall i :: 0 < i < |Trim(x)| && IsUpper(Trim(x)[i]) ==> Trim(x)[i - 1] == ' '
  {
    var a, b := TrimBounds(x);
    assert forall i :: 0 <= i < |Trim(x)| ==> Trim(x)[i] == x[a + i];
  }

  /** Spacing works piece by piece. */
  lemma {:induction false} SpacingAppend(a: string, b: string)
    ensures SpaceBeforeCapitals(a + b) == SpaceBeforeCapitals(a) + SpaceBeforeCapitals(b)
    decreases |a|
  {
    if a == [] {
      assert a + b == b;
    } else {
      var h := if IsUpper(a[0]) then [' ', a[0]] else [a[0]];
      assert SpaceBeforeCapitals(a + b) == h + SpaceBeforeCapitals(a[1..] + b) by {
        assert (a + b)[0] == a[0];
        assert (a + b)[1..] == a[1..] + b;
      }
      SpacingAppend(a[1..], b);
      assert SpaceBeforeCapitals(a) == h + SpaceBeforeCapitals(a[1..]);
      ConcatAssoc(h, SpaceBeforeCapitals(a[1..]), SpaceBeforeCapitals(b));
    }
  }

  /** A plain word: no capital and no white space. */
  predicate PlainWord(w: string) {
    forall i :: 0 <= i < |w| ==> !IsUpper(w[i]) && !IsWhitespace(w[i])
  }

  /** A camel-case key `w1 C w2` is labelled `w1 C w2` with a space before
      the capital: `tradeDate` becomes `trade Date`. */
  lemma CamelCaseLabel(w1: string, c: char, w2: string)
    requires w1 != [] && PlainWord(w1) && PlainWord(w2) && IsUpper(c)
    ensures Label(w1 + [c] + w2) == w1 + [' ', c] + w2
  {
    var x := w1 + [' ', c] + w2;
    assert SpaceBeforeCapitals(w1 + [c] + w2) == x by {
      CamelCaseSpacing(w1, c, w2);
    }
    assert Trim(x) == x by {
      assert x[0] == w1[0];
      assert x[|x| - 1] == if w2 == [] then c else w2[|w2| - 1];
      UpperNotWhitespace(c);
      TrimUnchanged(x);
    }
  }

  lemma CamelCaseSpacing(w1: string, c: char, w2: string)
    requires PlainWord(w1) && PlainWord(w2) && IsUpper(c)
    ensures SpaceBeforeCapitals(w1 + [c] + w2) == w1 + [' ', c] + w2
  {
    SpacingAppend(w1 + [c], w2);
    SpacingAppend(w1, [c]);
    assert SpaceBeforeCapitals([c]) == [' ', c] by {
      assert [c][1..] == [];
    }
  }

  /** A key that starts with a capital gets a leading space, which `trim`
      removes: `Id` is labelled `Id`. */
  lemma LeadingCapitalLabel(c: char, w: string)
    requires IsUpper(c) && PlainWord(w)
    ensures Label([c] + w) == [c] + w
  {
    var v := [c] + w;
    assert SpaceBeforeCapitals(v) == [' '] + v by {
      CamelCaseSpacing([], c, w);
      assert [] + [c] + w == v;
      assert [] + [' ', c] + w == [' '] + v;
    }
    assert Trim([' '] + v) == v by {
      assert v[|v| - 1] == if w == [] then c else w[|w| - 1];
      UpperNotWhitespace(c);
      TrimLeadingWhitespace([' '], v);
    }
  }

  lemma UpperNotWhitespace(c: char)
    requires IsUpper(c)
    ensures !IsWhitespace(c)
  {
  }

  /** Deleting the spaces: `s.filter(c => c !== ' ')`. */
  function RemoveSpaces(s: string): (r: string)
    ensures ' ' !in r
  {
    FilterContents(s, Other(' '));
    Filter(s, Other(' '))
  }

  /** Deleting the spaces from the spaced key gives what deleting them from
      the key gives. */
  lemma {:induction false} SpacedKeySpaces(key: string)
    ensures RemoveSpaces(SpaceBeforeCapitals(key)) == RemoveSpaces(key)
    decreases |key|
  {
    if key != [] {
      SpacedKeySpaces(key[1..]);
      var h := if IsUpper(key[0]) then [' ', key[0]] else [key[0]];
      FilterAppend(h, SpaceBeforeCapitals(key[1..]), Other(' '));
      FilterAppend([key[0]], key[1..], Other(' '));
      assert key == [key[0]] + key[1..];
      if IsUpper(key[0]) {
        assert h == [' '] + [key[0]];
        FilterAppend([' '], [key[0]], Other(' '));
      }
    }
  }

  /** A run of spaces disappears entirely. */
  lemma {:induction false} OnlySpacesRemoved(w: string)
    requires forall i :: 0 <= i < |w| ==> w[i] == ' '
    ensures RemoveSpaces(w) == []
    decreases |w|
  {
    if w != [] {
      OnlySpacesRemoved(w[1..]);
    }
  }

  /** When the only white space in `x` is the plain space, trimming removes
      nothing that deleting the spaces would keep. */
  lemma TrimRemovesOnlySpaces(x: string)
    requires forall i :: 0 <= i < |x| && IsWhitespace(x[i]) ==> x[i] == ' '
    ensures RemoveSpaces(Trim(x)) == RemoveSpaces(x)
  {
    var a, b := TrimBounds(x);
    var t := x[a..b];
    assert forall i :: 0 <= i < a ==> x[..a][i] == ' ' by {
      forall i | 0 <= i < a ensures x[..a][i] == ' ' { assert x[..a][i] == x[i]; }
    }
    assert forall i :: 0 <= i < |x| - b ==> x[b..][i] == ' ' by {
      forall i | 0 <= i < |x| - b ensures x[b..][i] == ' ' { assert x[b..][i] == x[b + i]; }
    }
    assert x == x[..a] + (t + x[b..]);
    SpacesVanish(x[..a], t + x[b..]);
    SpacesVanish(x[b..], t);
  }

  /** A run of spaces before or after a string adds nothing once the
      spaces are deleted. */
  lemma SpacesVanish(w: string, t: string)
    requires forall i :: 0 <= i < |w| ==> w[i] == ' '
    ensures RemoveSpaces(w + t) == RemoveSpaces(t)
    ensures RemoveSpaces(t + w) == RemoveSpaces(t)
  {
    OnlySpacesRemoved(w);
    FilterAppend(w, t, Other(' '));
    FilterAppend(t, w, Other(' '));
  }

  /** The label round trip: for a key without white space, deleting the
      spaces from its label gives back the key. */
  lemma LabelRoundTrip(key: string)
    requires forall i :: 0 <= i < |key| ==> !IsWhitespace(key[i])
    ensures RemoveSpaces(Label(key)) == key
  {
    var x := SpaceBeforeCapitals(key);
    forall i | 0 <= i < |x| && IsWhitespace(x[i]) ensures x[i] == ' ' {
      assert x[i] in x;
    }
    TrimRemovesOnlySpaces(x);
    SpacedKeySpaces(key);
    FilterOtherAbsent(key, ' ');
  }

  /** A key without capitals or surrounding white space is its own label. */
  lemma LabelWithoutCapitals(key: string)
    requires forall i :: 0 <= i < |key| ==> !IsUpper(key[i])
    requires key == [] || (!IsWhitespace(key[0]) && !IsWhitespace(key[|key| - 1]))
    ensures Label(key) == key
  {
    TrimUnchanged(key);
  }

  // ---------------------------------------------------------------------
  // The value fallback
  // ---------------------------------------------------------------------

  const Dash := "—"

  /** `value?.toString() || '—'`: the value's string form, or a dash
      for `null`, `undefined` and an empty string form; never empty. */
  function Display(c: Cell): (r: string)
    ensures r != []
    ensures c.None? || c.value.Null? || StringOf(c) == [] ==> r == Dash
    ensures c.Some? && !c.value.Null? && StringOf(c) != [] ==> r == StringOf(c)
  {
    if c.None? || c.value.Null? then Dash
    else if StringOf(c) == [] then Dash
    else StringOf(c)
  }

  // ---------------------------------------------------------------------
  // The listing
  // ---------------------------------------------------------------------

  /** One rendered property: the entry it shows, keyed by its key. */
  datatype DetailItem = DetailItem(key: string, value: Cell)

  function ItemOf(e: (string, Cell)): DetailItem {
    DetailItem(e.0, e.1)
  }

  /** The entries the view lists: all but `id`. */
  function IsShownEntry(e: (string, Cell)): bool {
    e.0 != "id"
  }

  /** `Object.entries(row).map(...)` with the `id` entry skipped: one item
      per other entry, in entry order. */
  function DetailItems(entries: seq<(string, Cell)>): (r: seq<DetailItem>)
    ensures forall it :: it in r ==> it.key != "id"
    ensures forall e :: e in entries && e.0 != "id" ==> ItemOf(e) in r
    ensures (forall i :: 0 <= i < |entries| ==> entries[i].0 != "id") ==>
      r == seq(|entries|, i requires 0 <= i < |entries| => ItemOf(entries[i]))
  {
    var shown := Filter(entries, IsShownEntry);
    var r := seq(|shown|, j requires 0 <= j < |shown| => ItemOf(shown[j]));
    assert forall e :: e in entries && e.0 != "id" ==> ItemOf(e) in r by {
      FilterMembers(entries, IsShownEntry);
      forall e | e in entries && e.0 != "id" ensures ItemOf(e) in r {
        assert e in shown;
        var j :| 0 <= j < |shown| && shown[j] == e;
        assert r[j] == ItemOf(e);
      }
    }
    assert (forall i :: 0 <= i < |entries| ==> entries[i].0 != "id") ==> shown == entries by {
      if forall i :: 0 <= i < |entries| ==> entries[i].0 != "id" {
        FilterKeepsAll(entries, IsShownEntry);
      }
    }
    r
  }

  /** What the component renders. */
  datatype Detail = Placeholder | Items(items: seq<DetailItem>)

  /** `RowDetailView`: the "No data to display" placeholder without a row,
      otherwise the items of its entries. */
  function Render(data: Option<TradeRow>): (r: Detail)
    ensures r.Placeholder? <==> data.None?
    ensures data.Some? ==> r == Items(DetailItems(data.value.Entries()))
  {
    match data
    case None => Placeholder
    case Some(row) => Items(DetailItems(row.Entries()))
  }

  /** Only the first of a trade row's keys is `id`. */
  lemma OnlyFirstKeyIsId()
    ensures RowKeys[0] == "id"
    ensures forall i :: 1 <= i < |RowKeys| ==> RowKeys[i] != "id"
  {
  }

  /** Entries that start with the only `id` entry are all listed but that
      one, in order. */
  lemma DetailItemsAfterLeadingId(es: seq<(string, Cell)>)
    requires |es| > 0 && es[0].0 == "id"
    requires forall i :: 1 <= i < |es| ==> es[i].0 != "id"
    ensures DetailItems(es) == seq(|es| - 1, i requires 0 <= i < |es| - 1 => ItemOf(es[i + 1]))
  {
    assert Filter(es, IsShownEntry) == Filter(es[1..], IsShownEntry);
    assert forall i :: 0 <= i < |es| - 1 ==> IsShownEntry(es[1..][i]) by {
      forall i | 0 <= i < |es| - 1 ensures IsShownEntry(es[1..][i]) {
        assert es[1..][i] == es[i + 1];
      }
    }
    FilterKeepsAll(es[1..], IsShownEntry);
  }

  /** For a trade row every entry but the leading `id` one is listed, in the
      order of the row's keys. */
  lemma TradeRowDetail(row: TradeRow)
    ensures Render(Some(row)) ==
      Items(seq(|RowKeys| - 1, i requires 0 <= i < |RowKeys| - 1 => ItemOf(row.Entries()[i + 1])))
  {
    var es := row.Entries();
    OnlyFirstKeyIsId();
    DetailItemsAfterLeadingId(es);
  }
}
