/** Models of the JavaScript array built-ins the dashboard's handlers use:
    `filter`, the `includes`/`filter`/spread toggle idiom, `indexOf`,
    `splice(i, 1)`, and the comparator-driven `sort`, which ECMAScript
    requires to be stable. */
module JsArray {

  /** A value or JavaScript's `undefined`. */
  datatype Option<T> = None | Some(value: T)

  // ---------------------------------------------------------------------
  // filter and subsequences
  // ---------------------------------------------------------------------

  /** `s.filter(p)`: the elements of `s` that satisfy `p`, in their order. */
  function Filter<T(==,!new)>(s: seq<T>, p: T -> bool): (r: seq<T>)
    ensures |r| <= |s|
    ensures forall i :: 0 <= i < |r| ==> p(r[i])
    decreases |s|
  {
    if s == [] then [] else (if p(s[0]) then [s[0]] else []) + Filter(s[1..], p)
  }

  lemma ConcatAssoc<T>(x: seq<T>, y: seq<T>, z: seq<T>)
    ensures x + (y + z) == (x + y) + z
  {
  }

  /** What `filter` keeps: each element of `s` that satisfies `p`, as often
      as it occurs in `s`, and nothing else; everything when all pass. */
  lemma FilterContents<T(!new)>(s: seq<T>, p: T -> bool)
    ensures forall x :: x in Filter(s, p) <==> x in s && p(x)
    ensures forall x :: multiset(Filter(s, p))[x] == if p(x) then multiset(s)[x] else 0
    ensures (forall i :: 0 <= i < |s| ==> p(s[i])) ==> Filter(s, p) == s
  {
    FilterMembers(s, p);
    FilterCounts(s, p);
    if forall i :: 0 <= i < |s| ==> p(s[i]) {
      FilterKeepsAll(s, p);
    }
  }

  /** The multiplicity part of `FilterContents`. */
  lemma {:induction false} FilterCounts<T(!new)>(s: seq<T>, p: T -> bool)
    ensures forall x :: multiset(Filter(s, p))[x] == if p(x) then multiset(s)[x] else 0
    decreases |s|
  {
    if s != [] {
      FilterCounts(s[1..], p);
      assert s == [s[0]] + s[1..];
      assert multiset(s) == multiset{s[0]} + multiset(s[1..]);
    }
  }

  /** The membership part of `FilterContents`, for proofs that need no more. */
  lemma {:induction false} FilterMembers<T(!new)>(s: seq<T>, p: T -> bool)
    ensures forall x :: x in Filter(s, p) <==> x in s && p(x)
    decreases |s|
  {
    if s != [] {
      FilterMembers(s[1..], p);
      assert s == [s[0]] + s[1..];
    }
  }

  /** A filter every element passes keeps the whole list. */
  lemma {:induction false} FilterKeepsAll<T(!new)>(s: seq<T>, p: T -> bool)
    requires forall i :: 0 <= i < |s| ==> p(s[i])
    ensures Filter(s, p) == s
    decreases |s|
  {
    if s != [] {
      FilterKeepsAll(s[1..], p);
    }
  }

  /** `r` can be obtained from `s` by deleting elements. */
  predicate IsSubsequence<T(==,!new)>(r: seq<T>, s: seq<T>)
    decreases |s|
  {
    if r == [] then true
    else if s == [] then false
    else (r[0] == s[0] && IsSubsequence(r[1..], s[1..])) || IsSubsequence(r, s[1..])
  }

  /** What `filter` keeps stays in its original relative order. */
  lemma {:induction false} FilterIsSubsequence<T(!new)>(s: seq<T>, p: T -> bool)
    ensures IsSubsequence(Filter(s, p), s)
    decreases |s|
  {
    if s != [] {
      FilterIsSubsequence(s[1..], p);
      var r := Filter(s, p);
      if p(s[0]) {
        assert r[0] == s[0] && r[1..] == Filter(s[1..], p);
      } else {
        assert r == Filter(s[1..], p);
      }
    }
  }

  /** Filtering a concatenation filters each part. */
  lemma {:induction false} FilterAppend<T(!new)>(a: seq<T>, b: seq<T>, p: T -> bool)
    ensures Filter(a + b, p) == Filter(a, p) + Filter(b, p)
    decreases |a|
  {
    if a != [] {
      FilterAppend(a[1..], b, p);
      var ab := a + b;
      var h := if p(a[0]) then [a[0]] else [];
      assert ab[0] == a[0] && ab[1..] == a[1..] + b;
      calc {
        Filter(ab, p);
        h + Filter(a[1..] + b, p);
        h + (Filter(a[1..], p) + Filter(b, p));
        (h + Filter(a[1..], p)) + Filter(b, p);
        Filter(a, p) + Filter(b, p);
      }
    } else {
      assert a + b == b;
    }
  }

  /** Filters that agree on every element of `s` keep the same elements. */
  lemma {:induction false} FilterCongruent<T(!new)>(s: seq<T>, p: T -> bool, q: T -> bool)
    requires forall i :: 0 <= i < |s| ==> p(s[i]) == q(s[i])
    ensures Filter(s, p) == Filter(s, q)
    decreases |s|
  {
    if s != [] {
      FilterCongruent(s[1..], p, q);
    }
  }

  // ---------------------------------------------------------------------
  // find
  // ---------------------------------------------------------------------

  /** `s.find(p)`: the first element satisfying `p`, or `undefined`. */
  function Find<T(==)>(s: seq<T>, p: T -> bool): (r: Option<T>)
    ensures r.None? <==> forall i :: 0 <= i < |s| ==> !p(s[i])
    ensures r.Some? ==> exists k :: 0 <= k < |s| && s[k] == r.value && p(s[k]) &&
                                    forall j :: 0 <= j < k ==> !p(s[j])
    decreases |s|
  {
    if s == [] then None
    else if p(s[0]) then Some(s[0])
    else
      var r := Find(s[1..], p);
      if r.Some? then
        var k :| 0 <= k < |s| - 1 && s[1..][k] == r.value && p(s[1..][k]) &&
                 forall j :: 0 <= j < k ==> !p(s[1..][j]);
        assert s[k + 1] == r.value && forall j :: 0 <= j < k + 1 ==> !p(s[j]);
        r
      else r
  }

  /** Filtering out only elements that fail `p` does not change what `find`
      returns. */
  lemma {:induction false} FindAfterFilter<T(!new)>(s: seq<T>, p: T -> bool, q: T -> bool)
    requires forall x :: p(x) ==> q(x)
    ensures Find(Filter(s, q), p) == Find(s, p)
    decreases |s|
  {
    if s != [] {
      FindAfterFilter(s[1..], p, q);
      var rest := Filter(s[1..], q);
      if q(s[0]) {
        assert Filter(s, q) == [s[0]] + rest;
        assert ([s[0]] + rest)[1..] == rest;
      } else {
        assert Filter(s, q) == rest;
      }
    }
  }

  /** Filtering out every element that satisfies `p` leaves nothing to find. */
  lemma FindAfterFilterOut<T(!new)>(s: seq<T>, p: T -> bool, q: T -> bool)
    requires forall x :: p(x) ==> !q(x)
    ensures Find(Filter(s, q), p) == None
  {
  }

  /** `find` on a list with one element appended. */
  lemma {:induction false} FindAppend<T(!new)>(s: seq<T>, x: T, p: T -> bool)
    ensures Find(s + [x], p) == if Find(s, p).Some? then Find(s, p) else if p(x) then Some(x) else None
    decreases |s|
  {
    if s == [] {
      assert s + [x] == [x];
    } else {
      assert (s + [x])[1..] == s[1..] + [x];
      FindAppend(s[1..], x, p);
    }
  }

  /** No element occurs twice. */
  ghost predicate NoDuplicates<T(!new)>(s: seq<T>) {
    forall x :: multiset(s)[x] <= 1
  }

  /** A list whose positions hold pairwise distinct elements has no
      duplicates. */
  lemma {:induction false} DistinctNoDuplicates<T(!new)>(s: seq<T>)
    requires forall i, j :: 0 <= i < j < |s| ==> s[i] != s[j]
    ensures NoDuplicates(s)
  {
    if s != [] {
      assert forall i, j :: 0 <= i < j < |s| - 1 ==> s[1..][i] == s[i + 1] && s[1..][j] == s[j + 1];
      DistinctNoDuplicates(s[1..]);
      assert s == [s[0]] + s[1..];
      assert multiset(s) == multiset{s[0]} + multiset(s[1..]);
      assert s[0] !in s[1..];
    }
  }

  // ---------------------------------------------------------------------
  // The includes/filter/spread toggle
  // ---------------------------------------------------------------------

  /** `y => y !== x`. */
  function Other<T(==)>(x: T): T -> bool {
    (y: T) => y != x
  }

  /** `s.includes(x) ? s.filter(y => y !== x) : [...s, x]`: removes every
      copy of `x` when present, appends it otherwise; nothing else changes
      membership. */
  function Toggle<T(==,!new)>(s: seq<T>, x: T): (r: seq<T>)
    ensures x in r <==> x !in s
    ensures forall y :: y != x ==> (y in r <==> y in s)
    ensures forall y :: y != x ==> multiset(r)[y] == multiset(s)[y]
    ensures x in s ==> IsSubsequence(r, s)
    ensures x !in s ==> |r| == |s| + 1 && r[|s|] == x && r[..|s|] == s
  {
    if x in s then
      FilterIsSubsequence(s, Other(x));
      FilterContents(s, Other(x));
      Filter(s, Other(x))
    else
      s + [x]
  }

  /** Toggling an absent element twice gives back the very same list. */
  lemma ToggleTwiceAbsent<T(!new)>(s: seq<T>, x: T)
    requires x !in s
    ensures Toggle(Toggle(s, x), x) == s
  {
    FilterAppend(s, [x], Other(x));
    FilterContents(s, Other(x));
    assert Filter([x], Other(x)) == [];
  }

  /** Toggling twice restores membership of every element. */
  lemma ToggleTwiceMembership<T(!new)>(s: seq<T>, x: T, y: T)
    ensures y in Toggle(Toggle(s, x), x) <==> y in s
  {
  }

  /** Toggling keeps a duplicate-free list duplicate-free. */
  lemma ToggleKeepsNoDuplicates<T(!new)>(s: seq<T>, x: T)
    requires NoDuplicates(s)
    ensures NoDuplicates(Toggle(s, x))
  {
    if x !in s {
      assert multiset(s + [x]) == multiset(s) + multiset{x};
    } else {
      FilterContents(s, Other(x));
    }
  }

  /** Filtering out an absent element changes nothing. */
  lemma {:induction false} FilterOtherAbsent<T(!new)>(s: seq<T>, x: T)
    requires x !in s
    ensures Filter(s, Other(x)) == s
    decreases |s|
  {
    if s != [] {
      FilterOtherAbsent(s[1..], x);
    }
  }

  /** Filtering out an element that occurs exactly once, at `i`, removes
      just that position. */
  lemma RemoveSingleOccurrence<T(!new)>(s: seq<T>, i: nat)
    requires i < |s| && s[i] !in s[..i] && s[i] !in s[i + 1..]
    ensures Filter(s, Other(s[i])) == s[..i] + s[i + 1..]
  {
    var a, x, b := s[..i], s[i], s[i + 1..];
    FilterOutSingle(a, x, b);
    assert a + [x] + b == s;
  }

  lemma FilterOutSingle<T(!new)>(a: seq<T>, x: T, b: seq<T>)
    requires x !in a && x !in b
    ensures Filter(a + [x] + b, Other(x)) == a + b
  {
    var p := Other(x);
    assert Filter(a + [x], p) == a by {
      FilterAppend(a, [x], p);
      FilterOtherAbsent(a, x);
      assert Filter([x], p) == [] by { assert [x][1..] == []; }
    }
    assert Filter(b, p) == b by { FilterOtherAbsent(b, x); }
    FilterAppend(a + [x], b, p);
  }

  // ---------------------------------------------------------------------
  // indexOf and splice
  // ---------------------------------------------------------------------

  /** `s.indexOf(x)`: the first position of `x`, or -1 when absent. */
  function IndexOf<T(==,!new)>(s: seq<T>, x: T): (r: int)
    ensures -1 <= r < |s|
    ensures r == -1 <==> x !in s
    ensures r >= 0 ==> s[r] == x && x !in s[..r]
    decreases |s|
  {
    if s == [] then -1
    else if s[0] == x then 0
    else
      var i := IndexOf(s[1..], x);
      if i == -1 then -1
      else
        assert s[..i + 1] == [s[0]] + s[1..][..i];
        i + 1
  }

  /** `s.splice(i, 1)` on a copy: the list without its element at `i`. */
  function RemoveAt<T(==,!new)>(s: seq<T>, i: nat): (r: seq<T>)
    requires i < |s|
    ensures |r| == |s| - 1
    ensures multiset(r) == multiset(s) - multiset{s[i]}
    ensures forall k :: 0 <= k < i ==> r[k] == s[k]
    ensures forall k :: i <= k < |r| ==> r[k] == s[k + 1]
  {
    assert s == s[..i] + [s[i]] + s[i + 1..];
    s[..i] + s[i + 1..]
  }

  // ---------------------------------------------------------------------
  // sort
  // ---------------------------------------------------------------------

  /** `cmp` orders the values in `dom` consistently: swapping its arguments
      flips the sign, and "not after" is transitive. Under these laws every
      stable sort produces the same result. */
  ghost predicate TotalPreorderOn<T(!new)>(cmp: (T, T) -> int, dom: seq<T>) {
    && (forall a, b :: a in dom && b in dom ==> (cmp(a, b) < 0 <==> cmp(b, a) > 0))
    && (forall a, b, c :: a in dom && b in dom && c in dom && cmp(a, b) <= 0 && cmp(b, c) <= 0 ==> cmp(a, c) <= 0)
  }

  /** `s` is in non-decreasing order for `cmp`. */
  ghost predicate Sorted<T>(s: seq<T>, cmp: (T, T) -> int) {
    forall i, j :: 0 <= i < j < |s| ==> cmp(s[i], s[j]) <= 0
  }

  /** Inserts `x` into `t` from the right, moving past exactly the trailing
      elements that compare greater than `x` (one insertion-sort pass). */
  function Insert<T(==,!new)>(t: seq<T>, x: T, cmp: (T, T) -> int): (r: seq<T>)
    ensures |r| == |t| + 1
    decreases |t|
  {
    if t == [] then [x]
    else if cmp(t[|t| - 1], x) > 0 then
      assert t == t[..|t| - 1] + [t[|t| - 1]];
      Insert(t[..|t| - 1], x, cmp) + [t[|t| - 1]]
    else
      t + [x]
  }

  /** `s.sort(cmp)` as a stable insertion sort: the functional specification
      of `SortInPlace`. */
  function SortBy<T(==,!new)>(s: seq<T>, cmp: (T, T) -> int): (r: seq<T>)
    ensures |r| == |s|
    decreases |s|
  {
    if s == [] then []
    else
      assert s == s[..|s| - 1] + [s[|s| - 1]];
      Insert(SortBy(s[..|s| - 1], cmp), s[|s| - 1], cmp)
  }

  /** Every element of `u` compares not after `m`. */
  ghost predicate AllNotAfter<T>(u: seq<T>, m: T, cmp: (T, T) -> int) {
    forall k :: 0 <= k < |u| ==> cmp(u[k], m) <= 0
  }

  lemma {:induction false} InsertAllNotAfter<T(!new)>(t: seq<T>, x: T, m: T, cmp: (T, T) -> int)
    requires AllNotAfter(t, m, cmp) && cmp(x, m) <= 0
    ensures AllNotAfter(Insert(t, x, cmp), m, cmp)
    decreases |t|
  {
    if t != [] && cmp(t[|t| - 1], x) > 0 {
      InsertAllNotAfter(t[..|t| - 1], x, m, cmp);
    }
  }

  /** Inserting adds exactly one occurrence of `x`. */
  lemma {:induction false} InsertPermutes<T(!new)>(t: seq<T>, x: T, cmp: (T, T) -> int)
    ensures multiset(Insert(t, x, cmp)) == multiset(t) + multiset{x}
    decreases |t|
  {
    if t != [] && cmp(t[|t| - 1], x) > 0 {
      var t' := t[..|t| - 1];
      InsertPermutes(t', x, cmp);
      assert t == t' + [t[|t| - 1]];
    }
  }

  /** `SortBy` rearranges its input: the result is a permutation of it. */
  lemma {:induction false} SortByPermutes<T(!new)>(s: seq<T>, cmp: (T, T) -> int)
    ensures multiset(SortBy(s, cmp)) == multiset(s)
    decreases |s|
  {
    if s != [] {
      var s' := s[..|s| - 1];
      SortByPermutes(s', cmp);
      InsertPermutes(SortBy(s', cmp), s[|s| - 1], cmp);
      assert s == s' + [s[|s| - 1]];
    }
  }

  /** Appending an element that nothing in a sorted `u` compares after keeps
      it sorted. */
  lemma SortedAppend<T>(u: seq<T>, m: T, cmp: (T, T) -> int)
    requires Sorted(u, cmp) && AllNotAfter(u, m, cmp)
    ensures Sorted(u + [m], cmp)
  {
    var r := u + [m];
    forall i, j | 0 <= i < j < |r| ensures cmp(r[i], r[j]) <= 0 {
      assert r[i] == u[i];
    }
  }

  lemma {:induction false} InsertSorted<T(!new)>(t: seq<T>, x: T, cmp: (T, T) -> int, dom: seq<T>)
    requires TotalPreorderOn(cmp, dom)
    requires x in dom && forall a :: a in t ==> a in dom
    requires Sorted(t, cmp)
    ensures Sorted(Insert(t, x, cmp), cmp)
    decreases |t|
  {
    if t != [] {
      var n := |t|;
      var last := t[n - 1];
      var t' := t[..n - 1];
      assert t == t' + [last];
      assert last in dom;
      if cmp(last, x) > 0 {
        assert Sorted(t', cmp) by {
          forall i, j | 0 <= i < j < n - 1 ensures cmp(t'[i], t'[j]) <= 0 {
            assert t'[i] == t[i] && t'[j] == t[j];
          }
        }
        InsertSorted(t', x, cmp, dom);
        assert AllNotAfter(t', last, cmp) by {
          forall k | 0 <= k < n - 1 ensures cmp(t'[k], last) <= 0 {
            assert t'[k] == t[k];
          }
        }
        assert cmp(x, last) <= 0;
        InsertAllNotAfter(t', x, last, cmp);
        SortedAppend(Insert(t', x, cmp), last, cmp);
      } else {
        assert AllNotAfter(t, x, cmp) by {
          forall k | 0 <= k < n ensures cmp(t[k], x) <= 0 {
            if k < n - 1 {
              assert t[k] in dom && cmp(t[k], last) <= 0;
            }
          }
        }
        SortedAppend(t, x, cmp);
      }
    }
  }

  lemma {:induction false} SortBySortedIn<T(!new)>(s: seq<T>, cmp: (T, T) -> int, dom: seq<T>)
    requires TotalPreorderOn(cmp, dom)
    requires forall a :: a in s ==> a in dom
    ensures Sorted(SortBy(s, cmp), cmp)
    decreases |s|
  {
    if s != [] {
      var s' := s[..|s| - 1];
      assert forall a :: a in s' ==> a in s;
      SortBySortedIn(s', cmp, dom);
      var t := SortBy(s', cmp);
      SortByPermutes(s', cmp);
      assert forall a :: a in t ==> a in multiset(s');
      InsertSorted(t, s[|s| - 1], cmp, dom);
    }
  }

  /** Under a consistent comparator, the result of `SortBy` is sorted. */
  lemma SortBySorted<T(!new)>(s: seq<T>, cmp: (T, T) -> int)
    requires TotalPreorderOn(cmp, s)
    ensures Sorted(SortBy(s, cmp), cmp)
  {
    SortBySortedIn(s, cmp, s);
  }

  /** The elements that compare equal to `x0`. */
  function TiesWith<T>(cmp: (T, T) -> int, x0: T): T -> bool {
    a => cmp(a, x0) == 0
  }

  /** Under a consistent comparator, what compares strictly after an element
      tied with `x0` is not tied with `x0`. */
  lemma AfterTieNotTied<T(!new)>(cmp: (T, T) -> int, dom: seq<T>, a: T, e: T, x0: T)
    requires TotalPreorderOn(cmp, dom)
    requires a in dom && e in dom && x0 in dom
    requires cmp(a, e) > 0 && cmp(e, x0) == 0
    ensures cmp(a, x0) != 0
  {
  }

  lemma {:induction false} InsertKeepsTies<T(!new)>(t: seq<T>, e: T, cmp: (T, T) -> int, dom: seq<T>, x0: T)
    requires TotalPreorderOn(cmp, dom)
    requires e in dom && x0 in dom && forall a :: a in t ==> a in dom
    ensures Filter(Insert(t, e, cmp), TiesWith(cmp, x0)) == Filter(t, TiesWith(cmp, x0)) + Filter([e], TiesWith(cmp, x0))
    decreases |t|
  {
    var p := TiesWith(cmp, x0);
    if t == [] {
      assert Insert(t, e, cmp) == [e];
    } else {
      var n := |t|;
      var last := t[n - 1];
      var t' := t[..n - 1];
      assert t == t' + [last];
      if cmp(last, e) > 0 {
        InsertKeepsTies(t', e, cmp, dom, x0);
        assert !p(last) || !p(e) by {
          if p(e) {
            assert last in dom;
            AfterTieNotTied(cmp, dom, last, e, x0);
          }
        }
        PassOverUntied(Insert(t', e, cmp), t', last, e, p);
      } else {
        FilterAppend(t, [e], p);
      }
    }
  }

  /** When `e` and `last` are not both kept, moving `e` before `last` does
      not change what the filter keeps. */
  lemma PassOverUntied<T(!new)>(u: seq<T>, t: seq<T>, last: T, e: T, p: T -> bool)
    requires Filter(u, p) == Filter(t, p) + Filter([e], p)
    requires !p(last) || !p(e)
    ensures Filter(u + [last], p) == Filter(t + [last], p) + Filter([e], p)
  {
    FilterAppend(u, [last], p);
    FilterAppend(t, [last], p);
    FilterSingleton(last, p);
    FilterSingleton(e, p);
    if !p(last) {
      assert Filter(u + [last], p) == Filter(u, p) + [];
      assert Filter(t + [last], p) == Filter(t, p) + [];
    } else {
      assert Filter(u + [last], p) == Filter(t, p) + [] + [last];
      assert Filter(t, p) + [] + [last] == Filter(t + [last], p) + [];
    }
  }

  lemma FilterSingleton<T(!new)>(x: T, p: T -> bool)
    ensures Filter([x], p) == if p(x) then [x] else []
  {
    assert [x][1..] == [];
  }

  /** Stability: the elements that tie with any `x0` appear in the sorted
      result in the same relative order as in the input. */
  lemma {:induction false} SortByStable<T(!new)>(s: seq<T>, cmp: (T, T) -> int, dom: seq<T>, x0: T)
    requires TotalPreorderOn(cmp, dom)
    requires x0 in dom && forall a :: a in s ==> a in dom
    ensures Filter(SortBy(s, cmp), TiesWith(cmp, x0)) == Filter(s, TiesWith(cmp, x0))
    decreases |s|
  {
    if s != [] {
      var s' := s[..|s| - 1];
      var e := s[|s| - 1];
      assert s == s' + [e];
      SortByStable(s', cmp, dom, x0);
      var t := SortBy(s', cmp);
      SortByPermutes(s', cmp);
      assert forall a :: a in t ==> a in multiset(s');
      InsertKeepsTies(t, e, cmp, dom, x0);
      FilterAppend(s', [e], TiesWith(cmp, x0));
    }
  }

  /** `Insert` puts `x` right after the last element not after it. */
  lemma {:induction false} InsertPosition<T(!new)>(t: seq<T>, j: nat, x: T, cmp: (T, T) -> int)
    requires j <= |t|
    requires forall k :: j <= k < |t| ==> cmp(t[k], x) > 0
    requires j == 0 || cmp(t[j - 1], x) <= 0
    ensures Insert(t, x, cmp) == t[..j] + [x] + t[j..]
    decreases |t|
  {
    var n := |t|;
    if n == j {
      assert t[..j] == t && t[j..] == [];
    } else {
      var t' := t[..n - 1];
      assert t'[..j] == t[..j];
      InsertPosition(t', j, x, cmp);
      assert t[j..] == t'[j..] + [t[n - 1]];
    }
  }

  /** Sorting one more element of `s` inserts it into the sorted prefix. */
  lemma SortByStep<T(!new)>(s: seq<T>, i: nat, cmp: (T, T) -> int)
    requires i < |s|
    ensures SortBy(s[..i + 1], cmp) == Insert(SortBy(s[..i], cmp), s[i], cmp)
  {
    assert s[..i + 1][..i] == s[..i];
  }

  /** One pass of the in-place insertion sort: moves `a[i]` left past the
      greater elements of the prefix `a[..i]`. */
  method InsertInPlace<T(==,!new)>(a: array<T>, i: nat, cmp: (T, T) -> int)
    requires i < a.Length
    modifies a
    ensures a[..i + 1] == Insert(old(a[..i]), old(a[i]), cmp)
    ensures forall k :: i < k < a.Length ==> a[k] == old(a[k])
  {
    var x := a[i];
    ghost var t := a[..i];
    var j := i;
    while j > 0 && cmp(a[j - 1], x) > 0
      invariant 0 <= j <= i
      invariant forall k :: 0 <= k < j ==> a[k] == t[k]
      invariant forall k :: j < k <= i ==> a[k] == t[k - 1]
      invariant forall k :: i < k < a.Length ==> a[k] == old(a[k])
      invariant forall k :: j <= k < i ==> cmp(t[k], x) > 0
    {
      a[j] := a[j - 1];
      j := j - 1;
    }
    a[j] := x;
    InsertPosition(t, j, x, cmp);
    ShiftedInsert(a[..], t, j, x);
  }

  /** A sequence that agrees with `t` before `j`, holds `x` at `j` and `t`
      shifted right by one after it, starts with `t` with `x` inserted at `j`. */
  lemma ShiftedInsert<T>(s: seq<T>, t: seq<T>, j: nat, x: T)
    requires j <= |t| < |s|
    requires forall k :: 0 <= k < j ==> s[k] == t[k]
    requires s[j] == x
    requires forall k :: j < k <= |t| ==> s[k] == t[k - 1]
    ensures s[..|t| + 1] == t[..j] + [x] + t[j..]
  {
    var r := t[..j] + [x] + t[j..];
    forall k | 0 <= k <= |t| ensures s[k] == r[k] {
      if k > j {
        assert r[k] == t[j..][k - j - 1];
      }
    }
  }

  /** `a.sort(cmp)` in place: an insertion sort that shifts the greater
      elements right, so that the array ends up as `SortBy` of its old
      contents. */
  method SortInPlace<T(==,!new)>(a: array<T>, cmp: (T, T) -> int)
    modifies a
    ensures a[..] == SortBy(old(a[..]), cmp)
  {
    ghost var input := a[..];
    var i := 0;
    while i < a.Length
      invariant 0 <= i <= a.Length
      invariant a[..i] == SortBy(input[..i], cmp)
      invariant forall k :: i <= k < a.Length ==> a[k] == input[k]
    {
      SortByStep(input, i, cmp);
      InsertInPlace(a, i, cmp);
      i := i + 1;
    }
    assert a[..] == a[..a.Length];
    assert input[..a.Length] == input;
  }
}
